/** The records the store keeps: graph nodes, seed roots, generated child records and chat messages. */
module GraphTypes {
  import opened Wrappers

  type NodeId = string

  function Min(a: int, b: int): int {
    if a <= b then a else b
  }

  /** The hover card's rich data. */
  datatype PopupData = PopupData(description: string, questions: seq<string>)

  /** Instructions handed to the generator for this node. */
  datatype LlmConfig = LlmConfig(definition: Option<string>, exclude: Option<string>)

  /**
    A topic card. Every optional field of the store's `Node` record is an Option;
    `childrenIds` is absent on the nodes `getRootNodes` builds for row 0.
  */
  datatype Node = Node(
    id: NodeId,
    title: string,
    hook: string,
    childrenIds: Option<seq<NodeId>>,
    isStatic: Option<bool>,
    llmConfig: Option<LlmConfig>,
    popupData: Option<PopupData>)

  type NodeMap = map<NodeId, Node>

  /** Every node is stored under its own id. */
  predicate KeysMatchIds(m: NodeMap) {
    forall k :: k in m ==> m[k].id == k
  }

  /**
    A root of the seed taxonomy. `description` and `questions` are the loose
    fields the store falls back on when `popupData` is missing.
  */
  datatype TaxonomyRoot = TaxonomyRoot(
    id: NodeId,
    title: string,
    hook: string,
    children: Option<seq<Node>>,
    isStatic: Option<bool>,
    llmConfig: Option<LlmConfig>,
    popupData: Option<PopupData>,
    description: Option<string>,
    questions: Option<seq<string>>)

  /** One entry of the generator's `children` array. */
  datatype ChildRecord = ChildRecord(
    title: string,
    hook: string,
    llmConfig: Option<LlmConfig>,
    popupData: Option<PopupData>)

  datatype Role = User | Model

  datatype ChatMessage = ChatMessage(role: Role, content: string)
}
