/**
  The graph/chat store: one object whose actions update its fields. Each
  asynchronous action is split at its network call into a begin step (what
  happens before the request is sent) and a complete step (what happens
  when it settles); the settled outcome is a parameter.
*/
module Store {
  import opened Wrappers
  import opened GraphTypes
  import opened Seed
  import opened GraphOps
  import opened ChatLog

  /** How a generation request settled: the response's child records, or any failure. */
  datatype GenerationOutcome = Generated(children: seq<ChildRecord>) | GenerationFailed

  /** A generation that has been started: its parent, the request's path titles, and whether it is silent. */
  datatype PendingGeneration = PendingGeneration(parent: Node, pathHistory: seq<Option<string>>, silent: bool)

  class GraphStore {
    // graph state
    var nodeMap: NodeMap
    var activePath: seq<NodeId>
    var isLoading: bool
    var fetchingIds: set<NodeId>
    // chat state
    var isChatOpen: bool
    var isChatLoading: bool
    var chatHistory: seq<ChatMessage>
    var activeNodeTitle: Option<string>

    /** Nodes are stored under their own ids, and only stored nodes are being generated for. */
    ghost predicate Valid()
      reads this
    {
      KeysMatchIds(nodeMap) && fetchingIds <= nodeMap.Keys
    }

    function GraphState(): (NodeMap, seq<NodeId>, bool, set<NodeId>)
      reads this
    {
      (nodeMap, activePath, isLoading, fetchingIds)
    }

    function ChatState(): (bool, bool, seq<ChatMessage>, Option<string>)
      reads this
    {
      (isChatOpen, isChatLoading, chatHistory, activeNodeTitle)
    }

    /** The initial state: the seeded node map, an empty path, and the filler conversation. */
    constructor (roots: seq<TaxonomyRoot>)
      ensures Valid()
      ensures nodeMap == SeedMap(roots) && activePath == [] && !isLoading && fetchingIds == {}
      ensures !isChatOpen && !isChatLoading
      ensures chatHistory == InitialHistory && activeNodeTitle == Some(InitialNodeTitle)
    {
      var m := InitializeNodes(roots);
      nodeMap := m;
      activePath := [];
      isLoading := false;
      fetchingIds := {};
      isChatOpen := false;
      isChatLoading := false;
      activeNodeTitle := Some(InitialNodeTitle);
      chatHistory := InitialHistory;
      SeedMapKeysMatchIds(roots);
    }

    /**
      `selectNode`: cut the path to `depth` and append the node; then, if the
      node is stored and has no children yet, begin generating them
      (not silently).
    */
    method SelectNode(nodeId: NodeId, depth: nat) returns (pending: Option<PendingGeneration>)
      requires Valid()
      modifies this
      ensures Valid()
      ensures activePath == SelectedPath(old(activePath), nodeId, depth)
      ensures nodeMap == old(nodeMap) && ChatState() == old(ChatState())
      ensures pending.Some? <==> NeedsGeneration(old(nodeMap), nodeId) && nodeId !in old(fetchingIds)
      ensures pending.Some? ==>
        pending.value == PendingGeneration(nodeMap[nodeId], PathTitles(nodeMap, activePath), false) &&
        fetchingIds == old(fetchingIds) + {nodeId} && isLoading
      ensures pending.None? ==> fetchingIds == old(fetchingIds) && isLoading == old(isLoading)
    {
      var newPath := activePath[..Min(depth, |activePath|)];
      newPath := newPath + [nodeId];
      activePath := newPath;

      pending := None;
      if nodeId !in nodeMap {
        return;
      }
      var node := nodeMap[nodeId];
      if node.childrenIds.Some? && |node.childrenIds.value| > 0 {
        return;
      }
      pending := BeginGeneration(node, false);
    }

    /**
      `generateChildren` up to its request: nothing at all if the parent is
      already in flight; otherwise raise the loading flag (unless silent),
      mark the parent in flight and build the request.
    */
    method BeginGeneration(parent: Node, silent: bool) returns (pending: Option<PendingGeneration>)
      requires Valid() && parent.id in nodeMap
      modifies this
      ensures Valid()
      ensures nodeMap == old(nodeMap) && activePath == old(activePath) && ChatState() == old(ChatState())
      ensures pending.None? <==> parent.id in old(fetchingIds)
      ensures pending.None? ==> fetchingIds == old(fetchingIds) && isLoading == old(isLoading)
      ensures pending.Some? ==>
        pending.value == PendingGeneration(parent, PathTitles(nodeMap, activePath), silent) &&
        fetchingIds == old(fetchingIds) + {parent.id} &&
        isLoading == (!silent || old(isLoading))
    {
      if parent.id in fetchingIds {
        return None;
      }
      if !silent {
        isLoading := true;
      }
      fetchingIds := fetchingIds + {parent.id};
      pending := Some(PendingGeneration(parent, PathTitles(nodeMap, activePath), silent));
    }

    /**
      `generateChildren` after its request settles. On success the new
      children are installed under ids `parent_i` and the loading flag drops;
      on failure the map is untouched and the flag drops unless silent. Either
      way the parent, and only the parent, leaves the in-flight set.
    */
    method CompleteGeneration(pending: PendingGeneration, outcome: GenerationOutcome)
      requires Valid() && pending.parent.id in fetchingIds
      modifies this
      ensures Valid()
      ensures fetchingIds == old(fetchingIds) - {pending.parent.id}
      ensures activePath == old(activePath) && ChatState() == old(ChatState())
      ensures outcome.Generated? ==>
        nodeMap == InstallChildren(old(nodeMap), pending.parent.id, outcome.children) && !isLoading
      ensures outcome.GenerationFailed? ==>
        nodeMap == old(nodeMap) && isLoading == (old(isLoading) && pending.silent)
    {
      var parentId := pending.parent.id;
      match outcome {
        case Generated(children) =>
          var newNodesMap: NodeMap := map[];
          var parentChildrenIds: seq<NodeId> := [];
          var i := 0;
          while i < |children|
            invariant 0 <= i <= |children|
            invariant newNodesMap == NewNodes(parentId, children[..i])
            invariant parentChildrenIds == ChildIds(parentId, i)
          {
            var child := children[i];
            var childId := ChildId(parentId, i);
            newNodesMap := newNodesMap[childId := Node(childId, child.title, child.hook, Some([]), Some(false),
                                                       child.llmConfig, child.popupData)];
            parentChildrenIds := parentChildrenIds + [childId];
            assert children[..i + 1][..i] == children[..i];
            i := i + 1;
          }
          assert children[..i] == children;
          InstallKeepsKeysMatchIds(nodeMap, parentId, children);
          nodeMap := (nodeMap + newNodesMap)[parentId := nodeMap[parentId].(childrenIds := Some(parentChildrenIds))];
          isLoading := false;
        case GenerationFailed =>
          if !pending.silent {
            isLoading := false;
          }
      }
      fetchingIds := fetchingIds - {parentId};
    }

    /** `toggleChat`: flip the chat panel. */
    method ToggleChat()
      modifies this
      ensures isChatOpen == !old(isChatOpen)
      ensures GraphState() == old(GraphState())
      ensures isChatLoading == old(isChatLoading) && chatHistory == old(chatHistory)
      ensures activeNodeTitle == old(activeNodeTitle)
    {
      isChatOpen := !isChatOpen;
    }

    /** `resetChat`: a fresh log holding only the greeting, and no active node title. */
    method ResetChat()
      modifies this
      ensures chatHistory == [ChatMessage(Model, ResetGreeting)] && activeNodeTitle == None
      ensures isChatOpen == old(isChatOpen) && isChatLoading == old(isChatLoading)
      ensures GraphState() == old(GraphState())
    {
      chatHistory := [ChatMessage(Model, ResetGreeting)];
      activeNodeTitle := None;
    }

    /** `addMessage`: append one message; earlier messages stay as they were. */
    method AddMessage(role: Role, content: string)
      modifies this
      ensures chatHistory == old(chatHistory) + [ChatMessage(role, content)]
      ensures isChatOpen == old(isChatOpen) && isChatLoading == old(isChatLoading)
      ensures activeNodeTitle == old(activeNodeTitle)
      ensures GraphState() == old(GraphState())
    {
      chatHistory := chatHistory + [ChatMessage(role, content)];
    }

    /**
      `triggerChat` up to its request: open the panel, raise the chat loading
      flag, remember the node title and append the user prompt. The request
      carries the history as it was before the prompt was appended.
    */
    method BeginChat(nodeTitle: string, contextTitle: string, specificQuestion: Option<string>)
      returns (request: ChatRequest)
      modifies this
      ensures isChatOpen && isChatLoading && activeNodeTitle == Some(nodeTitle)
      ensures chatHistory == old(chatHistory) + [ChatMessage(User, Prompt(nodeTitle, contextTitle, specificQuestion))]
      ensures request == ChatRequest(Prompt(nodeTitle, contextTitle, specificQuestion), old(chatHistory))
      ensures GraphState() == old(GraphState())
    {
      var history := chatHistory;
      isChatOpen := true;
      isChatLoading := true;
      activeNodeTitle := Some(nodeTitle);
      var prompt := Prompt(nodeTitle, contextTitle, specificQuestion);
      AddMessage(User, prompt);
      request := ChatRequest(prompt, history);
    }

    /**
      `triggerChat` after its request settles: append exactly one model
      message (the response, or the apology) and drop the chat loading flag.
    */
    method CompleteChat(outcome: ChatOutcome)
      modifies this
      ensures chatHistory == old(chatHistory) + [ReplyMessage(outcome)]
      ensures !isChatLoading
      ensures isChatOpen == old(isChatOpen) && activeNodeTitle == old(activeNodeTitle)
      ensures GraphState() == old(GraphState())
    {
      match outcome {
        case Answered(response) =>
          AddMessage(Model, response);
        case ChatFailed =>
          AddMessage(Model, ApologyText);
      }
      isChatLoading := false;
    }

    /**
      `triggerChat` when nothing else runs in between: the log grows by the
      user prompt followed by one model reply, and the panel is left open
      and idle.
    */
    method TriggerChat(nodeTitle: string, contextTitle: string, specificQuestion: Option<string>,
                       outcome: ChatOutcome) returns (request: ChatRequest)
      modifies this
      ensures chatHistory ==
        old(chatHistory) + [ChatMessage(User, Prompt(nodeTitle, contextTitle, specificQuestion)), ReplyMessage(outcome)]
      ensures request == ChatRequest(Prompt(nodeTitle, contextTitle, specificQuestion), old(chatHistory))
      ensures isChatOpen && !isChatLoading && activeNodeTitle == Some(nodeTitle)
      ensures GraphState() == old(GraphState())
    {
      request := BeginChat(nodeTitle, contextTitle, specificQuestion);
      CompleteChat(outcome);
    }
  }

  /** Toggling the chat panel twice restores it and changes nothing else. */
  method ToggleChatTwice(store: GraphStore)
    modifies store
    ensures store.isChatOpen == old(store.isChatOpen)
    ensures store.ChatState() == old(store.ChatState()) && store.GraphState() == old(store.GraphState())
  {
    store.ToggleChat();
    store.ToggleChat();
  }

  /**
    Two generations begun for the same parent before either settles: the
    second sends no request, so at most one is in flight per parent.
  */
  method BeginGenerationTwice(store: GraphStore, parent: Node)
    returns (first: Option<PendingGeneration>, second: Option<PendingGeneration>)
    requires store.Valid() && parent.id in store.nodeMap
    modifies store
    ensures store.Valid()
    ensures second.None?
    ensures first.Some? <==> parent.id !in old(store.fetchingIds)
    ensures store.fetchingIds == old(store.fetchingIds) + {parent.id}
    ensures store.nodeMap == old(store.nodeMap) && store.ChatState() == old(store.ChatState())
    ensures store.activePath == old(store.activePath) && store.isLoading == (first.Some? || old(store.isLoading))
  {
    first := store.BeginGeneration(parent, false);
    second := store.BeginGeneration(parent, false);
  }
}
