/**
  The seed taxonomy: the node map the store starts from (`initializeNodes`)
  and the root cards of row 0 (`getRootNodes`). The taxonomy file itself is
  an input sequence of roots.
*/
module Seed {
  import opened Wrappers
  import opened GraphTypes

  /** The ids of `children`, in order. */
  function ChildIdsOf(children: seq<Node>): seq<NodeId>
    decreases |children|
  {
    if children == [] then [] else ChildIdsOf(children[..|children| - 1]) + [children[|children| - 1].id]
  }

  /** The same ids as a set. */
  function ChildIdSet(children: seq<Node>): set<NodeId> {
    set i | 0 <= i < |children| :: children[i].id
  }

  /** A root without a `children` array contributes no children. */
  function SeedChildren(root: TaxonomyRoot): seq<Node> {
    if root.children.Some? then root.children.value else []
  }

  /** A seed child enters the map with an empty child list. */
  function SeedChild(child: Node): Node {
    child.(childrenIds := Some([]))
  }

  /**
    The root's popup data, or one built from its loose description (an
    empty string falls back to the hook) and questions.
  */
  function RootPopup(root: TaxonomyRoot): PopupData {
    if root.popupData.Some? then root.popupData.value
    else PopupData(
      if root.description.Some? && root.description.value != "" then root.description.value else root.hook,
      if root.questions.Some? then root.questions.value else [])
  }

  /** The map entry of a root: its seed children's ids and its popup data. */
  function NormalizeRoot(root: TaxonomyRoot): Node {
    Node(root.id, root.title, root.hook, Some(ChildIdsOf(SeedChildren(root))),
         root.isStatic, root.llmConfig, Some(RootPopup(root)))
  }

  /** Writes the children into the map one after the other; a later write of the same id wins. */
  function AddChildren(m: NodeMap, children: seq<Node>): NodeMap
    decreases |children|
  {
    if children == [] then m
    else
      var last := children[|children| - 1];
      AddChildren(m, children[..|children| - 1])[last.id := SeedChild(last)]
  }

  /** One root's turn: its children first, then the root itself. */
  function AddRoot(m: NodeMap, root: TaxonomyRoot): NodeMap {
    AddChildren(m, SeedChildren(root))[root.id := NormalizeRoot(root)]
  }

  /** The initial node map, roots taken in taxonomy order. */
  function SeedMap(roots: seq<TaxonomyRoot>): NodeMap
    decreases |roots|
  {
    if roots == [] then map[] else AddRoot(SeedMap(roots[..|roots| - 1]), roots[|roots| - 1])
  }

  /** Every id the seed mentions: the roots' and their children's. */
  function SeedIds(roots: seq<TaxonomyRoot>): set<NodeId>
    decreases |roots|
  {
    if roots == [] then {}
    else
      var last := roots[|roots| - 1];
      SeedIds(roots[..|roots| - 1]) + ChildIdSet(SeedChildren(last)) + {last.id}
  }

  /**
    `initializeNodes`: for each root, store every seed child with an empty
    child list while collecting the ids, then store the normalised root.
  */
  method InitializeNodes(roots: seq<TaxonomyRoot>) returns (m: NodeMap)
    ensures m == SeedMap(roots)
  {
    m := map[];
    var i := 0;
    while i < |roots|
      invariant 0 <= i <= |roots|
      invariant m == SeedMap(roots[..i])
    {
      var root := roots[i];
      var rootChildrenIds: seq<NodeId> := [];
      ghost var before := m;
      if root.children.Some? {
        var children := root.children.value;
        var j := 0;
        while j < |children|
          invariant 0 <= j <= |children|
          invariant m == AddChildren(before, children[..j])
          invariant rootChildrenIds == ChildIdsOf(children[..j])
        {
          var child := children[j];
          m := m[child.id := SeedChild(child)];
          rootChildrenIds := rootChildrenIds + [child.id];
          assert children[..j + 1][..j] == children[..j];
          j := j + 1;
        }
        assert children[..j] == children;
      }
      m := m[root.id := Node(root.id, root.title, root.hook, Some(rootChildrenIds),
                             root.isStatic, root.llmConfig, Some(RootPopup(root)))];
      assert roots[..i + 1][..i] == roots[..i];
      i := i + 1;
    }
    assert roots[..i] == roots;
  }

  lemma {:induction false} AddChildrenKeys(m: NodeMap, children: seq<Node>)
    ensures AddChildren(m, children).Keys == m.Keys + ChildIdSet(children)
    decreases |children|
  {
    if children != [] {
      AddChildrenKeys(m, children[..|children| - 1]);
    }
  }

  /** An id none of the children carries keeps its entry. */
  lemma {:induction false} AddChildrenElsewhere(m: NodeMap, children: seq<Node>, k: NodeId)
    requires k !in ChildIdSet(children)
    ensures k in AddChildren(m, children) <==> k in m
    ensures k in m ==> AddChildren(m, children)[k] == m[k]
    decreases |children|
  {
    if children != [] {
      AddChildrenElsewhere(m, children[..|children| - 1], k);
    }
  }

  lemma {:induction false} AddChildrenKeysMatchIds(m: NodeMap, children: seq<Node>)
    requires KeysMatchIds(m)
    ensures KeysMatchIds(AddChildren(m, children))
    decreases |children|
  {
    if children != [] {
      AddChildrenKeysMatchIds(m, children[..|children| - 1]);
    }
  }

  /** The initial map holds exactly the roots and their seed children. */
  lemma {:induction false} SeedMapKeys(roots: seq<TaxonomyRoot>)
    ensures SeedMap(roots).Keys == SeedIds(roots)
    decreases |roots|
  {
    if roots != [] {
      var last := roots[|roots| - 1];
      SeedMapKeys(roots[..|roots| - 1]);
      AddChildrenKeys(SeedMap(roots[..|roots| - 1]), SeedChildren(last));
    }
  }

  /** In the initial map every node is stored under its own id. */
  lemma {:induction false} SeedMapKeysMatchIds(roots: seq<TaxonomyRoot>)
    ensures KeysMatchIds(SeedMap(roots))
    decreases |roots|
  {
    if roots != [] {
      SeedMapKeysMatchIds(roots[..|roots| - 1]);
      AddChildrenKeysMatchIds(SeedMap(roots[..|roots| - 1]), SeedChildren(roots[|roots| - 1]));
    }
  }

  /** No later root, nor any later root's seed child, reuses the id of root `i`. */
  predicate LastWriter(roots: seq<TaxonomyRoot>, i: nat)
    requires i < |roots|
  {
    forall j :: i < j < |roots| ==>
      roots[j].id != roots[i].id && roots[i].id !in ChildIdSet(SeedChildren(roots[j]))
  }

  /**
    A root whose id is not overwritten later is stored normalised: its
    `childrenIds` are the ids of its seed children in taxonomy order.
  */
  lemma {:induction false} SeedRootEntry(roots: seq<TaxonomyRoot>, i: nat)
    requires i < |roots| && LastWriter(roots, i)
    ensures roots[i].id in SeedMap(roots)
    ensures SeedMap(roots)[roots[i].id] == NormalizeRoot(roots[i])
    ensures SeedMap(roots)[roots[i].id].childrenIds == Some(ChildIdsOf(SeedChildren(roots[i])))
    decreases |roots|
  {
    var n := |roots|;
    if i < n - 1 {
      var prefix := roots[..n - 1];
      assert prefix[i] == roots[i];
      assert LastWriter(prefix, i) by {
        forall j | i < j < |prefix|
          ensures prefix[j].id != prefix[i].id && prefix[i].id !in ChildIdSet(SeedChildren(prefix[j]))
        {
          assert prefix[j] == roots[j];
        }
      }
      SeedRootEntry(prefix, i);
      AddChildrenElsewhere(SeedMap(prefix), SeedChildren(roots[n - 1]), roots[i].id);
    }
  }

  /**
    `getRootNodes`: the row-0 cards, static and without a child list or
    generator instructions, carrying each root's hook and popup data.
  */
  function RootNodes(roots: seq<TaxonomyRoot>): (cards: seq<Node>)
    ensures |cards| == |roots|
    ensures forall i :: 0 <= i < |roots| ==>
      cards[i].id == roots[i].id && cards[i].title == roots[i].title &&
      cards[i].isStatic == Some(true) && cards[i].childrenIds.None?
    ensures forall i :: 0 <= i < |roots| ==>
      cards[i].hook == roots[i].hook && cards[i].popupData == roots[i].popupData && cards[i].llmConfig.None?
  {
    seq(|roots|, i requires 0 <= i < |roots| =>
      Node(roots[i].id, roots[i].title, roots[i].hook, None, Some(true), None, roots[i].popupData))
  }

  /** Every root card names a node of the initial map, so clicking it finds a node. */
  lemma {:induction false} RootCardsAreSeeded(roots: seq<TaxonomyRoot>)
    ensures forall c :: c in RootNodes(roots) ==> c.id in SeedMap(roots)
    decreases |roots|
  {
    SeedMapKeys(roots);
    forall c | c in RootNodes(roots)
      ensures c.id in SeedIds(roots)
    {
      var i :| 0 <= i < |roots| && RootNodes(roots)[i] == c;
      RootIdInSeedIds(roots, i);
    }
  }

  lemma {:induction false} RootIdInSeedIds(roots: seq<TaxonomyRoot>, i: nat)
    requires i < |roots|
    ensures roots[i].id in SeedIds(roots)
    decreases |roots|
  {
    if i < |roots| - 1 {
      RootIdInSeedIds(roots[..|roots| - 1], i);
    }
  }
}
