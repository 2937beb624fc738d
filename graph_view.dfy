/**
  The graph view: the rows of cards it derives from the store, the flags
  each card is drawn with, and what clicking a card does.
*/
module GraphView {
  import opened Wrappers
  import opened GraphTypes
  import opened Seed
  import opened GraphOps
  import opened Store

  /** One row per path entry whose children resolve to at least one node, in path order. */
  function ChildRows(m: NodeMap, path: seq<NodeId>): (rows: seq<seq<Node>>)
    ensures |rows| <= |path|
    ensures forall i :: 0 <= i < |rows| ==> |rows[i]| > 0
    decreases |path|
  {
    if path == [] then []
    else
      var rows := ChildRows(m, path[..|path| - 1]);
      var children := NodeChildren(m, path[|path| - 1]);
      if |children| > 0 then rows + [children] else rows
  }

  /**
    The row-building effect: row 0 is the root cards, then, for each id on
    the active path, that node's children unless there are none.
  */
  method BuildRows(roots: seq<TaxonomyRoot>, m: NodeMap, activePath: seq<NodeId>) returns (rows: seq<seq<Node>>)
    ensures 1 <= |rows| <= 1 + |activePath|
    ensures rows[0] == RootNodes(roots)
    ensures rows[1..] == ChildRows(m, activePath)
    ensures forall i :: 1 <= i < |rows| ==> |rows[i]| > 0
  {
    var newRows := [RootNodes(roots)];
    var k := 0;
    while k < |activePath|
      invariant 0 <= k <= |activePath|
      invariant newRows == [RootNodes(roots)] + ChildRows(m, activePath[..k])
    {
      var children := NodeChildren(m, activePath[k]);
      if |children| > 0 {
        newRows := newRows + [children];
      }
      assert activePath[..k + 1][..k] == activePath[..k];
      k := k + 1;
    }
    assert activePath[..k] == activePath;
    rows := newRows;
  }

  /** A single path entry contributes its children as one row, or nothing when it has none. */
  lemma ChildRowsSingle(m: NodeMap, id: NodeId)
    ensures ChildRows(m, [id]) == if |NodeChildren(m, id)| > 0 then [NodeChildren(m, id)] else []
  {
    assert [id][..0] == [];
  }

  /**
    Rows keep path order: the rows of a concatenated path are the rows of
    its first part followed by the rows of its second, so with
    ChildRowsSingle the rows are, in order, the children of exactly the
    path entries that have any.
  */
  lemma {:induction false} ChildRowsAppend(m: NodeMap, a: seq<NodeId>, b: seq<NodeId>)
    ensures ChildRows(m, a + b) == ChildRows(m, a) + ChildRows(m, b)
    decreases |b|
  {
    if b == [] {
      assert a + b == a;
    } else {
      var b' := b[..|b| - 1];
      assert (a + b)[..|a + b| - 1] == a + b';
      assert (a + b)[|a + b| - 1] == b[|b| - 1];
      ChildRowsAppend(m, a, b');
    }
  }

  /**
    When no path entry has an empty child row, nothing is skipped: row
    `k + 1` holds exactly the children of `activePath[k]`, so a card's row
    index is the path position its click writes.
  */
  lemma {:induction false} ChildRowsAligned(m: NodeMap, path: seq<NodeId>)
    requires forall k :: 0 <= k < |path| ==> |NodeChildren(m, path[k])| > 0
    ensures |ChildRows(m, path)| == |path|
    ensures forall k :: 0 <= k < |path| ==> ChildRows(m, path)[k] == NodeChildren(m, path[k])
    decreases |path|
  {
    if path != [] {
      var prefix := path[..|path| - 1];
      assert forall k :: 0 <= k < |prefix| ==> prefix[k] == path[k];
      ChildRowsAligned(m, prefix);
    }
  }

  /** A card in row `depth` is active when the path's entry at `depth` is that card. */
  predicate IsActive(activePath: seq<NodeId>, depth: nat, id: NodeId) {
    depth < |activePath| && activePath[depth] == id
  }

  /** A card's row has a selection when the path has an entry at `depth`. */
  predicate IsSiblingActive(activePath: seq<NodeId>, depth: nat) {
    depth < |activePath|
  }

  /**
    After clicking card `id` in row `depth`, that card is the one active card
    of its row, the rows above keep their active cards, and the rows below
    no longer have a selection.
  */
  lemma ClickFlags(path: seq<NodeId>, id: NodeId, depth: nat)
    requires depth <= |path|
    ensures IsActive(SelectedPath(path, id, depth), depth, id)
    ensures forall other :: other != id ==> !IsActive(SelectedPath(path, id, depth), depth, other)
    ensures forall d: nat, x :: d < depth ==> (IsActive(SelectedPath(path, id, depth), d, x) <==> IsActive(path, d, x))
    ensures IsSiblingActive(SelectedPath(path, id, depth), depth)
    ensures !IsSiblingActive(SelectedPath(path, id, depth), depth + 1)
  {
  }

  /** A card's `onClick`: select the card's node at the card's row index. */
  method ClickCard(store: GraphStore, card: Node, depth: nat) returns (pending: Option<PendingGeneration>)
    requires store.Valid()
    modifies store
    ensures store.Valid()
    ensures store.activePath == SelectedPath(old(store.activePath), card.id, depth)
    ensures depth <= |old(store.activePath)| ==> IsActive(store.activePath, depth, card.id)
    ensures pending.Some? <==> NeedsGeneration(old(store.nodeMap), card.id) && card.id !in old(store.fetchingIds)
    ensures store.nodeMap == old(store.nodeMap) && store.ChatState() == old(store.ChatState())
    ensures pending.Some? ==> store.fetchingIds == old(store.fetchingIds) + {card.id} && store.isLoading
    ensures pending.None? ==> store.fetchingIds == old(store.fetchingIds) && store.isLoading == old(store.isLoading)
  {
    pending := store.SelectNode(card.id, depth);
    if depth <= |old(store.activePath)| {
      ClickFlags(old(store.activePath), card.id, depth);
    }
  }
}
