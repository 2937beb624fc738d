/**
  The node-map logic of the graph store as functions on values: resolving a
  node's children, the new active path after a click, the request payload,
  and installing a successful generation's children.
*/
module GraphOps {
  import opened Wrappers
  import opened GraphTypes
  import opened Decimal

  /** Looks every id up in the map, in order, dropping the ones that are not there. */
  function Resolve(m: NodeMap, ids: seq<NodeId>): (nodes: seq<Node>)
    ensures |nodes| <= |ids|
    ensures forall n :: n in nodes ==> exists i :: 0 <= i < |ids| && ids[i] in m && m[ids[i]] == n
    ensures forall i :: 0 <= i < |ids| && ids[i] in m ==> m[ids[i]] in nodes
  {
    if ids == [] then []
    else
      var rest := Resolve(m, ids[1..]);
      assert forall n :: n in rest ==> exists i :: 1 <= i < |ids| && ids[i] in m && m[ids[i]] == n by {
        forall n | n in rest
          ensures exists i :: 1 <= i < |ids| && ids[i] in m && m[ids[i]] == n
        {
          var i :| 0 <= i < |ids[1..]| && ids[1..][i] in m && m[ids[1..][i]] == n;
          assert ids[i + 1] == ids[1..][i];
        }
      }
      assert forall i :: 1 <= i < |ids| && ids[i] in m ==> m[ids[i]] in rest by {
        forall i | 1 <= i < |ids| && ids[i] in m
          ensures m[ids[i]] in rest
        {
          assert ids[1..][i - 1] == ids[i];
        }
      }
      (if ids[0] in m then [m[ids[0]]] else []) + rest
  }

  /**
    `getNodeChildren`: nothing for a missing node or one without a child
    list, otherwise its children resolved in `childrenIds` order.
  */
  function NodeChildren(m: NodeMap, id: NodeId): (nodes: seq<Node>)
    ensures id !in m || m[id].childrenIds.None? ==> nodes == []
    ensures id in m && m[id].childrenIds.Some? ==> |nodes| <= |m[id].childrenIds.value|
    ensures forall n :: n in nodes ==>
      id in m && m[id].childrenIds.Some? &&
      exists c :: c in m[id].childrenIds.value && c in m && m[c] == n
  {
    if id !in m || m[id].childrenIds.None? then [] else Resolve(m, m[id].childrenIds.value)
  }

  /** Resolution keeps the order of the ids: resolving a concatenation concatenates. */
  lemma {:induction false} ResolveAppend(m: NodeMap, a: seq<NodeId>, b: seq<NodeId>)
    ensures Resolve(m, a + b) == Resolve(m, a) + Resolve(m, b)
    decreases |a|
  {
    if a == [] {
      assert a + b == b;
    } else {
      assert (a + b)[0] == a[0] && (a + b)[1..] == a[1..] + b;
      ResolveAppend(m, a[1..], b);
    }
  }

  /** When no id dangles, resolution is position by position. */
  lemma {:induction false} ResolveAllPresent(m: NodeMap, ids: seq<NodeId>)
    requires forall i :: 0 <= i < |ids| ==> ids[i] in m
    ensures |Resolve(m, ids)| == |ids|
    ensures forall i :: 0 <= i < |ids| ==> Resolve(m, ids)[i] == m[ids[i]]
    decreases |ids|
  {
    if ids != [] {
      ResolveAllPresent(m, ids[1..]);
    }
  }

  /** `selectNode`'s path: the first `depth` entries (all of them if fewer), then the clicked id. */
  function SelectedPath(path: seq<NodeId>, id: NodeId, depth: nat): seq<NodeId> {
    path[..Min(depth, |path|)] + [id]
  }

  /** The new path keeps the old prefix up to `depth` and ends in the clicked id. */
  lemma SelectedPathShape(path: seq<NodeId>, id: NodeId, depth: nat)
    ensures |SelectedPath(path, id, depth)| == Min(depth, |path|) + 1
    ensures SelectedPath(path, id, depth)[|SelectedPath(path, id, depth)| - 1] == id
    ensures forall k :: 0 <= k < Min(depth, |path|) ==> SelectedPath(path, id, depth)[k] == path[k]
    ensures depth <= |path| ==> SelectedPath(path, id, depth)[depth] == id
  {
  }

  /**
    `selectNode` asks for generation exactly when the node is in the map and
    has no child list or an empty one.
  */
  predicate NeedsGeneration(m: NodeMap, id: NodeId) {
    id in m && !(m[id].childrenIds.Some? && |m[id].childrenIds.value| > 0)
  }

  /** The request's `pathHistory`: the title of each path entry, or nothing for a dangling one. */
  function PathTitles(m: NodeMap, path: seq<NodeId>): (titles: seq<Option<string>>)
    ensures |titles| == |path|
    ensures forall i :: 0 <= i < |path| ==>
      (titles[i].Some? <==> path[i] in m) && (path[i] in m ==> titles[i].value == m[path[i]].title)
  {
    seq(|path|, i requires 0 <= i < |path| => if path[i] in m then Some(m[path[i]].title) else None)
  }

  /** The id of the `i`-th generated child of `parent`: the parent's id, an underscore, `i` in decimal. */
  function ChildId(parent: NodeId, i: nat): (id: NodeId)
    ensures |id| > |parent| + 1 && id[..|parent|] == parent && id[|parent|] == '_'
  {
    parent + "_" + NatToString(i)
  }

  /** Siblings get distinct ids. */
  lemma ChildIdInjective(parent: NodeId, i: nat, j: nat)
    requires ChildId(parent, i) == ChildId(parent, j)
    ensures i == j
  {
    assert ChildId(parent, i)[|parent| + 1..] == NatToString(i);
    assert ChildId(parent, j)[|parent| + 1..] == NatToString(j);
    NatToStringInjective(i, j);
  }

  /** What follows the parent id and the underscore is exactly `i` in decimal digits. */
  lemma ChildIdSuffix(parent: NodeId, i: nat)
    ensures AllDigits(ChildId(parent, i)[|parent| + 1..])
    ensures ParseDecimal(ChildId(parent, i)[|parent| + 1..]) == i
  {
    assert ChildId(parent, i)[|parent| + 1..] == NatToString(i);
    ParseNatToString(i);
  }

  /** The ids of the first `n` generated children, in response order. */
  function ChildIds(parent: NodeId, n: nat): (ids: seq<NodeId>)
    ensures |ids| == n && forall i :: 0 <= i < n ==> ids[i] == ChildId(parent, i)
  {
    if n == 0 then [] else ChildIds(parent, n - 1) + [ChildId(parent, n - 1)]
  }

  /** The node a generated child record becomes: a non-static leaf with an empty child list. */
  function GeneratedNode(parent: NodeId, i: nat, child: ChildRecord): Node {
    Node(ChildId(parent, i), child.title, child.hook, Some([]), Some(false), child.llmConfig, child.popupData)
  }

  /** The generated nodes keyed by their ids, in the order the records are visited. */
  function NewNodes(parent: NodeId, children: seq<ChildRecord>): NodeMap
    decreases |children|
  {
    if children == [] then map[]
    else
      var n := |children| - 1;
      NewNodes(parent, children[..n])[ChildId(parent, n) := GeneratedNode(parent, n, children[n])]
  }

  predicate IsChildIdOf(parent: NodeId, n: nat, k: NodeId) {
    exists i :: 0 <= i < n && k == ChildId(parent, i)
  }

  /** Record `i` becomes the node stored under `parent_i`. */
  lemma {:induction false} NewNodesAt(parent: NodeId, children: seq<ChildRecord>, i: nat)
    requires i < |children|
    ensures ChildId(parent, i) in NewNodes(parent, children)
    ensures NewNodes(parent, children)[ChildId(parent, i)] == GeneratedNode(parent, i, children[i])
    decreases |children|
  {
    var n := |children| - 1;
    if i < n {
      NewNodesAt(parent, children[..n], i);
      if ChildId(parent, i) == ChildId(parent, n) {
        ChildIdInjective(parent, i, n);
      }
    }
  }

  /** Only `parent_0 … parent_{n-1}` are created. */
  lemma {:induction false} NewNodesOnly(parent: NodeId, children: seq<ChildRecord>)
    ensures forall k :: k in NewNodes(parent, children) ==> IsChildIdOf(parent, |children|, k)
    decreases |children|
  {
    if children != [] {
      var n := |children| - 1;
      NewNodesOnly(parent, children[..n]);
      forall k | k in NewNodes(parent, children)
        ensures IsChildIdOf(parent, |children|, k)
      {
        if k != ChildId(parent, n) {
          assert k in NewNodes(parent, children[..n]);
          assert IsChildIdOf(parent, n, k);
          var i :| 0 <= i < n && k == ChildId(parent, i);
        }
      }
    }
  }

  /** Every record becomes one node under its own id; nothing else is created. */
  lemma NewNodesContents(parent: NodeId, children: seq<ChildRecord>)
    ensures forall i :: 0 <= i < |children| ==>
      ChildId(parent, i) in NewNodes(parent, children) &&
      NewNodes(parent, children)[ChildId(parent, i)] == GeneratedNode(parent, i, children[i])
    ensures forall k :: k in NewNodes(parent, children) ==> IsChildIdOf(parent, |children|, k)
  {
    forall i | 0 <= i < |children|
      ensures ChildId(parent, i) in NewNodes(parent, children) &&
              NewNodes(parent, children)[ChildId(parent, i)] == GeneratedNode(parent, i, children[i])
    {
      NewNodesAt(parent, children, i);
    }
    NewNodesOnly(parent, children);
  }

  /**
    The node map after a successful generation: the generated nodes are
    written over the old map and the parent's child list is replaced.
  */
  function InstallChildren(m: NodeMap, parent: NodeId, children: seq<ChildRecord>): NodeMap
    requires parent in m
  {
    (m + NewNodes(parent, children))[parent := m[parent].(childrenIds := Some(ChildIds(parent, |children|)))]
  }

  /**
    After a successful generation the parent's `childrenIds` are exactly the
    generated ids in response order (old children are replaced, not kept),
    each generated id holds its new leaf, and every other entry is as before.
  */
  lemma InstallChildrenEffect(m: NodeMap, parent: NodeId, children: seq<ChildRecord>)
    requires parent in m
    ensures parent in InstallChildren(m, parent, children)
    ensures InstallChildren(m, parent, children)[parent] ==
      m[parent].(childrenIds := Some(ChildIds(parent, |children|)))
    ensures forall i :: 0 <= i < |children| ==>
      ChildId(parent, i) in InstallChildren(m, parent, children) &&
      InstallChildren(m, parent, children)[ChildId(parent, i)] == GeneratedNode(parent, i, children[i])
    ensures forall k :: k in m && k != parent && !IsChildIdOf(parent, |children|, k) ==>
      k in InstallChildren(m, parent, children) && InstallChildren(m, parent, children)[k] == m[k]
    ensures forall k :: k in InstallChildren(m, parent, children) ==>
      k in m || IsChildIdOf(parent, |children|, k)
  {
    NewNodesContents(parent, children);
    forall i | 0 <= i < |children|
      ensures ChildId(parent, i) != parent
    {
    }
  }

  /** Installing children keeps every node stored under its own id. */
  lemma InstallKeepsKeysMatchIds(m: NodeMap, parent: NodeId, children: seq<ChildRecord>)
    requires parent in m && KeysMatchIds(m)
    ensures KeysMatchIds(InstallChildren(m, parent, children))
  {
    InstallChildrenEffect(m, parent, children);
    var r := InstallChildren(m, parent, children);
    forall k | k in r
      ensures r[k].id == k
    {
      if k != parent && IsChildIdOf(parent, |children|, k) {
        var i :| 0 <= i < |children| && k == ChildId(parent, i);
      }
    }
  }

  /**
    Right after installation, `getNodeChildren(parent)` yields the generated
    nodes, one per record, in response order.
  */
  lemma InstalledChildrenResolve(m: NodeMap, parent: NodeId, children: seq<ChildRecord>)
    requires parent in m
    ensures |NodeChildren(InstallChildren(m, parent, children), parent)| == |children|
    ensures forall i :: 0 <= i < |children| ==>
      NodeChildren(InstallChildren(m, parent, children), parent)[i] == GeneratedNode(parent, i, children[i])
  {
    var r := InstallChildren(m, parent, children);
    InstallChildrenEffect(m, parent, children);
    ResolveAllPresent(r, ChildIds(parent, |children|));
  }
}
