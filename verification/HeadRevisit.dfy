/** Static head selection: the leaf counts and parent links one depth-first pass records,
    and the queue that walks small clusters up to an ancestor large enough to be a head. */
module HeadRevisit {
  import opened Common
  import opened ClusterTree

  datatype Info = Info(leafSize: int, parent: int)

  /** An internal node with its leaf count and the least distance to a leaf below it. */
  datatype Candidate = Candidate(node: int, size: int, depth: int)

  /** The depth recorded for a node that was not visited. */
  const NO_DEPTH: int := 0x7fff_ffff

  /** The static pass tests `childStart == -1`, so no other negative value may occur. */
  predicate MarkedLeaves(t: Tree) {
    forall i :: 0 <= i < |t| && t[i].childStart < 0 ==> t[i].childStart == -1
  }

  ghost function LeavesBelow(t: Tree, f: Forest): nat {
    match f
    case Nil => 0
    case Add(rest, id, kids) =>
      LeavesBelow(t, rest) + (if InTree(t, id) && t[id].childStart == -1 then 1 else LeavesBelow(t, kids))
  }

  /** Number of leaves in the subtree of `id`. */
  ghost function Leaves(t: Tree, id: int): nat
    requires WellFormed(t) && InTree(t, id)
  {
    if t[id].childStart == -1 then 1 else LeavesBelow(t, Children(t, id))
  }

  ghost function DepthBelow(t: Tree, f: Forest): int {
    match f
    case Nil => NO_DEPTH
    case Add(rest, id, kids) =>
      Min(DepthBelow(t, rest), if InTree(t, id) && t[id].childStart == -1 then 0 else DepthBelow(t, kids) + 1)
  }

  /** Least distance from `id` to a leaf below it. */
  ghost function Depth(t: Tree, id: int): int
    requires WellFormed(t) && InTree(t, id)
  {
    if t[id].childStart == -1 then 0 else DepthBelow(t, Children(t, id)) + 1
  }

  /** The internal nodes of a forest in the order the pass leaves them. */
  ghost function CandidatesOf(t: Tree, f: Forest): seq<Candidate> {
    match f
    case Nil => []
    case Add(rest, id, kids) =>
      CandidatesOf(t, rest)
      + if InTree(t, id) && t[id].childStart == -1 then []
        else CandidatesOf(t, kids) + [Candidate(id, LeavesBelow(t, kids), DepthBelow(t, kids) + 1)]
  }

  /** Those at or below `id`. */
  ghost function CandidatesAt(t: Tree, id: int): seq<Candidate>
    requires WellFormed(t) && InTree(t, id)
  {
    if t[id].childStart == -1 then []
    else CandidatesOf(t, Children(t, id)) + [Candidate(id, Leaves(t, id), Depth(t, id))]
  }

  lemma RecordsExtend(t: Tree, lo: int, i: int)
    requires WellFormed(t) && 0 <= lo <= i < |t|
    ensures DepthBelow(t, View(t, lo, i + 1)) == Min(DepthBelow(t, View(t, lo, i)), Depth(t, i))
    ensures CandidatesOf(t, View(t, lo, i + 1)) == CandidatesOf(t, View(t, lo, i)) + CandidatesAt(t, i)
    ensures DepthBelow(t, View(t, lo, lo)) == NO_DEPTH && CandidatesOf(t, View(t, lo, lo)) == []
  {
    var f := Add(View(t, lo, i), i, Children(t, i));
    assert View(t, lo, i + 1) == f;
  }

  lemma LeavesExtend(t: Tree, lo: int, i: int)
    requires WellFormed(t) && 0 <= lo <= i < |t|
    ensures LeavesBelow(t, View(t, lo, i + 1)) == LeavesBelow(t, View(t, lo, i)) + Leaves(t, i)
    ensures LeavesBelow(t, View(t, lo, lo)) == 0
    ensures Nodes(View(t, lo, i + 1)) == Nodes(View(t, lo, i)) + Subtree(t, i)
    ensures Nodes(View(t, lo, lo)) == []
  {
    SubtreeSplits(t, i);
    var f := Add(View(t, lo, i), i, Children(t, i));
    assert View(t, lo, i + 1) == f;
    assert Nodes(f) == Nodes(f.rest) + [i] + Nodes(f.kids);
    assert LeavesBelow(t, f) == LeavesBelow(t, f.rest) + (if t[i].childStart == -1 then 1 else LeavesBelow(t, f.kids));
  }

  /** A parent has at least as many leaves as each of its children. */
  lemma {:induction false} LeavesGrowUpward(t: Tree, lo: int, hi: int, c: int)
    requires WellFormed(t) && InRange(t, lo, hi) && lo <= c < hi
    ensures Leaves(t, c) <= LeavesBelow(t, View(t, lo, hi))
    decreases hi - lo
  {
    hide View, LeavesBelow, Leaves;
    LeavesExtend(t, lo, hi - 1);
    if c < hi - 1 {
      LeavesGrowUpward(t, lo, hi - 1, c);
    }
  }

  /** A node whose leaf count is exact and whose parent link names its parent. */
  ghost predicate Good(t: Tree, rows: seq<Info>, x: int)
    requires WellFormed(t) && |rows| == |t|
  {
    && InTree(t, x)
    && rows[x].leafSize == Leaves(t, x)
    && InTree(t, rows[x].parent) && IsChild(t, rows[x].parent, x)
  }

  ghost predicate AllGood(t: Tree, rows: seq<Info>, nodes: seq<int>)
    requires WellFormed(t) && |rows| == |t|
  {
    forall x :: x in nodes ==> Good(t, rows, x)
  }

  ghost predicate SameOutside(a: seq<Info>, b: seq<Info>, nodes: seq<int>) {
    |a| == |b| && forall x :: 0 <= x < |a| && x !in nodes ==> a[x] == b[x]
  }

  /** A child's pass leaves the earlier siblings' rows good, even where subtrees overlap. */
  lemma ChildDone(t: Tree, id: int, n: int, before: seq<Info>, after: seq<Info>, done: seq<int>)
    requires WellFormed(t) && |before| == |after| == |t| && InTree(t, id) && InTree(t, n) && IsChild(t, id, n)
    requires AllGood(t, before, done) && AllGood(t, after, Nodes(Children(t, n)))
    requires after[n] == Info(Leaves(t, n), id)
    requires SameOutside(before[n := before[n].(parent := id)], after, [n] + Nodes(Children(t, n)))
    ensures AllGood(t, after, done + Subtree(t, n))
    ensures SameOutside(before, after, Subtree(t, n))
    ensures after[id] == before[id]
  {
    hide Leaves, View, Nodes, Children;
    var kids := Nodes(Children(t, n));
    assert Subtree(t, n) == [n] + kids by { SubtreeSplits(t, n); ChildrenAre(t, n); }
    forall x | x in done + Subtree(t, n) ensures Good(t, after, x) {
      if x !in kids && x != n {
        assert x in done && Good(t, before, x) && after[x] == before[x];
      }
    }
    if id in Subtree(t, n) {
      var p := ParentInView(t, n, n + 1, id);
    }
  }

  lemma ChildrenAre(t: Tree, id: int)
    requires WellFormed(t) && InTree(t, id)
    ensures Children(t, id) == View(t, First(t, id), Last(t, id))
    ensures Last(t, id) <= First(t, id) ==> LeavesBelow(t, Children(t, id)) == 0 && Nodes(Children(t, id)) == []
  {
  }

  class InfoTable {
    var rows: seq<Info>
    var depths: seq<int>               // least depth by node
    var candidates: seq<Candidate>

    constructor (n: nat)
      ensures |rows| == n && forall i :: 0 <= i < n ==> rows[i] == Info(0, -1)
      ensures |depths| == n && forall i :: 0 <= i < n ==> depths[i] == NO_DEPTH
      ensures candidates == []
    {
      rows := seq(n, _ => Info(0, -1));
      depths := seq(n, _ => NO_DEPTH);
      candidates := [];
    }
  }

  ghost predicate Unvisited(depths: seq<int>, nodes: seq<int>) {
    forall x :: x in nodes && 0 <= x < |depths| ==> depths[x] == NO_DEPTH
  }

  ghost predicate DepthsAre(t: Tree, depths: seq<int>, nodes: seq<int>)
    requires WellFormed(t) && |depths| == |t|
  {
    forall x :: x in nodes ==> InTree(t, x) && depths[x] == Depth(t, x)
  }

  ghost predicate DepthsKept(a: seq<int>, b: seq<int>, nodes: seq<int>) {
    |a| == |b| && forall x :: 0 <= x < |a| && x !in nodes ==> a[x] == b[x]
  }

  /** The loop over the children of `id` has recorded those below `n`. */
  ghost predicate Recorded(t: Tree, id: int, lo: int, n: int, depths: seq<int>, cs0: seq<Candidate>, cs: seq<Candidate>)
    requires WellFormed(t) && InTree(t, id) && InRange(t, lo, n) && |depths| == |t|
  {
    && depths[id] == DepthBelow(t, View(t, lo, n)) && DepthsAre(t, depths, Nodes(View(t, lo, n)))
    && cs == cs0 + CandidatesOf(t, View(t, lo, n))
  }

  lemma LeafRecorded(t: Tree, id: int, before: seq<int>, after: seq<int>)
    requires WellFormed(t) && InTree(t, id) && t[id].childStart == -1 && |before| == |t| && after == before[id := 0]
    ensures DepthsKept(before, after, [id] + Nodes(Children(t, id)))
    ensures DepthsAre(t, after, [id] + Nodes(Children(t, id)))
  {
    assert Children(t, id) == Nil;
  }

  lemma NothingRecorded(t: Tree, id: int, lo: int, depths: seq<int>, cs: seq<Candidate>)
    requires WellFormed(t) && InTree(t, id) && 0 <= lo && |depths| == |t|
    ensures DepthsKept(depths, depths, [id] + [])
    ensures Unvisited(depths, [id] + Nodes(Children(t, id))) ==> Recorded(t, id, lo, lo, depths, cs, cs)
  {
    assert View(t, lo, lo) == Nil;
    assert id in [id] + Nodes(Children(t, id));
  }

  /** What lies under one child lies under no earlier one. */
  lemma SiblingApart(t: Tree, id: int, n: int, x: int)
    requires WellFormed(t) && UniqueParents(t) && InTree(t, id) && IsChild(t, id, n) && x in Subtree(t, n)
    ensures x != id && x in Nodes(Children(t, id)) && x !in Nodes(View(t, First(t, id), n))
  {
    hide View, Nodes;
    var p := ParentInView(t, n, n + 1, x);
    NodesUnder(t, First(t, id), Last(t, id), n, x);
    ChildrenAre(t, id);
    if x in Nodes(View(t, First(t, id), n)) {
      var c := OwningSibling(t, First(t, id), n, x);
      SiblingsDisjoint(t, id, n, c, x);
    }
  }

  lemma {:induction false} NodesUnder(t: Tree, lo: int, hi: int, n: int, x: int)
    requires WellFormed(t) && InRange(t, lo, hi) && lo <= n < hi && x in Subtree(t, n)
    ensures x in Nodes(View(t, lo, hi))
    decreases hi - lo
  {
    hide View, Nodes;
    LeavesExtend(t, lo, hi - 1);
    if n < hi - 1 { NodesUnder(t, lo, hi - 1, n, x); }
  }

  lemma DepthsStillKept(t: Tree, id: int, lo: int, n: int, first: seq<int>, d0: seq<int>, d1: seq<int>, d2: seq<int>)
    requires WellFormed(t) && 0 <= lo <= n < |t| && InTree(t, id) && |first| == |t|
    requires DepthsKept(first, d0, [id] + Nodes(View(t, lo, n))) && DepthsKept(d0, d1, [n] + Nodes(Children(t, n)))
    requires |d2| == |d1| && d2 == d1[id := d2[id]]
    ensures DepthsKept(first, d2, [id] + Nodes(View(t, lo, n + 1)))
  {
    hide View, Nodes, Children;
    LeavesExtend(t, lo, n);
    assert Subtree(t, n) == [n] + Nodes(Children(t, n)) by { SubtreeSplits(t, n); ChildrenAre(t, n); }
  }

  lemma ChildRecorded(t: Tree, id: int, lo: int, n: int, first: seq<int>, d0: seq<int>, d1: seq<int>,
                      cs0: seq<Candidate>, cs: seq<Candidate>, cs1: seq<Candidate>)
    requires WellFormed(t) && UniqueParents(t) && InTree(t, id) && lo == First(t, id) && IsChild(t, id, n)
    requires |first| == |d0| == |d1| == |t| && InRange(t, lo, n) && InTree(t, n)
    requires Unvisited(first, [id] + Nodes(Children(t, id))) && DepthsKept(first, d0, [id] + Nodes(View(t, lo, n)))
    requires Recorded(t, id, lo, n, d0, cs0, cs) && DepthsKept(d0, d1, [n] + Nodes(Children(t, n)))
    requires Unvisited(d0, [n] + Nodes(Children(t, n))) ==>
               DepthsAre(t, d1, [n] + Nodes(Children(t, n))) && cs1 == cs + CandidatesAt(t, n)
    ensures Recorded(t, id, lo, n + 1, d1[id := Min(d1[id], d1[n])], cs0, cs1)
  {
    hide View, Nodes, Children, DepthBelow, CandidatesOf, UniqueParents, Depth, CandidatesAt;
    var under, done := [n] + Nodes(Children(t, n)), Nodes(View(t, lo, n));
    assert Subtree(t, n) == under by { SubtreeSplits(t, n); ChildrenAre(t, n); }
    forall x | x in under ensures x != id && x in Nodes(Children(t, id)) && x !in done {
      SiblingApart(t, id, n, x);
    }
    assert Unvisited(d0, under);
    assert n in under;
    RecordsExtend(t, lo, n);
    LeavesExtend(t, lo, n);
    var d2 := d1[id := Min(d1[id], d1[n])];
    forall x | x in done + under ensures InTree(t, x) && d2[x] == Depth(t, x) {
      if x in done { BelowIsAfter(t, id, lo, n, x); }
    }
    assert cs0 + CandidatesOf(t, View(t, lo, n)) + CandidatesAt(t, n)
        == cs0 + (CandidatesOf(t, View(t, lo, n)) + CandidatesAt(t, n));
  }

  lemma BelowIsAfter(t: Tree, id: int, lo: int, n: int, x: int)
    requires WellFormed(t) && InTree(t, id) && id < lo && InRange(t, lo, n) && x in Nodes(View(t, lo, n))
    ensures x != id
  {
    hide View, Nodes;
    var p := ParentInView(t, lo, n, x);
  }

  lemma NodeRecorded(t: Tree, id: int, lo: int, n: int, first: seq<int>, d2: seq<int>, d3: seq<int>,
                     cs0: seq<Candidate>, cs: seq<Candidate>)
    requires WellFormed(t) && InTree(t, id) && t[id].childStart >= 0 && lo == First(t, id) && |first| == |d2| == |t|
    requires InRange(t, lo, n) && View(t, lo, n) == Children(t, id)
    requires DepthsKept(first, d2, [id] + Nodes(View(t, lo, n))) && d3 == d2[id := d2[id] + 1]
    ensures DepthsKept(first, d3, [id] + Nodes(Children(t, id)))
    ensures Recorded(t, id, lo, n, d2, cs0, cs) ==>
              && DepthsAre(t, d3, [id] + Nodes(Children(t, id)))
              && cs + [Candidate(id, Leaves(t, id), d3[id])] == cs0 + CandidatesAt(t, id)
  {
    hide View, Nodes, Children, DepthBelow, CandidatesOf, LeavesBelow;
    if Recorded(t, id, lo, n, d2, cs0, cs) {
      forall x | x in Nodes(View(t, lo, n)) ensures x != id {
        BelowIsAfter(t, id, lo, n, x);
      }
    }
  }

  /** DfsSelect: exact leaf counts in the subtree, parent links below its root, and nothing else touched.  In a tree
      whose nodes have one parent each, visited for the first time, the recorded depths are the least distances to a leaf
      and the candidates are the internal nodes, children before parents. */
  method DfsSelect(t: Tree, id: int, infos: InfoTable)
    requires WellFormed(t) && MarkedLeaves(t) && InTree(t, id) && |infos.rows| == |t| == |infos.depths|
    modifies infos
    ensures |infos.rows| == |t| == |infos.depths|
    ensures AllGood(t, infos.rows, Nodes(Children(t, id)))
    ensures infos.rows[id] == Info(Leaves(t, id), old(infos.rows)[id].parent)
    ensures SameOutside(old(infos.rows), infos.rows, [id] + Nodes(Children(t, id)))
    ensures DepthsKept(old(infos.depths), infos.depths, [id] + Nodes(Children(t, id)))
    ensures UniqueParents(t) && Unvisited(old(infos.depths), [id] + Nodes(Children(t, id))) ==>
              && DepthsAre(t, infos.depths, [id] + Nodes(Children(t, id)))
              && infos.candidates == old(infos.candidates) + CandidatesAt(t, id)
    decreases |t| - id
  {
    hide LeavesBelow, View, Nodes, Children, DepthBelow, CandidatesOf, Unvisited, DepthsAre, DepthsKept, UniqueParents;
    ChildrenAre(t, id);
    ghost var fresh0 := UniqueParents(t) && Unvisited(infos.depths, [id] + Nodes(Children(t, id)));
    if t[id].childStart == -1 {
      infos.rows := infos.rows[id := infos.rows[id].(leafSize := 1)];
      infos.depths := infos.depths[id := 0];
      LeafRecorded(t, id, old(infos.depths), infos.depths);
      return;
    }
    infos.rows := infos.rows[id := infos.rows[id].(leafSize := 0)];
    var lo, hi := t[id].childStart, t[id].childEnd;
    var nodeId := lo;
    EmptyRange(t, lo);
    ghost var done: seq<int> := [];
    NothingRecorded(t, id, lo, infos.depths, infos.candidates);
    while nodeId < hi
      invariant lo <= nodeId && (lo < nodeId ==> nodeId <= hi)
      invariant |infos.rows| == |t| == |infos.depths|
      invariant done == Nodes(View(t, lo, nodeId))
      invariant infos.rows[id] == Info(LeavesBelow(t, View(t, lo, nodeId)), old(infos.rows)[id].parent)
      invariant AllGood(t, infos.rows, done)
      invariant SameOutside(old(infos.rows), infos.rows, [id] + done)
      invariant DepthsKept(old(infos.depths), infos.depths, [id] + done)
      invariant fresh0 ==> Recorded(t, id, lo, nodeId, infos.depths, old(infos.candidates), infos.candidates)
    {
      hide Leaves, Good, Recorded, Depth, CandidatesAt;
      ghost var before, depths0, cs0 := infos.rows, infos.depths, infos.candidates;
      infos.rows := infos.rows[nodeId := infos.rows[nodeId].(parent := id)];
      DfsSelect(t, nodeId, infos);
      ghost var depths1 := infos.depths;
      infos.depths := infos.depths[id := Min(infos.depths[id], infos.depths[nodeId])];
      LeavesExtend(t, lo, nodeId);
      ChildDone(t, id, nodeId, before, infos.rows, done);
      DepthsStillKept(t, id, lo, nodeId, old(infos.depths), depths0, depths1, infos.depths);
      if fresh0 {
        ChildRecorded(t, id, lo, nodeId, old(infos.depths), depths0, depths1, old(infos.candidates), cs0, infos.candidates);
      }
      var added := infos.rows[nodeId].leafSize;
      ghost var after := infos.rows;
      OwnRow(t, id, lo, nodeId, after, after[id].(leafSize := after[id].leafSize + added));
      infos.rows := infos.rows[id := infos.rows[id].(leafSize := infos.rows[id].leafSize + added)];
      done := done + Subtree(t, nodeId);
      nodeId := nodeId + 1;
    }
    assert Last(t, id) <= First(t, id) || nodeId == hi;
    ghost var depths2, cs := infos.depths, infos.candidates;
    infos.depths := infos.depths[id := infos.depths[id] + 1];
    infos.candidates := infos.candidates + [Candidate(id, infos.rows[id].leafSize, infos.depths[id])];
    assert View(t, lo, nodeId) == Children(t, id) by { LoopDone(t, id, lo, nodeId); }
    NodeRecorded(t, id, lo, nodeId, old(infos.depths), depths2, infos.depths, old(infos.candidates), cs);
  }

  lemma LoopDone(t: Tree, id: int, lo: int, n: int)
    requires WellFormed(t) && InTree(t, id) && t[id].childStart >= 0 && lo == First(t, id) && InRange(t, lo, n)
    requires n == Last(t, id) || (Last(t, id) <= lo && n == lo)
    ensures View(t, lo, n) == Children(t, id)
  {
  }

  lemma EmptyRange(t: Tree, lo: int)
    requires WellFormed(t) && 0 <= lo
    ensures LeavesBelow(t, View(t, lo, lo)) == 0 && Nodes(View(t, lo, lo)) == []
  {
  }

  /** The node's own row is not among its descendants, so updating it disturbs none. */
  lemma OwnRow(t: Tree, id: int, lo: int, n: int, rows: seq<Info>, row: Info)
    requires WellFormed(t) && |rows| == |t| && InTree(t, id) && id < lo <= n < |t|
    requires AllGood(t, rows, Nodes(View(t, lo, n + 1)))
    ensures AllGood(t, rows[id := row], Nodes(View(t, lo, n + 1)))
  {
    hide Leaves, View, Nodes;
    var below, changed := Nodes(View(t, lo, n + 1)), rows[id := row];
    forall x | x in below ensures Good(t, changed, x) {
      var p := ParentInView(t, lo, n + 1, x);
      assert Good(t, rows, x);
    }
  }

  // ---- The revisit queue ----

  /** Links point to earlier nodes, or nowhere. */
  ghost predicate LinksUp(t: Tree, rows: seq<Info>) {
    |rows| == |t| && forall n :: 0 <= n < |rows| ==> -1 <= rows[n].parent < n
  }

  /** After a pass over the whole tree every link is usable. */
  lemma LinksUpAfterPass(t: Tree, rows: seq<Info>)
    requires WellFormed(t) && |rows| == |t|
    requires AllGood(t, rows, Nodes(Children(t, 0)))
    requires forall x :: 0 <= x < |t| && x !in Nodes(Children(t, 0)) ==> rows[x].parent == -1
    ensures LinksUp(t, rows)
  {
    hide Leaves, Nodes, Children;
    forall n | 0 <= n < |rows| ensures -1 <= rows[n].parent < n {
      if n in Nodes(Children(t, 0)) {
        assert Good(t, rows, n);
      }
    }
  }

  /** Walking up from `n` through small clusters meets a selected centre, a queued node,
      or the top. */
  ghost predicate Provided(t: Tree, rows: seq<Info>, threshold: int, selected: set<int>, queue: seq<int>, n: int)
    requires LinksUp(t, rows) && n < |t|
    decreases n
  {
    || n < 0 || n in queue || t[n].center in selected
    || (rows[n].leafSize < threshold && Provided(t, rows, threshold, selected, queue, rows[n].parent))
  }

  /** Dropping `n` from the queue costs nothing once `n` itself is provided for. */
  lemma {:induction false} ProvidedAfter(t: Tree, rows: seq<Info>, threshold: int,
                                         selected: set<int>, queue: seq<int>,
                                         selected': set<int>, queue': seq<int>, n: int, q: int)
    requires LinksUp(t, rows) && n < |t| && q < |t|
    requires selected <= selected' && forall x :: x in queue ==> x == n || x in queue'
    requires Provided(t, rows, threshold, selected', queue', n)
    requires Provided(t, rows, threshold, selected, queue, q)
    ensures Provided(t, rows, threshold, selected', queue', q)
    decreases q
  {
    if q >= 0 && q !in queue && t[q].center !in selected {
      ProvidedAfter(t, rows, threshold, selected, queue, selected', queue', n, rows[q].parent);
    }
  }

  predicate Ids(queue: seq<int>, limit: int) {
    forall i :: 0 <= i < |queue| ==> -1 <= queue[i] < limit
  }

  ghost function Weight(queue: seq<int>, limit: int): nat
    requires Ids(queue, limit)
  {
    if queue == [] then 0 else queue[0] + 2 + Weight(queue[1..], limit)
  }

  lemma {:induction false} WeightExtend(queue: seq<int>, limit: int, n: int)
    requires -1 <= n < limit && Ids(queue, limit)
    ensures Weight(queue + [n], limit) == Weight(queue, limit) + n + 2
  {
    if queue == [] {
      assert queue + [n] == [n] && [n][1..] == [];
    } else {
      WeightExtend(queue[1..], limit, n);
      assert (queue + [n])[1..] == queue[1..] + [n];
    }
  }

  /** `c` is the centre of some cluster with enough leaves. */
  ghost predicate LargeCenter(t: Tree, rows: seq<Info>, threshold: int, c: int)
    requires |rows| == |t|
  {
    exists n :: 0 <= n < |t| && t[n].center == c && rows[n].leafSize >= threshold
  }

  /** Draining the queue ends, selects only large clusters, and provides for every node
      that was queued. */
  method DrainRevisit(t: Tree, rows: seq<Info>, threshold: int, initial: set<int>, queued: seq<int>)
    returns (selected: set<int>)
    requires LinksUp(t, rows) && Ids(queued, |t|)
    ensures initial <= selected
    ensures forall c :: c in selected && c !in initial ==> LargeCenter(t, rows, threshold, c)
    ensures forall q :: q in queued ==> Provided(t, rows, threshold, selected, [], q)
  {
    selected := initial;
    var queue := queued;
    while queue != []
      invariant Ids(queue, |t|)
      invariant initial <= selected
      invariant forall c :: c in selected && c !in initial ==> LargeCenter(t, rows, threshold, c)
      invariant forall q :: q in queued ==> Provided(t, rows, threshold, selected, queue, q)
      decreases Weight(queue, |t|)
    {
      hide LinksUp, Weight;
      assert -1 <= queue[0] < |t|;
      ghost var before, was := queue, selected;
      var nodeId := queue[0];
      queue := queue[1..];
      WeightSplits(before, |t|);
      LinkOf(t, rows, nodeId);
      if nodeId >= 0 && t[nodeId].center !in selected {
        if rows[nodeId].leafSize >= threshold {
          selected := selected + {t[nodeId].center};
        } else {
          WeightExtend(queue, |t|, rows[nodeId].parent);
          queue := queue + [rows[nodeId].parent];
        }
      }
      assert Provided(t, rows, threshold, selected, queue, nodeId);
      forall q | q in queued ensures Provided(t, rows, threshold, selected, queue, q) {
        ProvidedAfter(t, rows, threshold, was, before, selected, queue, nodeId, q);
      }
    }
  }

  lemma WeightSplits(queue: seq<int>, limit: int)
    requires queue != [] && Ids(queue, limit)
    ensures Weight(queue, limit) == queue[0] + 2 + Weight(queue[1..], limit)
  {
  }

  lemma LinkOf(t: Tree, rows: seq<Info>, n: int)
    requires LinksUp(t, rows) && -1 <= n < |t|
    ensures |rows| == |t| && (n >= 0 ==> -1 <= rows[n].parent < n)
  {
  }

  /** `a` lies on the chain of links from `n` upward. */
  ghost predicate OnChain(t: Tree, rows: seq<Info>, n: int, a: int)
    requires LinksUp(t, rows) && n < |t|
    decreases n
  {
    n >= 0 && (a == n || OnChain(t, rows, rows[n].parent, a))
  }

  /** A queued cluster that is provided for has, for every large cluster on its chain, a selected centre at or below that
      cluster. */
  lemma {:induction false} QueuedGetsHead(t: Tree, rows: seq<Info>, threshold: int, selected: set<int>, q: int, a: int)
    returns (b: int)
    requires LinksUp(t, rows) && q < |t| && Provided(t, rows, threshold, selected, [], q)
    requires InTree(t, a) && OnChain(t, rows, q, a) && rows[a].leafSize >= threshold
    ensures InTree(t, b) && OnChain(t, rows, q, b) && OnChain(t, rows, b, a) && t[b].center in selected
    decreases q
  {
    b := q;
    if t[q].center !in selected {
      b := QueuedGetsHead(t, rows, threshold, selected, rows[q].parent, a);
    }
  }

  lemma LinkStaysBelowRoot(t: Tree, p: int, q: int)
    requires WellFormed(t) && UniqueParents(t) && InTree(t, p) && q in Nodes(Children(t, 0)) && IsChild(t, p, q)
    ensures p == 0 || p in Nodes(Children(t, 0))
  {
    var r := ParentInView(t, First(t, 0), Last(t, 0), q);
    if IsChild(t, 0, q) {
      assert InTree(t, 0);
    }
  }

  /** Leaf counts only grow along parent links. */
  lemma LargerAbove(t: Tree, rows: seq<Info>, x: int)
    requires WellFormed(t) && MarkedLeaves(t) && |rows| == |t| && InTree(t, x) && Good(t, rows, x)
    ensures Leaves(t, x) <= Leaves(t, rows[x].parent)
  {
    hide LeavesBelow, View;
    LeavesGrowUpward(t, First(t, rows[x].parent), Last(t, rows[x].parent), x);
    ChildrenAre(t, rows[x].parent);
  }

  // ---- The whole pass: record, queue the parents of small clusters, drain ----

  ghost predicate Descends(t: Tree, a: int, x: int)
    requires WellFormed(t)
  {
    InTree(t, a) && x in Nodes(Children(t, a))
  }

  lemma {:induction false} ChildrenIncluded(t: Tree, lo: int, hi: int, n: int, x: int)
    requires WellFormed(t) && InRange(t, lo, hi) && InTree(t, n)
    requires n in Nodes(View(t, lo, hi)) && x in Nodes(Children(t, n))
    ensures x in Nodes(View(t, lo, hi))
    decreases |t| - lo, hi - lo
  {
    if n in Nodes(View(t, lo, hi - 1)) {
      ChildrenIncluded(t, lo, hi - 1, n, x);
    } else if n != hi - 1 {
      ChildrenIncluded(t, First(t, hi - 1), Last(t, hi - 1), n, x);
    }
  }

  lemma {:induction false} ChildDescends(t: Tree, lo: int, hi: int, c: int)
    requires WellFormed(t) && InRange(t, lo, hi) && lo <= c < hi
    ensures c in Nodes(View(t, lo, hi))
    decreases hi - lo
  {
    if c < hi - 1 {
      ChildDescends(t, lo, hi - 1, c);
    }
  }

  /** Links in a recorded table lead to ancestors in the tree. */
  lemma {:induction false} ChainIsAncestry(t: Tree, rows: seq<Info>, x: int, a: int)
    requires WellFormed(t) && UniqueParents(t) && LinksUp(t, rows)
    requires AllGood(t, rows, Nodes(Children(t, 0))) && rows[0].parent == -1
    requires InTree(t, x) && x in Nodes(Children(t, 0)) && InTree(t, a) && OnChain(t, rows, rows[x].parent, a)
    ensures Descends(t, a, x)
    decreases x
  {
    hide Nodes, View;
    assert Good(t, rows, x);
    var p := rows[x].parent;
    ChildDescends(t, First(t, p), Last(t, p), x);
    if a != p {
      LinkStaysBelowRoot(t, p, x);
      ChainIsAncestry(t, rows, p, a);
      ChildrenIncluded(t, First(t, a), Last(t, a), p, x);
    }
  }

  /** Some ancestor of `x` at or below its ancestor `a` has a selected centre. */
  ghost predicate HeadBetween(t: Tree, selected: set<int>, a: int, x: int)
    requires WellFormed(t)
  {
    exists b :: Descends(t, b, x) && (b == a || Descends(t, a, b)) && t[b].center in selected
  }

  /** Every ancestor is on the chain of recorded links. */
  lemma {:induction false} AncestryIsChain(t: Tree, rows: seq<Info>, x: int, a: int)
    requires WellFormed(t) && UniqueParents(t) && LinksUp(t, rows) && AllGood(t, rows, Nodes(Children(t, 0)))
    requires x in Nodes(Children(t, 0)) && Descends(t, a, x)
    ensures InTree(t, x) && OnChain(t, rows, rows[x].parent, a)
    decreases x
  {
    hide Nodes, View;
    assert Good(t, rows, x);
    var p := rows[x].parent;
    ChildrenAre(t, a);
    var q := ParentInView(t, First(t, a), Last(t, a), x);
    if IsChild(t, a, x) {
      assert p == a;
    } else {
      assert p == q;
      LinkStaysBelowRoot(t, p, x);
      AncestryIsChain(t, rows, p, a);
    }
  }

  /** Chains stay in the recorded part of the tree. */
  lemma {:induction false} ChainReaches(t: Tree, rows: seq<Info>, q: int, b: int)
    requires WellFormed(t) && UniqueParents(t) && LinksUp(t, rows) && AllGood(t, rows, Nodes(Children(t, 0)))
    requires rows[0].parent == -1 && InTree(t, q) && (q == 0 || q in Nodes(Children(t, 0))) && OnChain(t, rows, q, b)
    ensures InTree(t, b) && (b == 0 || b in Nodes(Children(t, 0)))
    decreases q
  {
    hide Nodes, View, Children;
    if b != q {
      assert q != 0 && Good(t, rows, q);
      LinkStaysBelowRoot(t, rows[q].parent, q);
      ChainReaches(t, rows, rows[q].parent, b);
    }
  }

  /** The recorded part of the tree after a pass from its root. */
  ghost predicate Passed(t: Tree, rows: seq<Info>)
    requires WellFormed(t)
  {
    LinksUp(t, rows) && AllGood(t, rows, Nodes(Children(t, 0))) && rows[0] == Info(Leaves(t, 0), -1)
  }

  /** Recursive check of small clusters, from the tree alone: for every small cluster below the root and every ancestor
      with at least `threshold` leaves, a selected centre lies at or below that ancestor. */
  method RevisitSmallClusters(t: Tree, threshold: int, initial: set<int>, small: seq<int>)
    returns (selected: set<int>)
    requires WellFormed(t) && MarkedLeaves(t) && UniqueParents(t)
    requires forall i :: 0 <= i < |small| ==> InTree(t, small[i])
    ensures initial <= selected
    ensures forall x, a :: x in small && x in Nodes(Children(t, 0)) && Descends(t, a, x) && Leaves(t, a) >= threshold ==>
              HeadBetween(t, selected, a, x)
    ensures Leaves(t, 0) < threshold ==> selected == initial
  {
    hide Nodes, View, Leaves, LinksUp, Provided, OnChain, IsChild, Children, HeadBetween;
    var infos := new InfoTable(|t|);
    ghost var start := infos.rows;
    RootIsTop(t);
    DfsSelect(t, 0, infos);
    var rows := infos.rows;
    FreshPass(t, start, rows);
    var queue: seq<int> := [];
    var i := 0;
    while i < |small|
      invariant 0 <= i <= |small| && |queue| == i
      invariant Ids(queue, |t|)
      invariant forall j :: 0 <= j < i ==> queue[j] == rows[small[j]].parent
    {
      LinkOf(t, rows, small[i]);
      queue := queue + [rows[small[i]].parent];
      i := i + 1;
    }
    selected := DrainRevisit(t, rows, threshold, initial, queue);
    forall x, a | x in small && x in Nodes(Children(t, 0)) && Descends(t, a, x) && Leaves(t, a) >= threshold
      ensures HeadBetween(t, selected, a, x)
    {
      var k :| 0 <= k < |small| && small[k] == x;
      assert queue[k] in queue;
      SmallGetsHead(t, rows, threshold, selected, a, x);
    }
    if Leaves(t, 0) < threshold {
      forall c | c in selected ensures c in initial {
        if c !in initial {
          NothingLarge(t, start, rows, threshold, c);
        }
      }
    }
  }

  lemma {:induction false} RootIsLargest(t: Tree, rows: seq<Info>, x: int)
    requires WellFormed(t) && MarkedLeaves(t) && UniqueParents(t) && LinksUp(t, rows)
    requires AllGood(t, rows, Nodes(Children(t, 0))) && InTree(t, x)
    requires x == 0 || x in Nodes(Children(t, 0))
    ensures Leaves(t, x) <= Leaves(t, 0)
    decreases x
  {
    hide Nodes, View, Leaves, Children;
    if x != 0 {
      assert Good(t, rows, x);
      LargerAbove(t, rows, x);
      LinkStaysBelowRoot(t, rows[x].parent, x);
      RootIsLargest(t, rows, rows[x].parent);
    }
  }

  lemma NothingLarge(t: Tree, start: seq<Info>, rows: seq<Info>, threshold: int, c: int)
    requires WellFormed(t) && MarkedLeaves(t) && UniqueParents(t) && LinksUp(t, rows) && |start| == |t|
    requires forall i :: 0 <= i < |start| ==> start[i] == Info(0, -1)
    requires AllGood(t, rows, Nodes(Children(t, 0))) && rows[0] == Info(Leaves(t, 0), -1)
    requires SameOutside(start, rows, [0] + Nodes(Children(t, 0)))
    requires Leaves(t, 0) < threshold
    ensures !LargeCenter(t, rows, threshold, c)
  {
    hide Nodes, View, Leaves, Children, LinksUp;
    forall n | 0 <= n < |t| ensures rows[n].leafSize < threshold {
      if n == 0 || n in Nodes(Children(t, 0)) {
        RootIsLargest(t, rows, n);
        assert n == 0 || Good(t, rows, n);
      }
    }
  }

  lemma RootIsTop(t: Tree)
    requires WellFormed(t)
    ensures InTree(t, 0) && 0 !in Nodes(Children(t, 0))
  {
    if 0 in Nodes(Children(t, 0)) {
      var p := ParentInView(t, First(t, 0), Last(t, 0), 0);
    }
  }

  lemma FreshPass(t: Tree, start: seq<Info>, rows: seq<Info>)
    requires WellFormed(t) && |start| == |rows| == |t|
    requires forall i :: 0 <= i < |start| ==> start[i] == Info(0, -1)
    requires AllGood(t, rows, Nodes(Children(t, 0))) && rows[0].parent == -1
    requires SameOutside(start, rows, [0] + Nodes(Children(t, 0)))
    ensures LinksUp(t, rows)
  {
    hide Good, Nodes, Children, LinksUp;
    LinksUpAfterPass(t, rows);
  }

  lemma SmallGetsHead(t: Tree, rows: seq<Info>, threshold: int, selected: set<int>, a: int, x: int)
    requires WellFormed(t) && UniqueParents(t) && Passed(t, rows)
    requires InTree(t, x) && x in Nodes(Children(t, 0)) && Descends(t, a, x) && Leaves(t, a) >= threshold
    requires Provided(t, rows, threshold, selected, [], rows[x].parent)
    ensures HeadBetween(t, selected, a, x)
  {
    var b := HeadOnPath(t, rows, threshold, selected, a, x);
  }

  /** The same, naming the ancestor. */
  lemma HeadOnPath(t: Tree, rows: seq<Info>, threshold: int, selected: set<int>, a: int, x: int) returns (b: int)
    requires WellFormed(t) && UniqueParents(t) && Passed(t, rows)
    requires InTree(t, x) && x in Nodes(Children(t, 0)) && Descends(t, a, x) && Leaves(t, a) >= threshold
    requires Provided(t, rows, threshold, selected, [], rows[x].parent)
    ensures Descends(t, b, x) && (b == a || Descends(t, a, b)) && t[b].center in selected
  {
    hide Nodes, View, Leaves, Provided, Children;
    assert Good(t, rows, x);
    var p := rows[x].parent;
    LinkStaysBelowRoot(t, p, x);
    AncestryIsChain(t, rows, x, a);
    ChainReaches(t, rows, p, a);
    assert a == 0 || Good(t, rows, a);
    b := QueuedGetsHead(t, rows, threshold, selected, p, a);
    ChainReaches(t, rows, p, b);
    ChainIsAncestry(t, rows, x, b);
    if b != a { ChainIsAncestry(t, rows, b, a); }
  }

  // ---- What the recorded numbers mean ----

  lemma {:induction false} LeavesCounted(t: Tree, lo: int, hi: int, leaf: int -> bool)
    requires WellFormed(t) && MarkedLeaves(t) && InRange(t, lo, hi)
    requires forall n :: InTree(t, n) ==> leaf(n) == (t[n].childStart == -1)
    ensures LeavesBelow(t, View(t, lo, hi)) == Count(Nodes(View(t, lo, hi)), leaf)
    decreases |t| - lo, hi - lo
  {
    hide LeavesBelow, View, Nodes, Count;
    if lo < hi {
      var n := hi - 1;
      LeavesCounted(t, lo, n, leaf);
      LeavesAre(t, n, leaf);
      LeavesExtend(t, lo, n);
      CountConcat(Nodes(View(t, lo, n)), Subtree(t, n), leaf);
    } else {
      NoLeaves(t, lo, hi, leaf);
    }
  }

  lemma NoLeaves(t: Tree, lo: int, hi: int, leaf: int -> bool)
    requires WellFormed(t) && InRange(t, lo, hi) && lo >= hi
    ensures LeavesBelow(t, View(t, lo, hi)) == 0 == Count(Nodes(View(t, lo, hi)), leaf)
  {
  }

  /** The leaf count of a node is the number of nodes at or below it that have no children. */
  lemma {:induction false} LeavesAre(t: Tree, id: int, leaf: int -> bool)
    requires WellFormed(t) && MarkedLeaves(t) && InTree(t, id)
    requires forall n :: InTree(t, n) ==> leaf(n) == (t[n].childStart == -1)
    ensures Leaves(t, id) == Count(Subtree(t, id), leaf)
    decreases |t| - id, 0
  {
    hide LeavesBelow, View, Nodes, Count;
    SubtreeSplits(t, id);
    ChildrenAre(t, id);
    LeavesCounted(t, First(t, id), Last(t, id), leaf);
    CountConcat([id], Nodes(Children(t, id)), leaf);
    CountSelf(id, leaf);
  }

  lemma CountSelf(id: int, leaf: int -> bool)
    ensures Count([id], leaf) == if leaf(id) then 1 else 0
  {
    assert [id][..0] == [];
    assert Count([], leaf) == 0;
  }

  /** A leaf lies at most d steps below the node. */
  ghost predicate LeafWithin(t: Tree, id: int, d: nat)
    requires WellFormed(t) && InTree(t, id)
    decreases d
  {
    t[id].childStart == -1 || (d > 0 && exists c :: IsChild(t, id, c) && LeafWithin(t, c, d - 1))
  }

  lemma {:induction false} LeastBelow(t: Tree, lo: int, hi: int, d: int)
    requires WellFormed(t) && InRange(t, lo, hi) && d < NO_DEPTH
    ensures DepthBelow(t, View(t, lo, hi)) <= d <==> exists c :: lo <= c < hi && Depth(t, c) <= d
    decreases hi - lo
  {
    hide DepthBelow, View, Depth, CandidatesOf, CandidatesAt;
    if lo < hi {
      LeastBelow(t, lo, hi - 1, d);
      RecordsExtend(t, lo, hi - 1);
    } else {
      NoDepth(t, lo, hi);
    }
  }

  lemma NoDepth(t: Tree, lo: int, hi: int)
    requires WellFormed(t) && InRange(t, lo, hi) && lo >= hi
    ensures DepthBelow(t, View(t, lo, hi)) == NO_DEPTH
  {
  }

  /** The depth of a node is the least number of steps from it down to a leaf. */
  lemma {:induction false} DepthMeans(t: Tree, id: int, d: nat)
    requires WellFormed(t) && MarkedLeaves(t) && InTree(t, id) && d < NO_DEPTH
    ensures Depth(t, id) <= d <==> LeafWithin(t, id, d)
    decreases d
  {
    hide DepthBelow, View;
    ChildrenAre(t, id);
    LeastBelow(t, First(t, id), Last(t, id), d - 1);
    if d == 0 {
      DepthsPositive(t, First(t, id), Last(t, id));
    } else {
      forall c | IsChild(t, id, c) ensures Depth(t, c) <= d - 1 <==> LeafWithin(t, c, d - 1) {
        DepthMeans(t, c, d - 1);
      }
      SameChildren(t, id, d - 1);
    }
  }

  lemma SameChildren(t: Tree, id: int, d: nat)
    requires WellFormed(t) && InTree(t, id)
    requires forall c :: IsChild(t, id, c) ==> (Depth(t, c) <= d <==> LeafWithin(t, c, d))
    ensures (exists c :: First(t, id) <= c < Last(t, id) && Depth(t, c) <= d)
       <==> exists c :: IsChild(t, id, c) && LeafWithin(t, c, d)
  {
    hide Depth, LeafWithin;
    if c :| First(t, id) <= c < Last(t, id) && Depth(t, c) <= d {
      assert IsChild(t, id, c) && LeafWithin(t, c, d);
    }
    if c :| IsChild(t, id, c) && LeafWithin(t, c, d) {
      assert First(t, id) <= c < Last(t, id) && Depth(t, c) <= d;
    }
  }

  lemma {:induction false} DepthsPositive(t: Tree, lo: int, hi: int)
    requires WellFormed(t) && InRange(t, lo, hi)
    ensures DepthBelow(t, View(t, lo, hi)) >= 0
    decreases |t| - lo, hi - lo
  {
    if lo < hi {
      DepthsPositive(t, lo, hi - 1);
      DepthsPositive(t, First(t, hi - 1), Last(t, hi - 1));
    }
  }
}
