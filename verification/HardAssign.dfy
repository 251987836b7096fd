/** The capacity-limited assignment as the program runs it: per-thread slices, one sort,
    a cut per cluster that flips row indices negative, and per-thread counters. */
module HardAssign {
  import opened Common
  import opened Ordering
  import opened CapacityCut

  // ---- Thread slices ----

  /** Division as the program does it, rounding toward zero. */
  function Trunc(a: int, b: int): int
    requires b >= 1
  {
    if a >= 0 then a / b else -(-a / b)
  }

  function SliceSize(n: nat, threads: nat): (size: nat)
    requires threads >= 1
    ensures threads * size >= n
  {
    var size := Trunc(n - 1, threads) + 1;
    assert n >= 1 ==> threads * ((n - 1) / threads + 1) == threads * ((n - 1) / threads) + threads;
    assert threads * size >= n && size >= 0 by {
      if n == 0 {
        assert 1 / threads <= 1;
      }
    }
    size
  }

  /** First phase: each thread fills its slice of the item list. */
  method FillItems(t: Task, threads: nat, items: array<Edge>)
    requires Valid(t) && threads >= 1 && items.Length == |t.dist|
    modifies items
    ensures forall i :: 0 <= i < items.Length ==> items[i] == Item(t, i)
  {
    hide Item, Valid;
    var n := items.Length;
    var subsize := SliceSize(n, threads);
    var tid := 0;
    while tid < threads
      invariant 0 <= tid <= threads
      invariant forall i :: 0 <= i < Min(tid * subsize, n) ==> items[i] == Item(t, i)
    {
      var istart := tid * subsize;
      var iend := Min((tid + 1) * subsize, n);
      assert (tid + 1) * subsize == istart + subsize;
      var i := istart;
      while i < iend
        invariant istart <= i <= Max(iend, istart)
        invariant forall j :: 0 <= j < Min(i, n) ==> items[j] == Item(t, j)
      {
        items[i] := Item(t, i);
        i := i + 1;
      }
      tid := tid + 1;
    }
  }

  /** The library sort, in place. */
  method SortItems(t: Task, items: array<Edge>)
    requires Valid(t) && items.Length == |t.dist|
    requires forall i :: 0 <= i < items.Length ==> items[i] == Item(t, i)
    modifies items
    ensures Arranged(t, items[..])
  {
    hide Item, Sorted;
    var all := items[..];
    EdgeOrder();
    assert Distinct(all) by {
      forall i, j | 0 <= i < j < |all| ensures all[i] != all[j] {
        ItemOf(t, i);
        ItemOf(t, j);
      }
    }
    SortFacts(all, EdgeLess);
    var s := Sort(all, EdgeLess);
    forall i | 0 <= i < items.Length {
      items[i] := s[i];
    }
    assert items[..] == s;
    ArrangedBySort(t, all, s);
  }

  lemma ArrangedBySort(t: Task, all: seq<Edge>, s: seq<Edge>)
    requires Valid(t) && |all| == |s| == |t.dist|
    requires forall i :: 0 <= i < |all| ==> all[i] == Item(t, i)
    requires Sorted(s, EdgeLess) && forall x :: x in s <==> x in all
    ensures Arranged(t, s)
  {
    hide Item, Sorted;
    forall p | 0 <= p < |s| ensures 0 <= Row(s[p]) < |t.dist| && s[p] == Item(t, Row(s[p])) {
      assert s[p] in all;
      var i :| 0 <= i < |all| && all[i] == s[p];
      ItemOf(t, i);
    }
    forall i | 0 <= i < |t.dist| ensures Item(t, i) in s {
      assert all[i] in all;
    }
  }

  // ---- Counters ----

  /** Count of cluster `k` over the first `n` threads. */
  function Cumulative(rows: seq<seq<int>>, k: nat, n: nat): int
    requires n <= |rows| && forall i :: 0 <= i < |rows| ==> k < |rows[i]|
  {
    if n == 0 then 0 else Cumulative(rows, k, n - 1) + rows[n - 1][k]
  }

  ghost predicate Rectangular(rows: seq<seq<int>>, clusters: nat) {
    forall i :: 0 <= i < |rows| ==> |rows[i]| == clusters
  }

  /** Counting one more in thread `tid` raises one cluster's total by one. */
  lemma {:induction false} CumulativeBump(rows: seq<seq<int>>, clusters: nat, tid: nat, node: nat, k: nat, n: nat)
    requires Rectangular(rows, clusters) && tid < |rows| && node < clusters && k < clusters && n <= |rows|
    ensures var bumped := rows[tid := rows[tid][node := rows[tid][node] + 1]];
            && Rectangular(bumped, clusters)
            && Cumulative(bumped, k, n) == Cumulative(rows, k, n) + (if tid < n && k == node then 1 else 0)
  {
    if n > 0 {
      CumulativeBump(rows, clusters, tid, node, k, n - 1);
    }
  }

  /** Turns limits into remaining limits: what is left after the counts so far. */
  method SubtractCounts(limit: array<int>, newCounts: array<seq<int>>, clusters: nat)
    requires limit.Length == clusters && Rectangular(newCounts[..], clusters)
    modifies limit
    ensures forall k :: 0 <= k < clusters ==>
              limit[k] == old(limit[k]) - Cumulative(newCounts[..], k, newCounts.Length)
  {
    ghost var rows := newCounts[..];
    var i := 0;
    while i < newCounts.Length
      invariant 0 <= i <= newCounts.Length && newCounts[..] == rows
      invariant forall k :: 0 <= k < clusters ==> limit[k] == old(limit[k]) - Cumulative(rows, k, i)
    {
      ghost var before := limit[..];
      var k := 0;
      while k < clusters
        invariant 0 <= k <= clusters
        invariant forall j :: 0 <= j < k ==> limit[j] == before[j] - rows[i][j]
        invariant forall j :: k <= j < clusters ==> limit[j] == before[j]
      {
        limit[k] := limit[k] - newCounts[i][k];
        k := k + 1;
      }
      i := i + 1;
    }
  }

  method SumCounts(counts: array<int>, newCounts: array<seq<int>>, clusters: nat)
    requires counts.Length == clusters && Rectangular(newCounts[..], clusters)
    modifies counts
    ensures forall k :: 0 <= k < clusters ==> counts[k] == Cumulative(newCounts[..], k, newCounts.Length)
  {
    ghost var rows := newCounts[..];
    forall k | 0 <= k < clusters {
      counts[k] := 0;
    }
    var i := 0;
    while i < newCounts.Length
      invariant 0 <= i <= newCounts.Length && newCounts[..] == rows
      invariant forall k :: 0 <= k < clusters ==> counts[k] == Cumulative(rows, k, i)
    {
      ghost var before := counts[..];
      var k := 0;
      while k < clusters
        invariant 0 <= k <= clusters
        invariant forall j :: 0 <= j < k ==> counts[j] == before[j] + rows[i][j]
        invariant forall j :: k <= j < clusters ==> counts[j] == before[j]
      {
        counts[k] := counts[k] + newCounts[i][k];
        k := k + 1;
      }
      i := i + 1;
    }
  }

  // ---- The cut ----

  method LowerBound(items: array<Edge>, k: int) returns (b: nat)
    requires forall p, q :: 0 <= p < q < items.Length ==> items[p].node <= items[q].node
    ensures Splits(items[..], k, b)
  {
    var lo, hi := 0, items.Length;
    while lo < hi
      invariant 0 <= lo <= hi <= items.Length
      invariant forall p :: 0 <= p < lo ==> items[p].node < k
      invariant forall p :: hi <= p < items.Length ==> items[p].node >= k
    {
      var mid := (lo + hi) / 2;
      if items[mid].node < k {
        lo := mid + 1;
      } else {
        hi := mid;
      }
    }
    b := lo;
  }

  /** A kept position keeps its row index; a dropped one carries it negatively. */
  ghost function AfterCut(s: seq<Edge>, clusters: nat, remaining: seq<int>, p: nat): Edge
    requires p < |s| && |remaining| == clusters
  {
    if KeptAt(s, clusters, remaining, p) then s[p] else s[p].(tonode := -1 - Row(s[p]))
  }

  /** Flips the row index of every item from `from` to `to`. */
  method DropRange(items: array<Edge>, from: nat, to: nat)
    requires to <= items.Length
    modifies items
    ensures forall p :: 0 <= p < items.Length ==>
              items[p] == if from <= p < to then old(items[p]).(tonode := -1 - Row(old(items[p]))) else old(items[p])
  {
    var dropID := from;
    while dropID < to
      invariant from <= dropID
      invariant forall p :: 0 <= p < items.Length ==>
                  items[p] == if from <= p < Min(dropID, to) then old(items[p]).(tonode := -1 - Row(old(items[p])))
                              else old(items[p])
    {
      if items[dropID].tonode >= 0 {
        items[dropID] := items[dropID].(tonode := -1 - items[dropID].tonode);
      }
      dropID := dropID + 1;
    }
  }

  /** How far the cut has come: clusters below `k` are done, the rest is untouched. */
  ghost predicate CutUpTo(s: seq<Edge>, now: seq<Edge>, clusters: nat, remaining: seq<int>, k: int)
    requires |remaining| == clusters && |now| == |s|
  {
    forall p :: 0 <= p < |s| ==> now[p] == if p < Bound(s, k) then AfterCut(s, clusters, remaining, p) else s[p]
  }

  method CutClusters(t: Task, items: array<Edge>, remaining: array<int>)
    requires Valid(t) && Arranged(t, items[..]) && remaining.Length == t.clusters
    requires forall k :: 0 <= k < remaining.Length ==> remaining[k] >= 0
    modifies items
    ensures forall p :: 0 <= p < items.Length ==> items[p] == AfterCut(old(items[..]), t.clusters, remaining[..], p)
  {
    hide Bound, AfterCut, Arranged, CutUpTo, Splits;
    ghost var s, left := items[..], remaining[..];
    var startIdx := 0;
    var i := 0;
    StartsAtZero(t, s);
    CutStarts(s, t.clusters, left);
    while i < t.clusters
      invariant 0 <= i <= t.clusters
      invariant remaining[..] == left
      invariant startIdx == Bound(s, i)
      invariant CutUpTo(s, items[..], t.clusters, left, i)
    {
      ghost var now := items[..];
      NodesKept(t, s, now, left, i);
      assert forall p, q :: 0 <= p < q < items.Length ==> now[p].node <= now[q].node;
      var endIdx := LowerBound(items, i + 1);
      BoundByNodes(t, s, now, left, i, endIdx);
      DropRange(items, startIdx + remaining[i], endIdx);
      CutExtends(t, s, now, items[..], left, i);
      startIdx := endIdx;
      i := i + 1;
    }
    CutEnds(t, s, items[..], left);
  }

  lemma CutStarts(s: seq<Edge>, clusters: nat, remaining: seq<int>)
    requires |remaining| == clusters && Bound(s, 0) == 0
    ensures CutUpTo(s, s, clusters, remaining, 0)
  {
  }

  /** The search sees the same node values before and after cutting earlier clusters. */
  lemma NodesKept(t: Task, s: seq<Edge>, now: seq<Edge>, remaining: seq<int>, k: nat)
    requires Valid(t) && Arranged(t, s) && |remaining| == t.clusters && |now| == |s|
    requires CutUpTo(s, now, t.clusters, remaining, k)
    ensures forall p :: 0 <= p < |s| ==> now[p].node == s[p].node
    ensures forall p, q :: 0 <= p < q < |s| ==> now[p].node <= now[q].node
  {
    hide Item, Bound, Sorted, AfterCut;
    forall p | 0 <= p < |s| ensures now[p].node == s[p].node {
      AfterCutNode(s, t.clusters, remaining, p);
    }
    forall p, q | 0 <= p < q < |s| ensures s[p].node <= s[q].node {
      NodesInOrder(s, p, q);
    }
  }

  lemma BoundByNodes(t: Task, s: seq<Edge>, now: seq<Edge>, remaining: seq<int>, k: nat, b: nat)
    requires Valid(t) && Arranged(t, s) && |remaining| == t.clusters && |now| == |s|
    requires CutUpTo(s, now, t.clusters, remaining, k) && Splits(now, k + 1, b)
    ensures b == Bound(s, k + 1)
  {
    hide Item, Bound, Sorted, CutUpTo;
    NodesKept(t, s, now, remaining, k);
    BoundSplits(s, k + 1);
    SplitsUnique(s, k + 1, b, Bound(s, k + 1));
  }

  lemma CutExtends(t: Task, s: seq<Edge>, now: seq<Edge>, next: seq<Edge>, remaining: seq<int>, k: nat)
    requires Valid(t) && Arranged(t, s) && |remaining| == t.clusters && |now| == |next| == |s| && k < t.clusters
    requires remaining[k] >= 0 && CutUpTo(s, now, t.clusters, remaining, k)
    requires forall p :: 0 <= p < |s| ==>
               next[p] == if Bound(s, k) + remaining[k] <= p < Bound(s, k + 1)
                          then now[p].(tonode := -1 - Row(now[p])) else now[p]
    ensures CutUpTo(s, next, t.clusters, remaining, k + 1)
  {
    hide Item, Bound, Arranged, AfterCut;
    ClusterSpan(t, s, k);
    forall p | 0 <= p < |s|
      ensures next[p] == if p < Bound(s, k + 1) then AfterCut(s, t.clusters, remaining, p) else s[p]
    {
      if Bound(s, k) <= p < Bound(s, k + 1) {
        CutInside(t, s, remaining, k, p);
      }
    }
  }

  lemma CutEnds(t: Task, s: seq<Edge>, now: seq<Edge>, remaining: seq<int>)
    requires Valid(t) && Arranged(t, s) && |remaining| == t.clusters && |now| == |s|
    requires CutUpTo(s, now, t.clusters, remaining, t.clusters)
    ensures forall p :: 0 <= p < |s| ==> now[p] == AfterCut(s, t.clusters, remaining, p)
  {
    hide Item, Bound, Arranged, AfterCut;
    forall p | 0 <= p < |s| ensures now[p] == AfterCut(s, t.clusters, remaining, p) {
      if p >= Bound(s, t.clusters) {
        CutBeyond(t, s, remaining, p);
      }
    }
  }

  lemma StartsAtZero(t: Task, s: seq<Edge>)
    requires Valid(t) && Arranged(t, s)
    ensures Bound(s, 0) == 0
  {
    hide Item, Bound, Sorted;
    BoundSplits(s, 0);
    if |s| > 0 {
      ItemOf(t, Row(s[0]));
    }
  }

  lemma AfterCutNode(s: seq<Edge>, clusters: nat, remaining: seq<int>, p: nat)
    requires p < |s| && |remaining| == clusters
    ensures AfterCut(s, clusters, remaining, p).node == s[p].node
  {
  }

  lemma ClusterSpan(t: Task, s: seq<Edge>, k: nat)
    requires Valid(t) && Arranged(t, s) && k < t.clusters
    ensures Bound(s, k) <= Bound(s, k + 1) <= |s|
    ensures forall p :: Bound(s, k) <= p < Bound(s, k + 1) ==> s[p].node == k && s[p].tonode >= 0
  {
    hide Bound, Item, Sorted;
    BoundSplits(s, k);
    BoundSplits(s, k + 1);
    BoundsInOrder(s, k);
    forall p | Bound(s, k) <= p < Bound(s, k + 1) ensures s[p].node == k && s[p].tonode >= 0 {
      ItemOf(t, Row(s[p]));
    }
  }

  lemma CutInside(t: Task, s: seq<Edge>, remaining: seq<int>, k: nat, p: nat)
    requires Valid(t) && Arranged(t, s) && k < t.clusters && |remaining| == t.clusters
    requires Bound(s, k) <= p < Bound(s, k + 1)
    ensures AfterCut(s, t.clusters, remaining, p)
         == if p < Bound(s, k) + remaining[k] then s[p] else s[p].(tonode := -1 - Row(s[p]))
  {
    hide Bound, Item, Sorted;
    ClusterSpan(t, s, k);
  }

  lemma CutBeyond(t: Task, s: seq<Edge>, remaining: seq<int>, p: nat)
    requires Valid(t) && Arranged(t, s) && |remaining| == t.clusters && Bound(s, t.clusters) <= p < |s|
    ensures AfterCut(s, t.clusters, remaining, p) == s[p]
  {
    hide Bound, Item, Sorted;
    BoundSplits(s, t.clusters);
    ItemOf(t, Row(s[p]));
  }

  // ---- Writing labels and counts ----

  /** The label a position leaves in its row. */
  ghost function PosLabel(s: seq<Edge>, clusters: nat, remaining: seq<int>, p: nat): int
    requires p < |s| && |remaining| == clusters
  {
    if KeptAt(s, clusters, remaining, p) then s[p].node else UNASSIGNED
  }

  /** One label row after its column was written, and the later columns cleared by `fill`. */
  ghost function Written(row: seq<int>, column: nat, value: int, fill: bool): (r: seq<int>)
    ensures |r| == |row|
  {
    seq(|row|, c requires 0 <= c < |row| =>
      if c == column then value else if fill && c > column then UNASSIGNED else row[c])
  }

  ghost predicate LabelsDone(s: seq<Edge>, clusters: nat, remaining: seq<int>, column: nat, fill: bool,
                             before: seq<seq<int>>, now: seq<seq<int>>, cur: int)
    requires |remaining| == clusters
  {
    && |now| == |before|
    && forall p :: 0 <= p < |s| ==>
         && 0 <= Row(s[p]) < |now|
         && now[Row(s[p])] == if p < cur
                              then Written(before[Row(s[p])], column, PosLabel(s, clusters, remaining, p), fill)
                              else before[Row(s[p])]
  }

  lemma LabelStep(t: Task, s: seq<Edge>, remaining: seq<int>, fill: bool,
                  before: seq<seq<int>>, now: seq<seq<int>>, cur: nat)
    requires Valid(t) && Arranged(t, s) && |remaining| == t.clusters && cur < |s|
    requires LabelsDone(s, t.clusters, remaining, t.column, fill, before, now, cur)
    ensures 0 <= Row(s[cur]) < |now| && now[Row(s[cur])] == before[Row(s[cur])]
    ensures var row := Written(before[Row(s[cur])], t.column, PosLabel(s, t.clusters, remaining, cur), fill);
            LabelsDone(s, t.clusters, remaining, t.column, fill, before, now[Row(s[cur]) := row], cur + 1)
  {
    hide Arranged, Written, PosLabel;
    forall p | 0 <= p < |s| && p != cur ensures Row(s[p]) != Row(s[cur]) {
      RowsDiffer(t, s, p, cur);
    }
  }

  /** How many of the first `cur` positions are kept by cluster `k`. */
  ghost function PosCount(s: seq<Edge>, clusters: nat, remaining: seq<int>, k: int, cur: nat): nat
    requires cur <= |s| && |remaining| == clusters
  {
    if cur == 0 then 0
    else PosCount(s, clusters, remaining, k, cur - 1)
         + (if s[cur - 1].node == k && KeptAt(s, clusters, remaining, cur - 1) then 1 else 0)
  }

  ghost predicate CountsDone(s: seq<Edge>, clusters: nat, remaining: seq<int>,
                             base: seq<seq<int>>, now: seq<seq<int>>, cur: nat)
    requires |remaining| == clusters && cur <= |s|
  {
    && |now| == |base| && Rectangular(base, clusters) && Rectangular(now, clusters)
    && forall k :: 0 <= k < clusters ==>
         Cumulative(now, k, |now|) == Cumulative(base, k, |base|) + PosCount(s, clusters, remaining, k, cur)
  }

  lemma CountStep(s: seq<Edge>, clusters: nat, remaining: seq<int>,
                  base: seq<seq<int>>, now: seq<seq<int>>, cur: nat, tid: nat)
    requires |remaining| == clusters && cur < |s| && tid < |now|
    requires CountsDone(s, clusters, remaining, base, now, cur)
    ensures var node := s[cur].node;
            var next := if KeptAt(s, clusters, remaining, cur)
                        then now[tid := now[tid][node := now[tid][node] + 1]] else now;
            CountsDone(s, clusters, remaining, base, next, cur + 1)
  {
    hide Cumulative, Bound;
    if KeptAt(s, clusters, remaining, cur) {
      forall k | 0 <= k < clusters {
        CumulativeBump(now, clusters, tid, s[cur].node, k, |now|);
      }
    }
  }

  /** Clears the columns after `column`. */
  method FillTail(labels: array<seq<int>>, row: nat, column: nat)
    requires row < labels.Length && column < |labels[row]|
    modifies labels
    ensures forall r :: 0 <= r < labels.Length && r != row ==> labels[r] == old(labels[r])
    ensures |labels[row]| == |old(labels[row])|
    ensures forall c :: 0 <= c < |labels[row]| ==>
              labels[row][c] == if c > column then UNASSIGNED else old(labels[row])[c]
  {
    var k := column + 1;
    while k < |labels[row]|
      invariant column < k && |labels[row]| == |old(labels[row])|
      invariant forall r :: 0 <= r < labels.Length && r != row ==> labels[r] == old(labels[r])
      invariant forall c :: 0 <= c < |labels[row]| ==>
                  labels[row][c] == if column < c < k then UNASSIGNED else old(labels[row])[c]
    {
      labels[row] := labels[row][k := UNASSIGNED];
      k := k + 1;
    }
  }

  /** One item of the second phase: label its row, count it, or decode and mark it. */
  method WriteItem(t: Task, items: array<Edge>, i: nat, tid: nat, newCounts: array<seq<int>>,
                   labels: array<seq<int>>, fill: bool, ghost s: seq<Edge>, ghost remaining: seq<int>)
    requires Valid(t) && |remaining| == t.clusters && |s| == items.Length && i < |s| && tid < newCounts.Length
    requires items[i] == AfterCut(s, t.clusters, remaining, i)
    requires KeptAt(s, t.clusters, remaining, i) ==> s[i].tonode >= 0
    requires 0 <= Row(s[i]) < labels.Length && t.column < |labels[Row(s[i])]|
    requires Rectangular(newCounts[..], t.clusters) && newCounts != labels
    modifies items, newCounts, labels
    ensures forall p :: 0 <= p < items.Length && p != i ==> items[p] == old(items[p])
    ensures labels[..] == old(labels[..])[Row(s[i]) :=
              Written(old(labels[Row(s[i])]), t.column, PosLabel(s, t.clusters, remaining, i), fill)]
    ensures newCounts[..] == (if KeptAt(s, t.clusters, remaining, i)
              then old(newCounts[..])[tid := old(newCounts[tid])[s[i].node := old(newCounts[tid])[s[i].node] + 1]]
              else old(newCounts[..]))
  {
    hide Valid, Bound;
    ghost var row := labels[Row(s[i])];
    if items[i].tonode >= 0 {
      labels[items[i].tonode] := labels[items[i].tonode][t.column := items[i].node];
      newCounts[tid] := newCounts[tid][items[i].node := newCounts[tid][items[i].node] + 1];
    } else {
      items[i] := items[i].(tonode := -1 - items[i].tonode);
      labels[items[i].tonode] := labels[items[i].tonode][t.column := UNASSIGNED];
    }
    if fill {
      FillTail(labels, items[i].tonode, t.column);
    }
    assert labels[Row(s[i])] == Written(row, t.column, PosLabel(s, t.clusters, remaining, i), fill);
  }

  /** Second phase: every thread writes the labels of its slice of the sorted list. */
  method WriteLabels(t: Task, items: array<Edge>, threads: nat, newCounts: array<seq<int>>,
                     labels: array<seq<int>>, fill: bool, ghost s: seq<Edge>, ghost remaining: seq<int>)
    requires Valid(t) && Arranged(t, s) && |remaining| == t.clusters && |s| == items.Length
    requires threads >= 1 && newCounts.Length == threads && Rectangular(newCounts[..], t.clusters)
    requires labels.Length == |t.dist| && forall r :: 0 <= r < labels.Length ==> t.column < |labels[r]|
    requires newCounts != labels
    requires forall p :: 0 <= p < items.Length ==> items[p] == AfterCut(s, t.clusters, remaining, p)
    modifies items, newCounts, labels
    ensures LabelsDone(s, t.clusters, remaining, t.column, fill, old(labels[..]), labels[..], |s|)
    ensures CountsDone(s, t.clusters, remaining, old(newCounts[..]), newCounts[..], |s|)
  {
    hide Valid, Arranged, AfterCut, KeptAt, PosCount, LabelsDone, CountsDone, Written, PosLabel, SliceSize, Cumulative;
    var n := items.Length;
    var subsize := SliceSize(n, threads);
    WritingStarts(t, s, remaining, fill, labels[..], newCounts[..]);
    ghost var cur := 0;
    var tid := 0;
    while tid < threads
      invariant 0 <= tid <= threads
      invariant cur == Min(tid * subsize, n)
      invariant forall p :: cur <= p < n ==> items[p] == AfterCut(s, t.clusters, remaining, p)
      invariant LabelsDone(s, t.clusters, remaining, t.column, fill, old(labels[..]), labels[..], cur)
      invariant CountsDone(s, t.clusters, remaining, old(newCounts[..]), newCounts[..], cur)
    {
      var istart := tid * subsize;
      var iend := Min((tid + 1) * subsize, n);
      assert (tid + 1) * subsize == istart + subsize;
      var i := istart;
      while i < iend
        invariant istart <= i && cur == Min(i, n) && (i <= iend || i == istart)
        invariant forall p :: cur <= p < n ==> items[p] == AfterCut(s, t.clusters, remaining, p)
        invariant LabelsDone(s, t.clusters, remaining, t.column, fill, old(labels[..]), labels[..], cur)
        invariant CountsDone(s, t.clusters, remaining, old(newCounts[..]), newCounts[..], cur)
      {
        LabelStep(t, s, remaining, fill, old(labels[..]), labels[..], i);
        CountStep(s, t.clusters, remaining, old(newCounts[..]), newCounts[..], i, tid);
        ReadyToWrite(t, s, remaining, old(newCounts[..]), newCounts[..], i);
        WriteItem(t, items, i, tid, newCounts, labels, fill, s, remaining);
        i := i + 1;
        cur := i;
      }
      tid := tid + 1;
    }
  }

  lemma WritingStarts(t: Task, s: seq<Edge>, remaining: seq<int>, fill: bool, labels: seq<seq<int>>, rows: seq<seq<int>>)
    requires Valid(t) && Arranged(t, s) && |remaining| == t.clusters && |labels| == |t.dist|
    requires Rectangular(rows, t.clusters)
    ensures LabelsDone(s, t.clusters, remaining, t.column, fill, labels, labels, 0)
    ensures CountsDone(s, t.clusters, remaining, rows, rows, 0)
  {
    hide Item, Sorted;
  }

  lemma ReadyToWrite(t: Task, s: seq<Edge>, remaining: seq<int>, base: seq<seq<int>>, rows: seq<seq<int>>, i: nat)
    requires Valid(t) && Arranged(t, s) && |remaining| == t.clusters && i < |s|
    requires CountsDone(s, t.clusters, remaining, base, rows, i)
    ensures Rectangular(rows, t.clusters) && |rows| == |base|
    ensures KeptAt(s, t.clusters, remaining, i) ==> s[i].tonode >= 0
    ensures 0 <= Row(s[i]) < |t.dist|
  {
    hide Sorted, Cumulative, PosCount, Item;
    ItemOf(t, Row(s[i]));
  }

  // ---- The whole call ----

  lemma {:induction false} PosCountIsInterval(t: Task, s: seq<Edge>, remaining: seq<int>, k: nat, cur: nat)
    requires Valid(t) && Arranged(t, s) && |remaining| == t.clusters && k < t.clusters && remaining[k] >= 0
    requires cur <= |s|
    ensures var a, m := Bound(s, k), Min(remaining[k], Bound(s, k + 1) - Bound(s, k));
            PosCount(s, t.clusters, remaining, k, cur) == Max(0, Min(cur - a, m))
  {
    hide Bound, Arranged;
    ClusterSpan(t, s, k);
    if cur > 0 {
      PosCountIsInterval(t, s, remaining, k, cur - 1);
      OnlyInSpan(t, s, k, cur - 1);
    }
  }

  lemma OnlyInSpan(t: Task, s: seq<Edge>, k: nat, p: nat)
    requires Valid(t) && Arranged(t, s) && k < t.clusters && p < |s|
    ensures s[p].node == k <==> Bound(s, k) <= p < Bound(s, k + 1)
  {
    hide Bound, Item, Sorted;
    BoundSplits(s, k);
    BoundSplits(s, k + 1);
  }

  /** The positions counted are as many as the rows the column gives to the cluster. */
  lemma CountsMembers(t: Task, s: seq<Edge>, remaining: seq<int>, k: nat)
    requires Valid(t) && Arranged(t, s) && |remaining| == t.clusters && k < t.clusters && remaining[k] >= 0
    ensures PosCount(s, t.clusters, remaining, k, |s|) == |Members(Column(t, remaining), k)|
    ensures |Members(Column(t, remaining), k)| == Min(remaining[k], |Nominees(t, k)|)
  {
    hide Bound, Arranged, Column, Members, PosCount, Nominees, Valid;
    PosCountIsInterval(t, s, remaining, k, |s|);
    NomineeCount(t, s, k);
    KeptCount(t, s, remaining, k);
    assert Bound(s, k) <= Bound(s, k + 1) <= |s| by { ClusterSpan(t, s, k); }
  }

  lemma LabelsAreColumn(t: Task, s: seq<Edge>, remaining: seq<int>, fill: bool,
                        before: seq<seq<int>>, now: seq<seq<int>>, i: nat)
    requires Valid(t) && Arranged(t, s) && |remaining| == t.clusters && |before| == |t.dist| && i < |before|
    requires LabelsDone(s, t.clusters, remaining, t.column, fill, before, now, |s|)
    ensures |now| == |before| && now[i] == Written(before[i], t.column, Column(t, remaining)[i], fill)
  {
    hide Sorted, Bound, Keeps, KeptAt, Written, Column, Item;
    assert Item(t, i) in s;
    var p :| 0 <= p < |s| && s[p] == Item(t, i);
    ItemOf(t, i);
    KeptMatches(t, s, remaining, p);
    LabelIs(t, remaining, i);
  }

  /** The limits left once the cumulative counts are taken off. */
  ghost function Remaining(limits: seq<int>, rows: seq<seq<int>>): (r: seq<int>)
    requires Rectangular(rows, |limits|)
    ensures |r| == |limits|
    ensures forall k :: 0 <= k < |r| ==> r[k] == limits[k] - Cumulative(rows, k, |rows|)
  {
    seq(|limits|, k requires 0 <= k < |limits| => limits[k] - Cumulative(rows, k, |rows|))
  }

  /** One call.  Its column and counts are those of `Column`, which knows nothing of
      threads; so they are the same for every thread number.  Each cluster gains exactly
      the smaller of its remaining limit and its nominees. */
  method HardMultipleClustersAssign(t: Task, threads: nat, limit: array<int>, newCounts: array<seq<int>>,
                                    counts: array<int>, labels: array<seq<int>>, fill: bool)
    requires Valid(t) && threads >= 1
    requires limit.Length == counts.Length == t.clusters && limit != counts
    requires newCounts.Length == threads && Rectangular(newCounts[..], t.clusters) && newCounts != labels
    requires labels.Length == |t.dist| && forall r :: 0 <= r < labels.Length ==> t.column < |labels[r]|
    requires forall k :: 0 <= k < t.clusters ==> limit[k] >= Cumulative(newCounts[..], k, threads)
    modifies limit, newCounts, counts, labels
    ensures Rectangular(newCounts[..], t.clusters)
    ensures limit[..] == Remaining(old(limit[..]), old(newCounts[..]))
    ensures forall i :: 0 <= i < labels.Length ==>
              labels[i] == Written(old(labels[i]), t.column, Column(t, limit[..])[i], fill)
    ensures forall k :: 0 <= k < t.clusters ==>
              && counts[k] == Cumulative(newCounts[..], k, threads)
              && counts[k] == Cumulative(old(newCounts[..]), k, threads) + |Members(Column(t, limit[..]), k)|
              && |Members(Column(t, limit[..]), k)| == Min(limit[k], |Nominees(t, k)|)
  {
    hide Arranged, AfterCut, LabelsDone, Members, Column, Written, Nominees, Cumulative, PosCount, Valid;
    ghost var rows := newCounts[..];
    var items := new Edge[|t.dist|](_ => Edge(MAX_SIZE, MAX_DIST, MAX_SIZE));
    FillItems(t, threads, items);
    SortItems(t, items);
    ghost var s := items[..];
    SubtractCounts(limit, newCounts, t.clusters);
    ghost var remaining := limit[..];
    assert remaining == Remaining(old(limit[..]), rows);
    CutClusters(t, items, limit);
    ghost var before := labels[..];
    WriteLabels(t, items, threads, newCounts, labels, fill, s, remaining);
    forall i | 0 <= i < labels.Length
      ensures labels[i] == Written(before[i], t.column, Column(t, remaining)[i], fill)
    {
      LabelsAreColumn(t, s, remaining, fill, before, labels[..], i);
    }
    SumCounts(counts, newCounts, t.clusters);
    forall k | 0 <= k < t.clusters
      ensures counts[k] == Cumulative(rows, k, threads) + |Members(Column(t, remaining), k)|
      ensures |Members(Column(t, remaining), k)| == Min(remaining[k], |Nominees(t, k)|)
    {
      CountsMembers(t, s, remaining, k);
    }
  }
}
