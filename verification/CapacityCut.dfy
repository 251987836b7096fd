/** What one capacity-limited assignment of a column must compute, stated without
    threads, sorting or sign encoding: every row nominates its c-th nearest centre, and a
    centre keeps the nearest nominees up to its remaining limit. */
module CapacityCut {
  import opened Common
  import opened Ordering

  // ---- Orders used by the assignment ----

  predicate EdgeLess(a: Edge, b: Edge) {
    if a.node == b.node then
      if a.distance == b.distance then a.tonode < b.tonode else a.distance < b.distance
    else a.node < b.node
  }

  lemma EdgeOrder()
    ensures StrictTotal(EdgeLess)
  {
  }

  datatype Near = Near(node: int, distance: real)

  predicate NearLess(a: Near, b: Near) {
    a.distance < b.distance || (a.distance == b.distance && a.node < b.node)
  }

  lemma NearOrder()
    ensures StrictTotal(NearLess)
  {
  }

  const MAX_SIZE: int := 0x7fff_ffff
  const MAX_DIST: real := 34028234663852885981170418348451692544.0

  /** Largest value of the 16-bit label type: "no cluster in this column". */
  const UNASSIGNED: int := 32767

  // ---- Nominations ----

  /** One call: distances of the local rows to the centres, the column to fill, and the
      closure factor. */
  datatype Task = Task(dist: seq<seq<real>>, clusters: nat, column: nat, closure: real)

  ghost predicate Valid(t: Task) {
    && t.column < t.clusters <= UNASSIGNED
    && forall i :: 0 <= i < |t.dist| ==> |t.dist[i]| == t.clusters
  }

  function Pairs(d: seq<real>): (s: seq<Near>)
    ensures |s| == |d| && Distinct(s)
  {
    seq(|d|, k requires 0 <= k < |d| => Near(k, d[k]))
  }

  /** Centres by distance, ties by index. */
  function Nearest(d: seq<real>): (s: seq<Near>)
    ensures |s| == |d| && Sorted(s, NearLess) && Distinct(s)
    ensures forall x :: x in s ==> 0 <= x.node < |d| && x.distance == d[x.node]
  {
    NearOrder();
    SortFacts(Pairs(d), NearLess);
    var s := Sort(Pairs(d), NearLess);
    assert forall x :: x in s ==> x in Pairs(d);
    s
  }

  lemma NearestMembers(d: seq<real>)
    ensures forall x :: x in Nearest(d) <==> x in Pairs(d)
  {
    NearOrder();
    SortFacts(Pairs(d), NearLess);
  }

  /** Position c really is the c-th nearest centre: c centres come before it. */
  lemma NearestRank(d: seq<real>, c: nat)
    requires c < |d|
    ensures |set x | x in Pairs(d) && NearLess(x, Nearest(d)[c])| == c
  {
    hide Nearest, Pairs, NearLess, StrictTotal;
    var s := Nearest(d);
    NearOrder();
    NearestMembers(d);
    DistinctSize(s[..c]);
    forall x ensures x in s[..c] <==> x in Pairs(d) && NearLess(x, s[c]) {
      BeforeIsLess(s, NearLess, c, x);
    }
    assert Elements(s[..c]) == set x | x in Pairs(d) && NearLess(x, s[c]);
  }

  /** Different columns never nominate the same centre for a row. */
  lemma NearestInjective(d: seq<real>, a: nat, b: nat)
    requires a < |d| && b < |d| && a != b
    ensures Nearest(d)[a].node != Nearest(d)[b].node
  {
    hide Nearest;
    var s := Nearest(d);
    assert s[a] in s && s[b] in s;
    if a < b {
      assert s[a] != s[b];
    } else {
      assert s[b] != s[a];
    }
  }

  /** The item a row contributes: its nomination, or a sentinel with the row index encoded
      as a negative number when the centre is too far away. */
  function Item(t: Task, i: nat): (e: Edge)
    requires Valid(t) && i < |t.dist|
    ensures e.tonode >= 0 <==> e.node < t.clusters
    ensures e.node < t.clusters ==> 0 <= e.node && e.tonode == i
    ensures e.node >= t.clusters ==> e.node == MAX_SIZE && e.tonode == -1 - i
  {
    var near := Nearest(t.dist[i]);
    assert near[t.column] in near;
    if near[t.column].distance <= near[0].distance * t.closure
    then Edge(near[t.column].node, near[t.column].distance, i)
    else Edge(MAX_SIZE, MAX_DIST, -1 - i)
  }

  // ---- The capacity cut, stated directly ----

  /** Row `j` goes before row `i` in the same cluster: nearer, or equally near and earlier. */
  ghost predicate Ahead(t: Task, j: nat, i: nat)
    requires Valid(t) && j < |t.dist| && i < |t.dist|
  {
    var a, b := Item(t, j), Item(t, i);
    a.node == b.node && (a.distance < b.distance || (a.distance == b.distance && j < i))
  }

  ghost function RowsAhead(t: Task, i: nat): set<int>
    requires Valid(t) && i < |t.dist|
  {
    set j: int | 0 <= j < |t.dist| && Ahead(t, j, i)
  }

  ghost function Nominees(t: Task, k: nat): set<int>
    requires Valid(t)
  {
    set j: int | 0 <= j < |t.dist| && Item(t, j).node == k
  }

  ghost predicate Keeps(t: Task, remaining: seq<int>, i: nat)
    requires Valid(t) && i < |t.dist| && |remaining| == t.clusters
  {
    Item(t, i).node < t.clusters && |RowsAhead(t, i)| < remaining[Item(t, i).node]
  }

  ghost function Label(t: Task, remaining: seq<int>, i: nat): int
    requires Valid(t) && i < |t.dist| && |remaining| == t.clusters
  {
    if Keeps(t, remaining, i) then Item(t, i).node else UNASSIGNED
  }

  /** The column the assignment must write. */
  ghost function Column(t: Task, remaining: seq<int>): (col: seq<int>)
    requires Valid(t) && |remaining| == t.clusters
    ensures |col| == |t.dist|
    ensures forall i :: 0 <= i < |col| ==> col[i] == Label(t, remaining, i)
  {
    seq(|t.dist|, i requires 0 <= i < |t.dist| => Label(t, remaining, i))
  }

  ghost function Members(col: seq<int>, k: int): set<int> {
    set i | 0 <= i < |col| && col[i] == k
  }

  // ---- The same from the distances alone ----

  /** Centre a comes before centre b: nearer, or equally near and with a smaller index. */
  predicate Nearer(d: seq<real>, a: int, b: int)
    requires 0 <= a < |d| && 0 <= b < |d|
  {
    d[a] < d[b] || (d[a] == d[b] && a < b)
  }

  /** How many centres come before centre n. */
  ghost function NearerCount(d: seq<real>, n: int): nat
    requires 0 <= n < |d|
  {
    |set a: int | 0 <= a < |d| && Nearer(d, a, n)|
  }

  /** Row i offers itself to centre n in this column: exactly `column` centres come before n, and n is no farther than
      the closure allows, measured against every centre. */
  ghost predicate Offers(t: Task, i: nat, n: int)
    requires Valid(t) && i < |t.dist|
  {
    && 0 <= n < t.clusters && NearerCount(t.dist[i], n) == t.column
    && forall a :: 0 <= a < t.clusters && IsNearest(t.dist[i], a) ==> t.dist[i][n] <= Reach(t.dist[i][a], t.closure)
  }

  /** How far the closure factor lets a row go beyond its nearest centre. */
  function Reach(least: real, closure: real): real {
    least * closure
  }

  ghost predicate IsNearest(d: seq<real>, a: int)
    requires 0 <= a < |d|
  {
    forall b :: 0 <= b < |d| ==> d[a] <= d[b]
  }

  ghost function NearerTo(d: seq<real>, n: int, m: nat): set<int>
    requires 0 <= n < |d| && m <= |d|
  {
    set a: int | 0 <= a < m && Nearer(d, a, n)
  }

  ghost function PairsTo(d: seq<real>, n: int, m: nat): set<Near>
    requires 0 <= n < |d| && m <= |d|
  {
    set a: int | 0 <= a < m && Nearer(d, a, n) :: Near(a, d[a])
  }

  lemma OneMoreCentre(d: seq<real>, n: int, m: nat)
    requires 0 <= n < |d| && m < |d|
    ensures |NearerTo(d, n, m + 1)| == |NearerTo(d, n, m)| + if Nearer(d, m, n) then 1 else 0
  {
    hide Nearer;
    assert NearerTo(d, n, m + 1) == if Nearer(d, m, n) then NearerTo(d, n, m) + {m} else NearerTo(d, n, m);
  }

  lemma OneMorePair(d: seq<real>, n: int, m: nat)
    requires 0 <= n < |d| && m < |d|
    ensures |PairsTo(d, n, m + 1)| == |PairsTo(d, n, m)| + if Nearer(d, m, n) then 1 else 0
  {
    hide Nearer;
    var pairs := PairsTo(d, n, m);
    assert Near(m, d[m]) !in pairs;
    assert PairsTo(d, n, m + 1) == if Nearer(d, m, n) then pairs + {Near(m, d[m])} else pairs;
  }

  lemma {:induction false} SameSize(d: seq<real>, n: int, m: nat)
    requires 0 <= n < |d| && m <= |d|
    ensures |PairsTo(d, n, m)| == |NearerTo(d, n, m)|
  {
    if m == 0 {
      assert NearerTo(d, n, m) == {} && PairsTo(d, n, m) == {};
    } else {
      hide PairsTo, NearerTo, Nearer;
      SameSize(d, n, m - 1);
      OneMoreCentre(d, n, m - 1);
      OneMorePair(d, n, m - 1);
    }
  }

  /** Counting pairs is counting centres. */
  lemma CountPairs(d: seq<real>, n: int)
    requires 0 <= n < |d|
    ensures |set x | x in Pairs(d) && NearLess(x, Near(n, d[n]))| == NearerCount(d, n)
  {
    SameSize(d, n, |d|);
    PairsAre(d);
    assert NearerCount(d, n) == |NearerTo(d, n, |d|)|;
    assert (set x | x in Pairs(d) && NearLess(x, Near(n, d[n]))) == PairsTo(d, n, |d|);
  }

  lemma PairsAre(d: seq<real>)
    ensures forall x :: x in Pairs(d) <==> 0 <= x.node < |d| && x.distance == d[x.node]
  {
    forall x: Near | 0 <= x.node < |d| && x.distance == d[x.node] ensures x in Pairs(d) {
      assert Pairs(d)[x.node] == x;
    }
  }

  /** Position c of the ranking is the centre with c centres before it. */
  lemma RankingByCount(d: seq<real>, n: int)
    requires 0 <= n < |d|
    ensures NearerCount(d, n) < |d| && Nearest(d)[NearerCount(d, n)] == Near(n, d[n])
  {
    hide Nearest, Pairs, NearLess, NearerCount;
    PairsAre(d);
    NearestMembers(d);
    assert Near(n, d[n]) in Nearest(d);
    var p :| 0 <= p < |d| && Nearest(d)[p] == Near(n, d[n]);
    NearestRank(d, p);
    CountPairs(d, n);
  }

  lemma FirstIsNearest(d: seq<real>)
    requires |d| > 0
    ensures 0 <= Nearest(d)[0].node < |d| && Nearest(d)[0].distance == d[Nearest(d)[0].node]
    ensures IsNearest(d, Nearest(d)[0].node)
    ensures forall a :: 0 <= a < |d| && IsNearest(d, a) ==> d[a] == Nearest(d)[0].distance
  {
    hide Nearest, Pairs, NearerCount;
    var s := Nearest(d);
    assert s[0] in s;
    forall b | 0 <= b < |d| ensures s[0].distance <= d[b] {
      RankingByCount(d, b);
      var p := NearerCount(d, b);
      assert p > 0 ==> NearLess(s[0], s[p]);
    }
  }

  /** Some centre has exactly c centres before it. */
  lemma CountExists(d: seq<real>, c: nat) returns (n: int)
    requires c < |d|
    ensures 0 <= n < |d| && NearerCount(d, n) == c
  {
    hide Nearest, Pairs, NearLess, NearerCount;
    var s := Nearest(d);
    assert s[c] in s;
    n := s[c].node;
    RankingByCount(d, n);
    SamePlace(s, NearerCount(d, n), c);
  }

  lemma SamePlace(s: seq<Near>, p: nat, c: nat)
    requires Distinct(s) && p < |s| && c < |s| && s[p] == s[c]
    ensures p == c
  {
  }

  /** What a row contributes, from its distances alone: the centre it offers itself to, with that distance, and otherwise
      the sentinel. */
  lemma ItemByDistance(t: Task, i: nat, n: int)
    requires Valid(t) && i < |t.dist|
    ensures Offers(t, i, n) ==> Item(t, i) == Edge(n, t.dist[i][n], i)
    ensures Item(t, i).node == n && n < t.clusters ==> Offers(t, i, n)
    ensures (forall m :: !Offers(t, i, m)) ==> Item(t, i) == Edge(MAX_SIZE, MAX_DIST, -1 - i)
  {
    hide Nearest, Pairs, NearerCount, Offers;
    var d := t.dist[i];
    var m := CountExists(d, t.column);
    RankingByCount(d, m);
    OffersBy(t, i, m);
    if Offers(t, i, n) {
      OfferCounts(t, i, n);
      RankingByCount(d, n);
    }
  }

  lemma OfferCounts(t: Task, i: nat, n: int)
    requires Valid(t) && i < |t.dist| && Offers(t, i, n)
    ensures 0 <= n < t.clusters && NearerCount(t.dist[i], n) == t.column
  {
  }

  lemma ReachIs(least: real, closure: real)
    ensures Reach(least, closure) == least * closure
  {
  }

  lemma OffersBy(t: Task, i: nat, n: int)
    requires Valid(t) && i < |t.dist| && 0 <= n < t.clusters && NearerCount(t.dist[i], n) == t.column
    ensures Offers(t, i, n) <==> t.dist[i][n] <= Nearest(t.dist[i])[0].distance * t.closure
  {
    hide Nearest, NearerCount, Reach, IsNearest;
    var d := t.dist[i];
    assert |d| == t.clusters;
    hide Valid;
    FirstIsNearest(d);
    ReachIs(Nearest(d)[0].distance, t.closure);
    var a := Nearest(d)[0].node;
    assert IsNearest(d, a);
  }

  /** The rows that offer themselves to a centre are its nominees. */
  lemma NomineesByDistance(t: Task, k: nat, j: int)
    requires Valid(t) && k < t.clusters
    ensures j in Nominees(t, k) <==> 0 <= j < |t.dist| && Offers(t, j, k)
  {
    hide Item, Offers;
    if 0 <= j < |t.dist| { ItemByDistance(t, j, k); }
  }

  /** The rows that offer themselves to centre k. */
  ghost function Candidates(t: Task, k: nat): set<int>
    requires Valid(t)
  {
    set j: int | 0 <= j < |t.dist| && Offers(t, j, k)
  }

  lemma NomineesOffer(t: Task, k: nat)
    requires Valid(t) && k < t.clusters
    ensures Nominees(t, k) == Candidates(t, k)
  {
    hide Item, Offers;
    forall j: int ensures j in Nominees(t, k) <==> j in Candidates(t, k) {
      NomineesByDistance(t, k, j);
    }
  }

  /** Rows that offer themselves to n and stand before row i: nearer to n, or equally near and earlier. */
  ghost function StandBefore(t: Task, i: nat, n: int): set<int>
    requires Valid(t) && i < |t.dist| && 0 <= n < t.clusters
  {
    set j: int | 0 <= j < |t.dist| && Offers(t, j, n)
      && (t.dist[j][n] < t.dist[i][n] || (t.dist[j][n] == t.dist[i][n] && j < i))
  }

  lemma AheadByDistance(t: Task, i: nat, n: int)
    requires Valid(t) && i < |t.dist| && Offers(t, i, n)
    ensures RowsAhead(t, i) == StandBefore(t, i, n)
  {
    hide Item, Offers;
    ItemByDistance(t, i, n);
    assert 0 <= n < t.clusters by { OfferInRange(t, i, n); }
    forall j: int ensures j in RowsAhead(t, i) <==> j in StandBefore(t, i, n) {
      if 0 <= j < |t.dist| { ItemByDistance(t, j, n); }
    }
  }

  lemma OfferInRange(t: Task, i: nat, n: int)
    requires Valid(t) && i < |t.dist| && Offers(t, i, n)
    ensures 0 <= n < t.clusters
  {
  }

  /** The label of a row, from the distances alone: it is n exactly when the row offers itself to n and fewer rows than n
      has room for stand before it; a row without such a centre is unassigned. */
  lemma LabelByDistance(t: Task, remaining: seq<int>, i: nat, n: int)
    requires Valid(t) && i < |t.dist| && |remaining| == t.clusters && 0 <= n < t.clusters
    ensures Label(t, remaining, i) == n <==> Offers(t, i, n) && |StandBefore(t, i, n)| < remaining[n]
    ensures Label(t, remaining, i) == UNASSIGNED || 0 <= Label(t, remaining, i) < t.clusters
  {
    hide Item, Offers, StandBefore, RowsAhead;
    ItemByDistance(t, i, n);
    ItemOf(t, i);
    if Offers(t, i, n) { AheadByDistance(t, i, n); }
  }

  // ---- Reading the cut off a sorted item list ----

  function Row(e: Edge): int {
    if e.tonode >= 0 then e.tonode else -1 - e.tonode
  }

  /** The rows at positions `a` up to `b`. */
  ghost function RowsIn(s: seq<Edge>, a: nat, b: nat): set<int>
    requires a <= b <= |s|
  {
    set p | a <= p < b :: Row(s[p])
  }

  /** `s` is the sorted list of all items. */
  ghost predicate Arranged(t: Task, s: seq<Edge>)
    requires Valid(t)
  {
    && |s| == |t.dist| && Sorted(s, EdgeLess)
    && (forall p :: 0 <= p < |s| ==> 0 <= Row(s[p]) < |t.dist| && s[p] == Item(t, Row(s[p])))
    && (forall i :: 0 <= i < |t.dist| ==> Item(t, i) in s)
  }

  /** First position whose node is at least `k`. */
  ghost function Bound(s: seq<Edge>, k: int): (b: nat)
    ensures b <= |s|
  {
    if s == [] then 0 else if s[|s| - 1].node < k then |s| else Bound(s[..|s| - 1], k)
  }

  ghost predicate Splits(s: seq<Edge>, k: int, b: int) {
    && 0 <= b <= |s|
    && (forall p :: 0 <= p < b ==> s[p].node < k)
    && (forall p :: b <= p < |s| ==> s[p].node >= k)
  }

  lemma {:induction false} BoundSplits(s: seq<Edge>, k: int)
    requires Sorted(s, EdgeLess)
    ensures Splits(s, k, Bound(s, k))
  {
    if s != [] && s[|s| - 1].node >= k {
      BoundSplits(s[..|s| - 1], k);
    } else if s != [] {
      forall p | 0 <= p < |s| ensures s[p].node < k {
        assert p < |s| - 1 ==> EdgeLess(s[p], s[|s| - 1]);
      }
    }
  }

  lemma SplitsUnique(s: seq<Edge>, k: int, a: int, b: int)
    requires Splits(s, k, a) && Splits(s, k, b)
    ensures a == b
  {
    var atA := if a < |s| then s[a].node else k;
    var atB := if b < |s| then s[b].node else k;
  }

  /** Distinct items belong to distinct rows. */
  lemma RowsDiffer(t: Task, s: seq<Edge>, p: nat, q: nat)
    requires Valid(t) && Arranged(t, s) && p < |s| && q < |s| && p != q
    ensures Row(s[p]) != Row(s[q])
  {
    hide Item;
    if p < q {
      assert EdgeLess(s[p], s[q]);
    } else {
      assert EdgeLess(s[q], s[p]);
    }
  }

  ghost predicate RowsApart(s: seq<Edge>) {
    forall p, q :: 0 <= p < q < |s| ==> Row(s[p]) != Row(s[q])
  }

  lemma {:induction false} ApartSize(s: seq<Edge>, a: nat, b: nat)
    requires RowsApart(s) && a <= b <= |s|
    ensures |RowsIn(s, a, b)| == b - a
    decreases b - a
  {
    if a < b {
      ApartSize(s, a, b - 1);
      assert RowsIn(s, a, b) == RowsIn(s, a, b - 1) + {Row(s[b - 1])};
    }
  }

  /** So an interval holds as many rows as positions. */
  lemma RowsInSize(t: Task, s: seq<Edge>, a: nat, b: nat)
    requires Valid(t) && Arranged(t, s) && a <= b <= |s|
    ensures |RowsIn(s, a, b)| == b - a
  {
    hide Arranged, Row, RowsIn;
    forall p, q | 0 <= p < q < |s| ensures Row(s[p]) != Row(s[q]) {
      RowsDiffer(t, s, p, q);
    }
    ApartSize(s, a, b);
  }

  /** The rows nominating `k` fill exactly the interval between two bounds. */
  lemma RowIn(t: Task, s: seq<Edge>, k: nat, j: int) returns (p: int)
    requires Valid(t) && Arranged(t, s) && k < t.clusters && 0 <= j < |t.dist| && Item(t, j).node == k
    ensures Bound(s, k) <= p < Bound(s, k + 1) && s[p] == Item(t, j) && Row(s[p]) == j
  {
    hide Bound;
    BoundSplits(s, k);
    BoundSplits(s, k + 1);
    p :| 0 <= p < |s| && s[p] == Item(t, j);
  }

  lemma BoundsInOrder(s: seq<Edge>, k: int)
    requires Sorted(s, EdgeLess)
    ensures Bound(s, k) <= Bound(s, k + 1)
  {
    hide Bound;
    BoundSplits(s, k);
    BoundSplits(s, k + 1);
    var b := Bound(s, k + 1);
    var atB := if b < |s| then s[b].node else k;
  }

  lemma NodesInOrder(s: seq<Edge>, q: nat, p: nat)
    requires Sorted(s, EdgeLess) && q < p < |s|
    ensures s[q].node <= s[p].node
  {
    assert EdgeLess(s[q], s[p]);
  }

  /** Distance from the start of its cluster is the number of rows ahead. */
  lemma OffsetIsRank(t: Task, s: seq<Edge>, p: nat)
    requires Valid(t) && Arranged(t, s) && p < |s| && s[p].node < t.clusters
    ensures 0 <= s[p].node && Bound(s, s[p].node) <= p < Bound(s, s[p].node + 1)
    ensures |RowsAhead(t, Row(s[p]))| == p - Bound(s, s[p].node)
  {
    hide Item, Bound, Sorted, Ahead;
    var i, k := Row(s[p]), s[p].node;
    ItemOf(t, i);
    BoundSplits(s, k);
    BoundSplits(s, k + 1);
    var b := Bound(s, k);
    RowsInSize(t, s, b, p);
    forall j: int ensures j in RowsIn(s, b, p) <==> j in RowsAhead(t, i) {
      if j in RowsIn(s, b, p) {
        var q :| b <= q < p && Row(s[q]) == j;
        NodesInOrder(s, q, p);
        AheadByPosition(t, s, q, p);
      }
      if j in RowsAhead(t, i) {
        AheadSharesNode(t, j, i);
        var q := RowIn(t, s, k, j);
        AheadBefore(t, s, q, p);
      }
    }
    assert RowsIn(s, b, p) == RowsAhead(t, i);
  }

  lemma AheadSharesNode(t: Task, j: nat, i: nat)
    requires Valid(t) && j < |t.dist| && i < |t.dist| && Ahead(t, j, i)
    ensures Item(t, j).node == Item(t, i).node
  {
  }

  lemma ItemOf(t: Task, i: nat)
    requires Valid(t) && i < |t.dist|
    ensures var e := Item(t, i);
            && (e.tonode >= 0 <==> e.node < t.clusters)
            && (e.node < t.clusters ==> 0 <= e.node && e.tonode == i)
            && (e.node >= t.clusters ==> e.node == MAX_SIZE && e.tonode == -1 - i)
  {
  }

  lemma AheadByPosition(t: Task, s: seq<Edge>, q: nat, p: nat)
    requires Valid(t) && Arranged(t, s) && q < p < |s| && s[q].node == s[p].node < t.clusters
    ensures Ahead(t, Row(s[q]), Row(s[p]))
  {
    hide Item;
    ItemOf(t, Row(s[q]));
    ItemOf(t, Row(s[p]));
    assert EdgeLess(s[q], s[p]);
  }

  lemma AheadBefore(t: Task, s: seq<Edge>, q: nat, p: nat)
    requires Valid(t) && Arranged(t, s) && q < |s| && p < |s| && s[p].node < t.clusters
    requires Ahead(t, Row(s[q]), Row(s[p]))
    ensures q < p
  {
    hide Item;
    ItemOf(t, Row(s[q]));
    ItemOf(t, Row(s[p]));
    assert EdgeLess(s[q], s[p]);
    if p <= q {
      assert p < q ==> EdgeLess(s[p], s[q]);
      EdgeOrder();
    }
  }

  /** A position is kept when it lies within its cluster's remaining limit. */
  ghost predicate KeptAt(s: seq<Edge>, clusters: nat, remaining: seq<int>, p: nat)
    requires p < |s| && |remaining| == clusters
  {
    0 <= s[p].node < clusters && p < Bound(s, s[p].node) + remaining[s[p].node]
  }

  lemma KeptMatches(t: Task, s: seq<Edge>, remaining: seq<int>, p: nat)
    requires Valid(t) && Arranged(t, s) && p < |s| && |remaining| == t.clusters
    ensures KeptAt(s, t.clusters, remaining, p) <==> Keeps(t, remaining, Row(s[p]))
  {
    hide Bound, RowsAhead;
    ItemOf(t, Row(s[p]));
    if s[p].node < t.clusters {
      OffsetIsRank(t, s, p);
    }
  }

  lemma KeptInside(t: Task, s: seq<Edge>, remaining: seq<int>, p: nat)
    requires Valid(t) && Arranged(t, s) && p < |s| && |remaining| == t.clusters && 0 <= s[p].node < t.clusters
    ensures p < Bound(s, s[p].node) + remaining[s[p].node] <==> Keeps(t, remaining, Row(s[p]))
  {
    hide Bound, Item, Keeps, Sorted;
    KeptMatches(t, s, remaining, p);
  }

  lemma NomineeCount(t: Task, s: seq<Edge>, k: nat)
    requires Valid(t) && Arranged(t, s) && k < t.clusters
    ensures |Nominees(t, k)| == Bound(s, k + 1) - Bound(s, k) >= 0
  {
    hide Bound, Item, Sorted;
    var a, b := Bound(s, k), Bound(s, k + 1);
    BoundsInOrder(s, k);
    BoundSplits(s, k);
    BoundSplits(s, k + 1);
    RowsInSize(t, s, a, b);
    forall j: int ensures j in Nominees(t, k) <==> j in RowsIn(s, a, b) {
      if j in Nominees(t, k) {
        var p := RowIn(t, s, k, j);
      }
    }
    assert Nominees(t, k) == RowsIn(s, a, b);
  }

  /** A member of a cluster sits early in the cluster's interval, and conversely. */
  lemma MemberPosition(t: Task, s: seq<Edge>, remaining: seq<int>, k: nat, j: int) returns (p: int)
    requires Valid(t) && Arranged(t, s) && |remaining| == t.clusters && k < t.clusters
    requires j in Members(Column(t, remaining), k)
    ensures Bound(s, k) <= p < Min(Bound(s, k) + remaining[k], Bound(s, k + 1)) && Row(s[p]) == j
  {
    hide Bound, Keeps, Column, Item, Sorted;
    LabelIs(t, remaining, j);
    p := RowIn(t, s, k, j);
    KeptInside(t, s, remaining, p);
  }

  lemma PositionMember(t: Task, s: seq<Edge>, remaining: seq<int>, k: nat, p: nat)
    requires Valid(t) && Arranged(t, s) && |remaining| == t.clusters && k < t.clusters
    requires Bound(s, k) <= p < Min(Bound(s, k) + remaining[k], Bound(s, k + 1))
    ensures Row(s[p]) in Members(Column(t, remaining), k)
  {
    hide Bound, Keeps, Column, Item, Sorted;
    BoundSplits(s, k);
    BoundSplits(s, k + 1);
    KeptInside(t, s, remaining, p);
    LabelIs(t, remaining, Row(s[p]));
  }

  /** Each cluster keeps exactly the smaller of its remaining limit and its nominees. */
  lemma KeptCount(t: Task, s: seq<Edge>, remaining: seq<int>, k: nat)
    requires Valid(t) && Arranged(t, s) && |remaining| == t.clusters && k < t.clusters && remaining[k] >= 0
    ensures |Members(Column(t, remaining), k)| == Min(remaining[k], |Nominees(t, k)|)
  {
    hide Bound, Column, Arranged, Members;
    NomineeCount(t, s, k);
    var a, m := Bound(s, k), Min(remaining[k], |Nominees(t, k)|);
    RowsInSize(t, s, a, a + m);
    var members := Members(Column(t, remaining), k);
    forall j: int ensures j in members <==> j in RowsIn(s, a, a + m) {
      if j in members {
        var p := MemberPosition(t, s, remaining, k, j);
      }
      if j in RowsIn(s, a, a + m) {
        var p :| a <= p < a + m && Row(s[p]) == j;
        PositionMember(t, s, remaining, k, p);
      }
    }
    assert members == RowsIn(s, a, a + m);
  }

  lemma LabelIs(t: Task, remaining: seq<int>, i: nat)
    requires Valid(t) && |remaining| == t.clusters && i < |t.dist|
    ensures Column(t, remaining)[i] == if Keeps(t, remaining, i) then Item(t, i).node else UNASSIGNED
    ensures Keeps(t, remaining, i) ==> 0 <= Item(t, i).node < t.clusters < UNASSIGNED + 1
  {
  }
}
