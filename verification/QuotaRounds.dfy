/** The quota protocol between ranks: after every column each rank's limits are rebuilt
    from its own counts and an equal share of the capacity the whole cluster has left. */
module QuotaRounds {
  import opened Common
  import opened Ordering
  import opened CapacityCut
  import opened HardAssign

  /** A whole run: the distances every rank holds, and the options all ranks share. */
  datatype Run = Run(data: seq<seq<seq<real>>>, clusters: nat, columns: nat, closure: real,
                     capacity: nat, hardcut: nat)

  ghost predicate Usable(run: Run) {
    && |run.data| >= 1 && 1 <= run.columns <= run.clusters <= UNASSIGNED
    && forall r, i :: 0 <= r < |run.data| && 0 <= i < |run.data[r]| ==> |run.data[r][i]| == run.clusters
  }

  /** What one rank holds between two columns. */
  datatype Rank = Rank(limit: seq<int>, cum: seq<int>, columns: seq<seq<int>>)

  function Quota(capacity: nat, counted: int, size: nat): (q: int)
    requires size >= 1
    ensures q >= 0
    ensures counted < capacity ==> size * q <= capacity - counted < size * (q + 1)
    ensures counted >= capacity ==> q == 0
  {
    if capacity > counted then
      Quotient(capacity - counted, size);
      (capacity - counted) / size
    else 0
  }

  lemma Quotient(a: nat, size: nat)
    requires size >= 1
    ensures a / size >= 0 && size * (a / size) <= a < size * (a / size + 1)
  {
    assert a == size * (a / size) + a % size;
  }

  /** What a rank may take of a cluster in the first column: all its rows, or with a hard cut an equal share of the cut
      capacity. */
  function InitialLimit(run: Run, rank: nat): (l: int)
    requires Usable(run) && rank < |run.data|
    ensures l >= 0
    ensures run.hardcut == 0 ==> l == |run.data[rank]|
    ensures run.hardcut >= 1 ==> |run.data| * l <= run.hardcut * run.capacity < |run.data| * (l + 1)
  {
    if run.hardcut == 0 then |run.data[rank]|
    else
      Quotient(run.hardcut * run.capacity, |run.data|);
      run.hardcut * run.capacity / |run.data|
  }

  function Constant(n: nat, v: int): (s: seq<int>)
    ensures |s| == n && forall k :: 0 <= k < n ==> s[k] == v
  {
    seq(n, _ => v)
  }

  ghost function Start(run: Run): (ranks: seq<Rank>)
    requires Usable(run)
    ensures |ranks| == |run.data|
  {
    seq(|run.data|, r requires 0 <= r < |run.data| =>
      Rank(Constant(run.clusters, InitialLimit(run, r)), Constant(run.clusters, 0), []))
  }

  function Work(run: Run, rank: nat, column: nat): (t: Task)
    requires Usable(run) && rank < |run.data| && column < run.columns
    ensures Valid(t) && t.dist == run.data[rank] && t.clusters == run.clusters && t.column == column && t.closure == run.closure
  {
    Task(run.data[rank], run.clusters, column, run.closure)
  }

  ghost predicate Shaped(run: Run, s: Rank) {
    |s.limit| == |s.cum| == run.clusters
  }

  ghost predicate AllShaped(run: Run, ranks: seq<Rank>) {
    |ranks| == |run.data| && forall r :: 0 <= r < |ranks| ==> Shaped(run, ranks[r])
  }

  ghost function Minus(a: seq<int>, b: seq<int>): (s: seq<int>)
    requires |a| == |b|
    ensures |s| == |a| && forall k :: 0 <= k < |a| ==> s[k] == a[k] - b[k]
  {
    seq(|a|, k requires 0 <= k < |a| => a[k] - b[k])
  }

  /** One rank assigns one column; its counts grow by what the column kept. */
  ghost function AssignLocal(run: Run, rank: nat, s: Rank, column: nat): (s': Rank)
    requires Usable(run) && rank < |run.data| && column < run.columns && Shaped(run, s)
    ensures Shaped(run, s')
  {
    var remaining := Minus(s.limit, s.cum);
    var col := Column(Work(run, rank, column), remaining);
    Rank(remaining, seq(run.clusters, k requires 0 <= k < run.clusters => s.cum[k] + |Members(col, k)|),
         s.columns + [col])
  }

  ghost function AssignAll(run: Run, ranks: seq<Rank>, column: nat): (next: seq<Rank>)
    requires Usable(run) && AllShaped(run, ranks) && column < run.columns
    ensures AllShaped(run, next)
    ensures forall r :: 0 <= r < |next| ==> next[r] == AssignLocal(run, r, ranks[r], column)
  {
    seq(|ranks|, r requires 0 <= r < |ranks| => AssignLocal(run, r, ranks[r], column))
  }

  /** The all-reduced count of a cluster over the first `n` ranks. */
  ghost function Global(ranks: seq<Rank>, k: nat, n: nat): int
    requires n <= |ranks| && forall r :: 0 <= r < |ranks| ==> k < |ranks[r].cum|
  {
    if n == 0 then 0 else Global(ranks, k, n - 1) + ranks[n - 1].cum[k]
  }

  ghost function Total(run: Run, ranks: seq<Rank>, k: nat): int
    requires AllShaped(run, ranks) && k < run.clusters
  {
    Global(ranks, k, |ranks|)
  }

  ghost function RefreshOne(run: Run, ranks: seq<Rank>, rank: nat): (s: Rank)
    requires Usable(run) && AllShaped(run, ranks) && rank < |ranks|
    ensures Shaped(run, s)
  {
    ranks[rank].(limit := seq(run.clusters, k requires 0 <= k < run.clusters =>
      ranks[rank].cum[k] + Quota(run.capacity, Total(run, ranks, k), |run.data|)))
  }

  ghost function Refresh(run: Run, ranks: seq<Rank>): (next: seq<Rank>)
    requires Usable(run) && AllShaped(run, ranks)
    ensures AllShaped(run, next)
    ensures forall r :: 0 <= r < |next| ==> next[r] == RefreshOne(run, ranks, r)
  {
    seq(|ranks|, r requires 0 <= r < |ranks| => RefreshOne(run, ranks, r))
  }

  /** All ranks after `n` columns.  (The refresh after the last column is not read.) */
  ghost function After(run: Run, n: nat): (ranks: seq<Rank>)
    requires Usable(run) && n <= run.columns
    ensures AllShaped(run, ranks)
  {
    if n == 0 then Start(run) else Refresh(run, AssignAll(run, After(run, n - 1), n - 1))
  }

  // ---- The loops of one rank ----

  /** Lines that rebuild the limits: copy the local counts, then add the share. */
  method RefreshLimits(limit: array<int>, local: seq<int>, global: seq<int>, capacity: nat, size: nat)
    requires limit.Length == |local| == |global| && size >= 1
    modifies limit
    ensures forall k :: 0 <= k < limit.Length ==> limit[k] == local[k] + Quota(capacity, global[k], size)
  {
    forall k | 0 <= k < limit.Length {
      limit[k] := local[k];
    }
    var k := 0;
    while k < limit.Length
      invariant 0 <= k <= limit.Length
      invariant forall j :: 0 <= j < limit.Length ==>
                  limit[j] == local[j] + if j < k then Quota(capacity, global[j], size) else 0
    {
      if capacity > global[k] {
        limit[k] := limit[k] + (capacity - global[k]) / size;
      }
      k := k + 1;
    }
  }

  /** One column on one rank, as the program runs it, is the step the protocol model takes. */
  method AssignColumn(run: Run, rank: nat, column: nat, threads: nat, limit: array<int>, newCounts: array<seq<int>>,
                      counts: array<int>, labels: array<seq<int>>, fill: bool, ghost s: Rank)
    requires Usable(run) && rank < |run.data| && column < run.columns && threads >= 1
    requires Shaped(run, s) && LimitsCover(s)
    requires limit[..] == s.limit && counts.Length == run.clusters && limit != counts
    requires newCounts.Length == threads && Rectangular(newCounts[..], run.clusters) && newCounts != labels
    requires forall k :: 0 <= k < run.clusters ==> Cumulative(newCounts[..], k, threads) == s.cum[k]
    requires labels.Length == |run.data[rank]| && forall r :: 0 <= r < labels.Length ==> |labels[r]| == run.columns
    modifies limit, newCounts, counts, labels
    ensures Rectangular(newCounts[..], run.clusters)
    ensures counts[..] == AssignLocal(run, rank, s, column).cum
    ensures forall k :: 0 <= k < run.clusters ==> Cumulative(newCounts[..], k, threads) == counts[k]
    ensures forall i :: 0 <= i < labels.Length ==>
              |labels[i]| == run.columns && labels[i][column] == AssignLocal(run, rank, s, column).columns[|s.columns|][i]
    ensures forall i, c :: 0 <= i < labels.Length && 0 <= c < column ==> labels[i][c] == old(labels[i])[c]
  {
    hide Column, Members, Cumulative, Usable, Nominees;
    ghost var rows := newCounts[..];
    HardMultipleClustersAssign(Work(run, rank, column), threads, limit, newCounts, counts, labels, fill);
    assert limit[..] == Minus(s.limit, s.cum);
  }

  // ---- Invariants over every run ----

  /** Some sorted item list exists, so the count of kept rows is always known. */
  lemma KeptAlways(t: Task, remaining: seq<int>, k: nat)
    requires Valid(t) && |remaining| == t.clusters && k < t.clusters && remaining[k] >= 0
    ensures |Members(Column(t, remaining), k)| == Min(remaining[k], |Nominees(t, k)|)
  {
    hide Item, Column, Members, Nominees, Sorted, Arranged;
    var all := seq(|t.dist|, i requires 0 <= i < |t.dist| => Item(t, i));
    EdgeOrder();
    assert Distinct(all) by {
      forall i, j | 0 <= i < j < |all| ensures all[i] != all[j] {
        ItemOf(t, i);
        ItemOf(t, j);
      }
    }
    SortFacts(all, EdgeLess);
    ArrangedBySort(t, all, Sort(all, EdgeLess));
    KeptCount(t, Sort(all, EdgeLess), remaining, k);
  }

  ghost predicate LimitsCover(s: Rank) {
    |s.limit| == |s.cum| && forall k :: 0 <= k < |s.cum| ==> 0 <= s.cum[k] <= s.limit[k]
  }

  /** One column adds between zero and the remaining limit, and never more than the nominees. */
  lemma LocalGrowth(run: Run, rank: nat, s: Rank, column: nat, k: nat)
    requires Usable(run) && rank < |run.data| && column < run.columns && Shaped(run, s)
    requires LimitsCover(s) && k < run.clusters
    ensures var s' := AssignLocal(run, rank, s, column);
            && s.cum[k] <= s'.cum[k]
            && s'.cum[k] - s.cum[k] == Min(s.limit[k] - s.cum[k], |Nominees(Work(run, rank, column), k)|)
  {
    hide Column, Members, Nominees;
    KeptAlways(Work(run, rank, column), Minus(s.limit, s.cum), k);
  }

  /** Every column starts with each local limit at least the local cumulative count. */
  lemma {:induction false} LimitsAlwaysCover(run: Run, n: nat, r: nat)
    requires Usable(run) && n <= run.columns && r < |run.data|
    ensures LimitsCover(After(run, n)[r])
  {
    hide Column, Members, Quota, AssignLocal, Total;
    if n == 0 {
      InitialLimitNonNegative(run, r);
    } else {
      var ranks := After(run, n - 1);
      LimitsAlwaysCover(run, n - 1, r);
      var next := AssignAll(run, ranks, n - 1);
      forall k | 0 <= k < run.clusters ensures next[r].cum[k] >= 0 {
        LocalGrowth(run, r, ranks[r], n - 1, k);
      }
      assert After(run, n)[r] == RefreshOne(run, next, r);
    }
  }

  lemma InitialLimitNonNegative(run: Run, r: nat)
    requires Usable(run) && r < |run.data|
    ensures InitialLimit(run, r) >= 0
  {
  }

  lemma {:induction false} SumGrowth(a: seq<Rank>, b: seq<Rank>, k: nat, q: int, n: nat)
    requires |a| == |b| && n <= |a|
    requires forall r :: 0 <= r < |a| ==> k < |a[r].cum| && k < |b[r].cum|
    requires forall r :: 0 <= r < n ==> 0 <= b[r].cum[k] - a[r].cum[k] <= q
    ensures 0 <= Global(b, k, n) - Global(a, k, n) <= n * q
  {
    if n > 0 {
      SumGrowth(a, b, k, q, n - 1);
      assert n * q == (n - 1) * q + q;
    }
  }

  lemma {:induction false} RefreshKeepsCounts(run: Run, ranks: seq<Rank>, k: nat, n: nat)
    requires Usable(run) && AllShaped(run, ranks) && k < run.clusters && n <= |ranks|
    ensures Global(Refresh(run, ranks), k, n) == Global(ranks, k, n)
  {
    if n > 0 {
      RefreshKeepsCounts(run, ranks, k, n - 1);
    }
  }

  /** If no rank has more than `q` left in a cluster, one column adds at most size * q to it. */
  lemma RoundGrowth(run: Run, n: nat, k: nat, q: int)
    requires Usable(run) && n < run.columns && k < run.clusters
    requires forall r :: 0 <= r < |run.data| ==> After(run, n)[r].limit[k] - After(run, n)[r].cum[k] <= q
    ensures 0 <= Total(run, After(run, n + 1), k) - Total(run, After(run, n), k) <= |run.data| * q
  {
    hide After, AssignLocal, Refresh, Nominees;
    var ranks := After(run, n);
    var next := AssignAll(run, ranks, n);
    forall r | 0 <= r < |ranks| ensures 0 <= next[r].cum[k] - ranks[r].cum[k] <= q {
      LimitsAlwaysCover(run, n, r);
      LocalGrowth(run, r, ranks[r], n, k);
    }
    SumGrowth(ranks, next, k, q, |ranks|);
    RefreshKeepsCounts(run, next, k, |ranks|);
    AfterStep(run, n);
  }

  lemma AfterStep(run: Run, n: nat)
    requires Usable(run) && n < run.columns
    ensures After(run, n + 1) == Refresh(run, AssignAll(run, After(run, n), n))
  {
  }

  /** From the second column on a rank's remaining limit is the equal share of what is left. */
  lemma RemainingIsShare(run: Run, n: nat, r: nat, k: nat)
    requires Usable(run) && 1 <= n <= run.columns && r < |run.data| && k < run.clusters
    ensures After(run, n)[r].limit[k] - After(run, n)[r].cum[k]
         == Quota(run.capacity, Total(run, After(run, n), k), |run.data|)
  {
    hide After, AssignAll, Quota, Refresh, Total;
    AfterStep(run, n - 1);
    RefreshShare(run, AssignAll(run, After(run, n - 1), n - 1), r, k);
  }

  lemma RefreshShare(run: Run, ranks: seq<Rank>, r: nat, k: nat)
    requires Usable(run) && AllShaped(run, ranks) && r < |run.data| && k < run.clusters
    ensures var next := Refresh(run, ranks);
            next[r].limit[k] - next[r].cum[k] == Quota(run.capacity, Total(run, next, k), |run.data|)
  {
    hide Quota, Usable;
    RefreshKeepsCounts(run, ranks, k, |ranks|);
  }

  /** After the first column a cluster at or over capacity never grows and one below it
      never passes it, whatever the first column did. */
  lemma NeverPassesCapacity(run: Run, n: nat, k: nat)
    requires Usable(run) && 1 <= n < run.columns && k < run.clusters
    ensures var before, after := Total(run, After(run, n), k), Total(run, After(run, n + 1), k);
            && before <= after
            && (before >= run.capacity ==> after == before)
            && (before < run.capacity ==> after <= run.capacity)
  {
    hide After, Quota, Total;
    var q := Quota(run.capacity, Total(run, After(run, n), k), |run.data|);
    forall r | 0 <= r < |run.data| ensures After(run, n)[r].limit[k] - After(run, n)[r].cum[k] <= q {
      RemainingIsShare(run, n, r, k);
    }
    RoundGrowth(run, n, k, q);
  }

  lemma {:induction false} StartIsZero(run: Run, k: nat, n: nat)
    requires Usable(run) && k < run.clusters && n <= |run.data|
    ensures Global(Start(run), k, n) == 0
  {
    if n > 0 {
      StartIsZero(run, k, n - 1);
    }
  }

  /** With a hard cut of h >= 1 no cluster ever holds more than h times the capacity; with
      a hard cut of 1 that is the capacity itself. */
  lemma {:induction false} HardCutBound(run: Run, n: nat, k: nat)
    requires Usable(run) && run.hardcut >= 1 && n <= run.columns && k < run.clusters
    ensures Total(run, After(run, n), k) <= run.hardcut * run.capacity
  {
    hide After, Quota;
    if n == 0 {
      AtStart(run, k);
    } else if n == 1 {
      AtStart(run, k);
      var q := InitialLimit(run, 0);
      RoundGrowth(run, 0, k, q);
      assert |run.data| * q <= run.hardcut * run.capacity;
    } else {
      HardCutBound(run, n - 1, k);
      NeverPassesCapacity(run, n - 1, k);
      assert run.capacity <= run.hardcut * run.capacity;
    }
  }

  lemma AtStart(run: Run, k: nat)
    requires Usable(run) && k < run.clusters
    ensures Total(run, After(run, 0), k) == 0
    ensures forall r :: 0 <= r < |run.data| ==>
              After(run, 0)[r].limit[k] == InitialLimit(run, r) && After(run, 0)[r].cum[k] == 0
  {
    StartIsZero(run, k, |run.data|);
  }

  /** Without a hard cut the first column drops nobody: each cluster gets all its nominees. */
  lemma SoftFirstColumn(run: Run, r: nat, k: nat)
    requires Usable(run) && run.hardcut == 0 && r < |run.data| && k < run.clusters
    ensures AssignLocal(run, r, After(run, 0)[r], 0).cum[k] == |Nominees(Work(run, r, 0), k)|
  {
    hide AssignLocal, After, Nominees;
    AtStart(run, k);
    LimitsAlwaysCover(run, 0, r);
    LocalGrowth(run, r, After(run, 0)[r], 0, k);
    NomineesAreRows(Work(run, r, 0), k);
  }

  lemma NomineesAreRows(t: Task, k: nat)
    requires Valid(t)
    ensures |Nominees(t, k)| <= |t.dist|
  {
    hide Item;
    var all := Indices(|t.dist|);
    assert Nominees(t, k) <= all;
    assert Nominees(t, k) + (all - Nominees(t, k)) == all;
  }

  // ---- The counts from the distances, the capacity and the number of ranks alone ----

  /** What rank r may take of cluster k in column c: in the first column its initial limit, later the quotient of what the
      cluster has left by the number of ranks. */
  ghost function Room(run: Run, c: nat, r: nat, k: nat): int
    requires Usable(run) && c < run.columns && r < |run.data| && k < run.clusters
    decreases c, 1, 0
  {
    if c == 0 then (if run.hardcut == 0 then |run.data[r]| else run.hardcut * run.capacity / |run.data|)
    else if Held(run, c, k) >= run.capacity then 0
    else (run.capacity - Held(run, c, k)) / |run.data|
  }

  /** What the first n ranks take of cluster k in column c: as much as there is room for and as many rows offer. */
  ghost function Gain(run: Run, c: nat, k: nat, n: nat): int
    requires Usable(run) && c < run.columns && k < run.clusters && n <= |run.data|
    decreases c, 2, n
  {
    if n == 0 then 0
    else Gain(run, c, k, n - 1) + Min(Room(run, c, n - 1, k), |Candidates(Work(run, n - 1, c), k)|)
  }

  /** What all ranks hold of cluster k after c columns. */
  ghost function Held(run: Run, c: nat, k: nat): int
    requires Usable(run) && c <= run.columns && k < run.clusters
    decreases c, 0, 0
  {
    if c == 0 then 0 else Held(run, c - 1, k) + Gain(run, c - 1, k, |run.data|)
  }

  /** The protocol leaves a rank exactly that room. */
  lemma RoomLeft(run: Run, c: nat, r: nat, k: nat)
    requires Usable(run) && c < run.columns && r < |run.data| && k < run.clusters
    requires Total(run, After(run, c), k) == Held(run, c, k)
    ensures After(run, c)[r].limit[k] - After(run, c)[r].cum[k] == Room(run, c, r, k)
  {
    hide After, Total, Held, Usable;
    if c == 0 {
      AtStart(run, k);
      FirstRoom(run, r);
    } else {
      RemainingIsShare(run, c, r, k);
      ShareIs(run.capacity, Held(run, c, k), |run.data|);
    }
  }

  lemma FirstRoom(run: Run, r: nat)
    requires Usable(run) && r < |run.data|
    ensures InitialLimit(run, r) == if run.hardcut == 0 then |run.data[r]| else run.hardcut * run.capacity / |run.data|
  {
  }

  lemma ShareIs(capacity: nat, counted: int, size: nat)
    requires size >= 1
    ensures Quota(capacity, counted, size) == if counted >= capacity then 0 else (capacity - counted) / size
  {
  }

  lemma GainOfRank(run: Run, c: nat, r: nat, k: nat)
    requires Usable(run) && c < run.columns && r < |run.data| && k < run.clusters
    requires Total(run, After(run, c), k) == Held(run, c, k)
    ensures AssignAll(run, After(run, c), c)[r].cum[k] - After(run, c)[r].cum[k]
         == Min(Room(run, c, r, k), |Candidates(Work(run, r, c), k)|)
  {
    hide After, AssignLocal, Nominees, Candidates, Room, Total, Held;
    var ranks := After(run, c);
    LimitsAlwaysCover(run, c, r);
    LocalGrowth(run, r, ranks[r], c, k);
    RoomLeft(run, c, r, k);
    NomineesOffer(Work(run, r, c), k);
  }

  lemma {:induction false} GainsAddUp(run: Run, c: nat, k: nat, n: nat, before: seq<Rank>, after: seq<Rank>)
    requires Usable(run) && c < run.columns && k < run.clusters && n <= |run.data|
    requires AllShaped(run, before) && AllShaped(run, after)
    requires forall r :: 0 <= r < |run.data| ==>
               after[r].cum[k] - before[r].cum[k] == Min(Room(run, c, r, k), |Candidates(Work(run, r, c), k)|)
    ensures Global(after, k, n) == Global(before, k, n) + Gain(run, c, k, n)
  {
    hide Candidates, Room, Held, Usable;
    if n > 0 {
      GainsAddUp(run, c, k, n - 1, before, after);
    }
  }

  lemma GainOfRanks(run: Run, c: nat, k: nat)
    requires Usable(run) && c < run.columns && k < run.clusters && Total(run, After(run, c), k) == Held(run, c, k)
    ensures Total(run, AssignAll(run, After(run, c), c), k) == Held(run, c, k) + Gain(run, c, k, |run.data|)
  {
    hide After, AssignAll, Candidates, Room, Held, Usable, Gain;
    var before, after := After(run, c), AssignAll(run, After(run, c), c);
    forall r | 0 <= r < |run.data|
      ensures after[r].cum[k] - before[r].cum[k] == Min(Room(run, c, r, k), |Candidates(Work(run, r, c), k)|)
    {
      GainOfRank(run, c, r, k);
    }
    GainsAddUp(run, c, k, |run.data|, before, after);
  }

  /** The reduced count of every cluster after every column is the one counted from the distances alone: a column adds, for
      every rank, the smaller of its room and the rows that offer themselves. */
  lemma {:induction false} HeldIsTotal(run: Run, c: nat, k: nat)
    requires Usable(run) && c <= run.columns && k < run.clusters
    ensures Total(run, After(run, c), k) == Held(run, c, k)
  {
    hide After, AssignAll, Refresh, Gain, Usable;
    if c == 0 {
      AtStart(run, k);
    } else {
      HeldIsTotal(run, c - 1, k);
      GainOfRanks(run, c - 1, k);
      RefreshKeepsCounts(run, AssignAll(run, After(run, c - 1), c - 1), k, |run.data|);
      AfterStep(run, c - 1);
    }
  }

  /** Row i of rank r is taken by cluster n in column c: it offers itself, and fewer rows than there is room for stand
      before it. */
  ghost predicate Takes(run: Run, c: nat, r: nat, i: nat, n: int)
    requires Usable(run) && c < run.columns && r < |run.data| && i < |run.data[r]|
  {
    && 0 <= n < run.clusters && Offers(Work(run, r, c), i, n)
    && |StandBefore(Work(run, r, c), i, n)| < Room(run, c, r, n)
  }

  /** The column a rank assigns labels exactly the rows that are taken. */
  lemma ColumnTakes(run: Run, c: nat, r: nat, i: nat, n: int)
    requires Usable(run) && c < run.columns && r < |run.data| && i < |run.data[r]| && 0 <= n < run.clusters
    ensures var s := After(run, c)[r];
            var col := AssignLocal(run, r, s, c).columns[|s.columns|];
            |col| == |run.data[r]| && (col[i] == n <==> Takes(run, c, r, i, n))
  {
    hide After, Offers, StandBefore, Room, Total, Held, Label, Members, Usable;
    var s := After(run, c)[r];
    HeldIsTotal(run, c, n);
    RoomLeft(run, c, r, n);
    var remaining := Minus(s.limit, s.cum);
    LabelByDistance(Work(run, r, c), remaining, i, n);
  }

  ghost function Indices(n: nat): (s: set<int>)
    ensures |s| == n && forall i :: i in s <==> 0 <= i < n
  {
    if n == 0 then {} else Indices(n - 1) + {n - 1}
  }
}
