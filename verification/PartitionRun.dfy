/** The whole partition as the ranks run it: every column on every rank's own memory, the reductions between them,
    and then the exchange of one cluster's vectors. */
module PartitionRun {
  import opened Common
  import opened CapacityCut
  import opened HardAssign
  import opened QuotaRounds
  import opened Exchange
  import Metadata

  /** What a rank, a process of its own, keeps in memory; `labels` is its label table by rows. */
  datatype Memory = Memory(limit: seq<int>, newCounts: seq<seq<int>>, counts: seq<int>, labels: seq<seq<int>>)

  /** The parts of a rank's memory that the next column relies on agree with the protocol's rank. */
  ghost predicate Agrees(run: Run, r: nat, threads: nat, m: Memory, s: Rank, n: nat)
    requires Usable(run) && r < |run.data|
  {
    && Shaped(run, s) && |s.columns| == n
    && |m.newCounts| == threads && Rectangular(m.newCounts, run.clusters)
    && (forall k :: 0 <= k < run.clusters ==> Cumulative(m.newCounts, k, threads) == s.cum[k])
    && |m.labels| == |run.data[r]| && Holds(m.labels, s.columns, n, run.columns)
  }

  /** One column on one rank, with arrays for the memory it updates in place. */
  method ColumnOnRank(run: Run, r: nat, column: nat, threads: nat, m: Memory, fill: bool, ghost s: Rank)
    returns (n: Memory)
    requires Usable(run) && r < |run.data| && column < run.columns && threads >= 1
    requires Agrees(run, r, threads, m, s, column) && LimitsCover(s) && m.limit == s.limit
    ensures Agrees(run, r, threads, n, AssignLocal(run, r, s, column), column + 1)
    ensures n.counts == AssignLocal(run, r, s, column).cum
  {
    hide Column, Members, Cumulative, AssignLocal, LimitsCover;
    var limit := new int[|m.limit|](i requires 0 <= i < |m.limit| => m.limit[i]);
    var newCounts := new seq<int>[threads](i requires 0 <= i < |m.newCounts| => m.newCounts[i]);
    var counts := new int[run.clusters](_ => 0);
    var labels := new seq<int>[|m.labels|](i requires 0 <= i < |m.labels| => m.labels[i]);
    assert limit[..] == m.limit && newCounts[..] == m.newCounts && labels[..] == m.labels;
    AssignColumn(run, r, column, threads, limit, newCounts, counts, labels, fill, s);
    n := Memory(limit[..], newCounts[..], counts[..], labels[..]);
    ColumnGrows(run, r, s, column);
    LabelsGrow(m.labels, n.labels, s.columns, AssignLocal(run, r, s, column).columns, column, run.columns);
  }

  lemma ColumnGrows(run: Run, r: nat, s: Rank, column: nat)
    requires Usable(run) && r < |run.data| && column < run.columns && Shaped(run, s)
    ensures var next := AssignLocal(run, r, s, column).columns;
            && |next| == |s.columns| + 1 && |next[|s.columns|]| == |run.data[r]|
            && next[..|s.columns|] == s.columns
  {
    hide Label;
  }

  lemma LabelsGrow(before: seq<seq<int>>, now: seq<seq<int>>, columns: seq<seq<int>>, next: seq<seq<int>>, c: nat, width: nat)
    requires Holds(before, columns, c, width) && |columns| == c < width && |now| == |before|
    requires |next| == c + 1 && next[..c] == columns && |next[c]| == |now|
    requires forall i :: 0 <= i < |now| ==> |now[i]| == width && now[i][c] == next[c][i]
    requires forall i, d :: 0 <= i < |now| && 0 <= d < c ==> now[i][d] == before[i][d]
    ensures Holds(now, next, c + 1, width)
  {
    forall d | 0 <= d < c ensures next[d] == columns[d] {
      assert next[..c][d] == columns[d];
    }
  }

  // ---- The reduction ----

  ghost function CountSum(ms: seq<Memory>, k: nat, n: nat): int
    requires n <= |ms| && forall r :: 0 <= r < |ms| ==> k < |ms[r].counts|
  {
    if n == 0 then 0 else CountSum(ms, k, n - 1) + ms[n - 1].counts[k]
  }

  /** MPI_Allreduce with a sum. */
  method AllReduce(ms: seq<Memory>, clusters: nat) returns (global: seq<int>)
    requires forall r :: 0 <= r < |ms| ==> |ms[r].counts| == clusters
    ensures |global| == clusters && forall k :: 0 <= k < clusters ==> global[k] == CountSum(ms, k, |ms|)
  {
    global := [];
    while |global| < clusters
      invariant |global| <= clusters
      invariant forall k :: 0 <= k < |global| ==> global[k] == CountSum(ms, k, |ms|)
    {
      var sum, r := 0, 0;
      while r < |ms|
        invariant 0 <= r <= |ms| && sum == CountSum(ms, |global|, r)
      {
        sum := sum + ms[r].counts[|global|];
        r := r + 1;
      }
      global := global + [sum];
    }
  }

  lemma {:induction false} SumIsGlobal(ms: seq<Memory>, ranks: seq<Rank>, k: nat, n: nat)
    requires n <= |ms| == |ranks|
    requires forall r :: 0 <= r < |ms| ==> ms[r].counts == ranks[r].cum && k < |ranks[r].cum|
    ensures CountSum(ms, k, n) == Global(ranks, k, n)
  {
    if n > 0 {
      SumIsGlobal(ms, ranks, k, n - 1);
    }
  }

  // ---- All columns ----

  /** All memories agree with the protocol's ranks. */
  ghost predicate AllAgree(run: Run, threads: seq<nat>, ms: seq<Memory>, ranks: seq<Rank>, n: nat)
    requires Usable(run)
  {
    && |threads| == |ms| == |ranks| == |run.data|
    && forall r :: 0 <= r < |ms| ==> Agrees(run, r, threads[r], ms[r], ranks[r], n)
  }

  ghost predicate LimitsAgree(ms: seq<Memory>, ranks: seq<Rank>) {
    |ms| == |ranks| && forall r :: 0 <= r < |ms| ==> ms[r].limit == ranks[r].limit
  }

  ghost predicate CountsAgree(ms: seq<Memory>, ranks: seq<Rank>) {
    |ms| == |ranks| && forall r :: 0 <= r < |ms| ==> ms[r].counts == ranks[r].cum
  }

  method ColumnOnAll(run: Run, column: nat, threads: seq<nat>, ms: seq<Memory>, fill: bool) returns (ns: seq<Memory>)
    requires Usable(run) && column < run.columns && forall r :: 0 <= r < |threads| ==> threads[r] >= 1
    requires AllAgree(run, threads, ms, After(run, column), column) && LimitsAgree(ms, After(run, column))
    ensures AllAgree(run, threads, ns, AssignAll(run, After(run, column), column), column + 1)
    ensures CountsAgree(ns, AssignAll(run, After(run, column), column))
  {
    hide After, AssignLocal, Agrees, LimitsCover, Usable;
    ghost var ranks := After(run, column);
    ghost var next := AssignAll(run, ranks, column);
    ns := [];
    while |ns| < |ms|
      invariant |ns| <= |ms|
      invariant forall r :: 0 <= r < |ns| ==>
                  Agrees(run, r, threads[r], ns[r], next[r], column + 1) && ns[r].counts == next[r].cum
    {
      var r := |ns|;
      LimitsAlwaysCover(run, column, r);
      var n := ColumnOnRank(run, r, column, threads[r], ms[r], fill, ranks[r]);
      ns := ns + [n];
    }
  }

  /** New limits on every rank, from the reduced counts. */
  method RefreshAll(run: Run, column: nat, threads: seq<nat>, ms: seq<Memory>, global: seq<int>, ghost ranks: seq<Rank>)
    returns (ns: seq<Memory>)
    requires Usable(run) && AllShaped(run, ranks) && AllAgree(run, threads, ms, ranks, column) && CountsAgree(ms, ranks)
    requires |global| == run.clusters && forall k :: 0 <= k < |global| ==> global[k] == Total(run, ranks, k)
    ensures AllAgree(run, threads, ns, Refresh(run, ranks), column) && LimitsAgree(ns, Refresh(run, ranks))
    ensures CountsAgree(ns, Refresh(run, ranks))
  {
    hide Total, Quota, Holds, Cumulative, Rectangular;
    ghost var next := Refresh(run, ranks);
    ns := [];
    while |ns| < |ms|
      invariant |ns| <= |ms|
      invariant forall r :: 0 <= r < |ns| ==>
                  Agrees(run, r, threads[r], ns[r], next[r], column) && ns[r].counts == next[r].cum && ns[r].limit == next[r].limit
    {
      var m := ms[|ns|];
      var limit := new int[run.clusters](_ => 0);
      RefreshLimits(limit, m.counts, global, run.capacity, |run.data|);
      assert limit[..] == next[|ns|].limit;
      ns := ns + [m.(limit := limit[..])];
    }
  }

  lemma {:induction false} ZeroCounts(rows: seq<seq<int>>, k: nat, n: nat, clusters: nat)
    requires Rectangular(rows, clusters) && k < clusters && n <= |rows|
    requires forall t, c :: 0 <= t < |rows| && 0 <= c < clusters ==> rows[t][c] == 0
    ensures Cumulative(rows, k, n) == 0
  {
    if n > 0 { ZeroCounts(rows, k, n - 1, clusters); }
  }

  method StartRank(run: Run, r: nat, threads: nat) returns (m: Memory)
    requires Usable(run) && r < |run.data|
    ensures Agrees(run, r, threads, m, After(run, 0)[r], 0) && m.limit == After(run, 0)[r].limit
    ensures m.counts == After(run, 0)[r].cum
  {
    var zero := Constant(run.clusters, 0);
    var newCounts := seq(threads, _ => zero);
    m := Memory(Constant(run.clusters, InitialLimit(run, r)), newCounts, zero,
                seq(|run.data[r]|, _ => Constant(run.columns, 0)));
    forall k | 0 <= k < run.clusters ensures Cumulative(newCounts, k, threads) == 0 {
      ZeroCounts(newCounts, k, threads, run.clusters);
    }
  }

  method StartAll(run: Run, threads: seq<nat>) returns (ms: seq<Memory>)
    requires Usable(run) && |threads| == |run.data|
    ensures AllAgree(run, threads, ms, After(run, 0), 0) && LimitsAgree(ms, After(run, 0)) && CountsAgree(ms, After(run, 0))
  {
    hide After, Agrees, Usable;
    ms := [];
    while |ms| < |run.data|
      invariant |ms| <= |run.data|
      invariant forall r :: 0 <= r < |ms| ==>
                  && Agrees(run, r, threads[r], ms[r], After(run, 0)[r], 0) && ms[r].limit == After(run, 0)[r].limit
                  && ms[r].counts == After(run, 0)[r].cum
    {
      var m := StartRank(run, |ms|, threads[|ms|]);
      ms := ms + [m];
    }
  }

  /** The reduced counts are those of the protocol. */
  ghost predicate IsReduced(run: Run, global: seq<int>)
    requires Usable(run)
  {
    |global| == run.clusters && forall k :: 0 <= k < run.clusters ==> global[k] == Total(run, After(run, run.columns), k)
  }

  lemma ReducedAt(run: Run, global: seq<int>, k: nat)
    requires Usable(run) && IsReduced(run, global) && k < run.clusters
    ensures |global| == run.clusters && global[k] == Total(run, After(run, run.columns), k)
  {
    hide Total, After;
  }

  /** The rounds: the label tables, local counts and reduced counts the program ends with are those of the protocol, for
      any number of threads on each rank. */
  method RunColumns(run: Run, threads: seq<nat>) returns (ms: seq<Memory>, global: seq<int>)
    requires Usable(run) && |threads| == |run.data| && forall r :: 0 <= r < |threads| ==> threads[r] >= 1
    ensures AllAgree(run, threads, ms, After(run, run.columns), run.columns)
    ensures CountsAgree(ms, After(run, run.columns))
    ensures IsReduced(run, global)
  {
    hide After, AssignAll, Refresh, AllAgree, LimitsAgree, CountsAgree, Total;
    ms := StartAll(run, threads);
    var i := 0;
    while i < run.columns - 1
      invariant 0 <= i <= run.columns - 1
      invariant AllAgree(run, threads, ms, After(run, i), i) && LimitsAgree(ms, After(run, i))
    {
      ms := ColumnOnAll(run, i, threads, ms, false);
      ghost var next := AssignAll(run, After(run, i), i);
      global := ReduceCounts(run, ms, next);
      AfterStep(run, i);
      ms := RefreshAll(run, i + 1, threads, ms, global, next);
      i := i + 1;
    }
    // The last column also clears the label columns after it; no limits are rebuilt.
    ms := ColumnOnAll(run, i, threads, ms, true);
    ghost var last := AssignAll(run, After(run, i), i);
    global := ReduceCounts(run, ms, last);
    AfterStep(run, i);
    LimitsDoNotMatter(run, threads, ms, last, run.columns);
    forall k | 0 <= k < run.clusters ensures global[k] == Total(run, After(run, run.columns), k) {
      TotalKept(run, last, k);
    }
  }

  lemma LimitsDoNotMatter(run: Run, threads: seq<nat>, ms: seq<Memory>, ranks: seq<Rank>, n: nat)
    requires Usable(run) && AllShaped(run, ranks) && AllAgree(run, threads, ms, ranks, n) && CountsAgree(ms, ranks)
    ensures AllAgree(run, threads, ms, Refresh(run, ranks), n) && CountsAgree(ms, Refresh(run, ranks))
  {
    hide Total, Quota, Holds, Cumulative, Rectangular;
  }

  method ReduceCounts(run: Run, ms: seq<Memory>, ghost ranks: seq<Rank>) returns (global: seq<int>)
    requires AllShaped(run, ranks) && CountsAgree(ms, ranks)
    ensures |global| == run.clusters && forall k :: 0 <= k < run.clusters ==> global[k] == Total(run, ranks, k)
  {
    global := AllReduce(ms, run.clusters);
    forall k | 0 <= k < run.clusters ensures global[k] == Total(run, ranks, k) {
      SumIsGlobal(ms, ranks, k, |ms|);
    }
  }

  lemma TotalKept(run: Run, ranks: seq<Rank>, k: nat)
    requires Usable(run) && AllShaped(run, ranks) && k < run.clusters
    ensures Total(run, Refresh(run, ranks), k) == Total(run, ranks, k)
  {
    RefreshKeepsCounts(run, ranks, k, |ranks|);
  }

  // ---- The exchange ----

  ghost function SendsOf(run: Run, k: nat): (sends: seq<seq<int>>)
    requires Usable(run)
    ensures |sends| == |run.data| && forall r :: 0 <= r < |sends| ==> sends[r] == RankSends(run, r, k)
  {
    seq(|run.data|, r requires 0 <= r < |run.data| => RankSends(run, r, k))
  }

  /** A rank's label table is the table of its final columns. */
  lemma FinalTable(run: Run, r: nat, threads: nat, m: Memory, k: nat)
    requires Usable(run) && r < |run.data| && Agrees(run, r, threads, m, After(run, run.columns)[r], run.columns)
    ensures |m.labels| == |run.data[r]| && Rect(After(run, run.columns)[r].columns, |m.labels|)
    ensures Tabulates(m.labels, After(run, run.columns)[r].columns)
    ensures Sends(After(run, run.columns)[r].columns, k, |m.labels|, |m.labels|) == RankSends(run, r, k)
  {
    hide After, Sends, Usable;
    ColumnsAreRect(run, run.columns, r);
  }

  /** What every other rank queues for the owner of cluster k, behind what is queued already. */
  method SendAll(run: Run, k: nat, owner: nat, threads: seq<nat>, ms: seq<Memory>, metas: seq<Metas>, stale: seq<seq<Msg>>)
    returns (queues: seq<seq<Msg>>)
    requires Usable(run) && k < run.clusters && owner < |run.data| == |metas| == |stale|
    requires AllAgree(run, threads, ms, After(run, run.columns), run.columns) && CountsAgree(ms, After(run, run.columns))
    ensures |queues| == |run.data| && queues[owner] == stale[owner]
    ensures forall j :: 0 <= j < |queues| && j != owner ==>
              queues[j] == stale[j] + Stream(After(run, run.columns)[j].cum[k], RankSends(run, j, k), metas[j])
  {
    hide After, Agrees, Stream, RankSends, Usable, Tabulates;
    queues := [];
    while |queues| < |run.data|
      invariant |queues| <= |run.data|
      invariant owner < |queues| ==> queues[owner] == stale[owner]
      invariant forall j :: 0 <= j < |queues| && j != owner ==>
                  queues[j] == stale[j] + Stream(After(run, run.columns)[j].cum[k], RankSends(run, j, k), metas[j])
    {
      var j := |queues|;
      var queue := stale[j];
      if j != owner {
        FinalTable(run, j, threads[j], ms[j], k);
        var sent := SendCluster(ms[j].counts[k], ms[j].labels, k, metas[j], After(run, run.columns)[j].columns);
        queue := queue + sent;
      }
      queues := queues + [queue];
    }
  }

  /** The rank that writes the files of cluster k. */
  function Owner(run: Run, k: nat): (o: nat)
    requires |run.data| >= 1
    ensures o < |run.data|
  {
    k % |run.data|
  }

  /** Every rank has nothing for cluster k, or carries metadata exactly when the owner of k does. */
  ghost predicate Tuned(run: Run, metas: seq<Metas>, k: nat)
    requires Usable(run) && |metas| == |run.data|
  {
    AllInTune(SendsOf(run, k), metas, metas[Owner(run, k)].Metas?)
  }

  /** No rank makes the owner of cluster k wait for metadata that never comes. */
  ghost predicate Passable(run: Run, metas: seq<Metas>, k: nat)
    requires Usable(run) && |metas| == |run.data|
  {
    AllPassable(SendsOf(run, k), metas, metas[Owner(run, k)].Metas?)
  }

  /** What the owner of cluster k stores, if it gets through. */
  ghost function Stored(run: Run, metas: seq<Metas>, k: nat): Files
    requires Usable(run) && |metas| == |run.data| && k < run.clusters
  {
    Gathered(Files(Total(run, After(run, run.columns), k), [], [], []), SendsOf(run, k), metas, metas[Owner(run, k)].Metas?, |metas|)
  }

  /** An owner's queues before and after a cluster: nothing queued earlier was read. */
  ghost predicate Grown(stale: seq<seq<Msg>>, rests: seq<seq<Msg>>, own: bool) {
    |rests| == |stale| && AllStale(rests, own) && forall j :: 0 <= j < |rests| && rests[j] == [] ==> stale[j] == []
  }

  /** The exchange of one cluster after the rounds, on the owner's queues.  It gets through exactly when no rank makes it
      wait, and leaves the queues as they were exactly when every rank that has something to send agrees with it on
      carrying metadata. */
  method ExchangeCluster(run: Run, k: nat, threads: seq<nat>, ms: seq<Memory>, global: seq<int>, metas: seq<Metas>,
                         stale: seq<seq<Msg>>)
    returns (ok: bool, files: Files, rests: seq<seq<Msg>>)
    requires Usable(run) && k < run.clusters && |metas| == |run.data| == |stale|
    requires AllStale(stale, metas[Owner(run, k)].Metas?)
    requires AllAgree(run, threads, ms, After(run, run.columns), run.columns) && CountsAgree(ms, After(run, run.columns))
    requires |global| == run.clusters && global[k] == Total(run, After(run, run.columns), k)
    ensures ok <==> Passable(run, metas, k)
    ensures ok ==> Grown(stale, rests, metas[Owner(run, k)].Metas?)
    ensures ok && rests == stale <==> Tuned(run, metas, k)
    ensures ok ==> files == Stored(run, metas, k) && files.header == |files.vectors|
  {
    assert |run.data| >= 1;
    hide After, Agrees, RankSends, Usable, Total, Gathered, Tabulates, AllStale, AllInTune, AllPassable, Sends, Rect, Owner;
    var owner := Owner(run, k);
    ghost var sends := SendsOf(run, k);
    var queues := SendAll(run, k, owner, threads, ms, metas, stale);
    ExchangeAgreement(run, k, sends, metas, metas[owner].Metas?);
    FinalTable(run, owner, threads[owner], ms[owner], k);
    ok, files, rests := GatherCluster(global[k], k, owner, queues, metas[owner], ms[owner].labels, stale,
                                      After(run, run.columns)[owner].columns, sends, metas);
  }

  // ---- All clusters ----

  /** The queues between all pairs of ranks: left[o][j] holds what rank j sent to owner o and o did not read. */
  ghost predicate LeftOk(left: seq<seq<seq<Msg>>>, metas: seq<Metas>) {
    |left| == |metas| && forall o :: 0 <= o < |left| ==> |left[o]| == |metas| && AllStale(left[o], metas[o].Metas?)
  }

  ghost predicate Drained(left: seq<seq<seq<Msg>>>) {
    forall o, j :: 0 <= o < |left| && 0 <= j < |left[o]| ==> left[o][j] == []
  }

  /** For all of the first n clusters. */
  ghost predicate TunedBelow(run: Run, metas: seq<Metas>, n: nat)
    requires Usable(run) && |metas| == |run.data|
  {
    forall k :: 0 <= k < n ==> Tuned(run, metas, k)
  }

  ghost predicate PassableBelow(run: Run, metas: seq<Metas>, n: nat)
    requires Usable(run) && |metas| == |run.data|
  {
    forall k :: 0 <= k < n ==> Passable(run, metas, k)
  }

  ghost predicate StoredAll(run: Run, metas: seq<Metas>, files: seq<Files>)
    requires Usable(run) && |metas| == |run.data| && |files| <= run.clusters
  {
    forall k :: 0 <= k < |files| ==> files[k] == Stored(run, metas, k) && files[k].header == |files[k].vectors|
  }

  lemma BelowStep(run: Run, metas: seq<Metas>, n: nat)
    requires Usable(run) && |metas| == |run.data|
    ensures TunedBelow(run, metas, n + 1) <==> TunedBelow(run, metas, n) && Tuned(run, metas, n)
    ensures PassableBelow(run, metas, n + 1) <==> PassableBelow(run, metas, n) && Passable(run, metas, n)
    ensures n < run.clusters && !Passable(run, metas, n) ==>
              !PassableBelow(run, metas, run.clusters) && !TunedBelow(run, metas, run.clusters)
  {
    hide Tuned, Passable, Usable;
    if n < run.clusters && !Passable(run, metas, n) && Tuned(run, metas, n) { TunedPasses(run, metas, n); }
  }

  lemma StoredStep(run: Run, metas: seq<Metas>, files: seq<Files>, file: Files)
    requires Usable(run) && |metas| == |run.data| && |files| < run.clusters && StoredAll(run, metas, files)
    requires file == Stored(run, metas, |files|) && file.header == |file.vectors|
    ensures StoredAll(run, metas, files + [file])
  {
    hide Stored, Usable;
  }

  lemma QueuesStep(left: seq<seq<seq<Msg>>>, metas: seq<Metas>, o: nat, rests: seq<seq<Msg>>, tuned: bool)
    requires LeftOk(left, metas) && o < |left| == |metas| && Grown(left[o], rests, metas[o].Metas?)
    requires rests == left[o] <==> tuned
    ensures LeftOk(left[o := rests], metas) && (Drained(left[o := rests]) <==> Drained(left) && tuned)
  {
    hide AllStale;
    var now := left[o := rests];
    if Drained(now) {
      assert |left[o]| == |rests|;
      assert forall j :: 0 <= j < |rests| ==> now[o][j] == [] && left[o][j] == [];
      assert rests == left[o];
      forall p, j | 0 <= p < |left| && 0 <= j < |left[p]| ensures left[p][j] == [] {
        assert now[p] == left[p] && now[p][j] == [];
      }
    }
    if Drained(left) && tuned {
      assert now == left;
    }
  }

  /** The exchange of one cluster on the queues between all ranks. */
  method OnSharedQueues(run: Run, k: nat, threads: seq<nat>, ms: seq<Memory>, global: seq<int>, metas: seq<Metas>,
                        left: seq<seq<seq<Msg>>>)
    returns (ok: bool, file: Files, now: seq<seq<seq<Msg>>>)
    requires Usable(run) && k < run.clusters && |metas| == |run.data| && LeftOk(left, metas) && IsReduced(run, global)
    requires AllAgree(run, threads, ms, After(run, run.columns), run.columns) && CountsAgree(ms, After(run, run.columns))
    ensures ok <==> Passable(run, metas, k)
    ensures ok ==> LeftOk(now, metas) && (Drained(now) <==> Drained(left) && Tuned(run, metas, k))
    ensures ok ==> file == Stored(run, metas, k) && file.header == |file.vectors|
    ensures !ok ==> !Tuned(run, metas, k)
  {
    assert |run.data| >= 1;
    hide After, AllAgree, CountsAgree, Usable, Total, Tuned, Passable, AllStale, LeftOk, Drained, Stored, Grown, Owner, IsReduced;
    var owner := Owner(run, k);
    OwnQueues(left, metas, owner);
    ReducedAt(run, global, k);
    var rests;
    ok, file, rests := ExchangeCluster(run, k, threads, ms, global, metas, left[owner]);
    now := left;
    if ok {
      QueuesStep(left, metas, owner, rests, Tuned(run, metas, k));
      now := left[owner := rests];
    }
  }

  /** The exchange of all clusters, one after the other, on queues shared by the clusters of an owner.  It gets through if
      and only if no owner waits for metadata that never comes; then every cluster's files are complete, with a right
      header, and the queues end empty if and only if the ranks agree wherever something is sent. */
  method ExchangeAll(run: Run, threads: seq<nat>, ms: seq<Memory>, global: seq<int>, metas: seq<Metas>)
    returns (ok: bool, files: seq<Files>, left: seq<seq<seq<Msg>>>)
    requires Usable(run) && |metas| == |run.data|
    requires AllAgree(run, threads, ms, After(run, run.columns), run.columns) && CountsAgree(ms, After(run, run.columns))
    requires IsReduced(run, global)
    ensures ok <==> PassableBelow(run, metas, run.clusters)
    ensures ok ==> |files| == run.clusters && StoredAll(run, metas, files)
    ensures ok && Drained(left) <==> TunedBelow(run, metas, run.clusters)
  {
    assert |run.data| >= 1;
    hide After, AllAgree, CountsAgree, Usable, Total, Tuned, Passable, AllStale, LeftOk, Drained, Stored, StoredAll,
         TunedBelow, PassableBelow, Grown, Owner, Stream, Without, IsReduced;
    ok, files := true, [];
    left := StartEmpty(metas);
    NoClustersYet(run, metas);
    var k := 0;
    while k < run.clusters
      invariant 0 <= k <= run.clusters && ok && |files| == k && LeftOk(left, metas)
      invariant PassableBelow(run, metas, k) && StoredAll(run, metas, files)
      invariant Drained(left) <==> TunedBelow(run, metas, k)
    {
      BelowStep(run, metas, k);
      var file;
      ok, file, left := OnSharedQueues(run, k, threads, ms, global, metas, left);
      if !ok { return; }
      StoredStep(run, metas, files, file);
      files := files + [file];
      k := k + 1;
    }
  }

  lemma NoClustersYet(run: Run, metas: seq<Metas>)
    requires Usable(run) && |metas| == |run.data|
    ensures PassableBelow(run, metas, 0) && TunedBelow(run, metas, 0) && StoredAll(run, metas, [])
  {
  }

  method StartEmpty(metas: seq<Metas>) returns (left: seq<seq<seq<Msg>>>)
    ensures Drained(left) && LeftOk(left, metas)
  {
    left := seq(|metas|, _ => seq(|metas|, _ => []));
  }

  lemma OwnQueues(left: seq<seq<seq<Msg>>>, metas: seq<Metas>, o: nat)
    requires LeftOk(left, metas) && o < |metas|
    ensures |left| == |metas| && |left[o]| == |metas| && AllStale(left[o], metas[o].Metas?)
  {
  }

  lemma TunedPasses(run: Run, metas: seq<Metas>, k: nat)
    requires Usable(run) && |metas| == |run.data| && Tuned(run, metas, k)
    ensures Passable(run, metas, k)
  {
    hide RankSends, SendsOf;
    var sends, own := SendsOf(run, k), metas[Owner(run, k)].Metas?;
    forall j | 0 <= j < |sends| ensures sends[j] == [] || !own || metas[j].Metas? {
      assert InTune(sends, metas, own, j);
    }
  }

  /** Rounds and exchange together.  Every cluster's file lists, by rank and row, exactly the vectors that the distances,
      the closure, the capacity and the number of ranks give it, and its header counts them; with a hard cut no file holds
      more than the hard cut times the capacity. */
  method PartitionAll(run: Run, threads: seq<nat>, metas: seq<Metas>)
    returns (ok: bool, files: seq<Files>, left: seq<seq<seq<Msg>>>)
    requires Usable(run) && |threads| == |metas| == |run.data|
    requires forall r :: 0 <= r < |threads| ==> threads[r] >= 1
    ensures ok <==> PassableBelow(run, metas, run.clusters)
    ensures ok ==> |files| == run.clusters && StoredAll(run, metas, files)
    ensures ok && Drained(left) <==> TunedBelow(run, metas, run.clusters)
    ensures ok ==> forall k :: 0 <= k < run.clusters ==> Lists(run, k, |run.data|, files[k].vectors)
    ensures ok ==> forall k :: 0 <= k < run.clusters ==> files[k].header == |files[k].vectors| == Held(run, run.columns, k)
    ensures ok && run.hardcut >= 1 ==> forall k :: 0 <= k < run.clusters ==> |files[k].vectors| <= run.hardcut * run.capacity
  {
    hide After, AllAgree, Usable, Total, TunedBelow, PassableBelow, Drained, Stored, Lists, Held, IsReduced;
    var ms, global := RunColumns(run, threads);
    ok, files, left := ExchangeAll(run, threads, ms, global, metas);
    if ok {
      forall k | 0 <= k < run.clusters
        ensures Lists(run, k, |run.data|, files[k].vectors)
        ensures files[k].header == |files[k].vectors| == Held(run, run.columns, k)
      {
        StoredLists(run, k, metas);
        HeaderIsTotal(run, k, metas);
        HeldIsTotal(run, run.columns, k);
      }
    }
    if ok && run.hardcut >= 1 {
      forall k | 0 <= k < run.clusters ensures |files[k].vectors| <= run.hardcut * run.capacity {
        HardCutBound(run, run.columns, k);
        HeaderIsTotal(run, k, metas);
      }
    }
  }

  lemma HeaderIsTotal(run: Run, k: nat, metas: seq<Metas>)
    requires Usable(run) && k < run.clusters && |metas| == |run.data|
    ensures Stored(run, metas, k).header == Total(run, After(run, run.columns), k)
  {
    hide RankSends, Gathered, After, Total;
    GatheredSize(run, k, Files(Total(run, After(run, run.columns), k), [], [], []), SendsOf(run, k), metas,
                 metas[Owner(run, k)].Metas?, |metas|);
  }

  lemma StoredLists(run: Run, k: nat, metas: seq<Metas>)
    requires Usable(run) && k < run.clusters && |metas| == |run.data|
    ensures Lists(run, k, |run.data|, Stored(run, metas, k).vectors)
  {
    hide RankSends, Gathered, After, Total, Lists;
    GatheredLists(run, k, Total(run, After(run, run.columns), k), SendsOf(run, k), metas, metas[Owner(run, k)].Metas?, |metas|);
  }

  // ---- The metadata index ----

  /** The offsets written, with the final one, cut the metadata file into the vectors' metadata, in file order. */
  ghost predicate IndexOk(f: Files, metas: seq<Metas>) {
    && |f.offsets| == |f.vectors| && Metadata.Cuts(f.offsets + [|f.meta|], f.meta)
    && forall i :: 0 <= i < |f.vectors| ==>
         && 0 <= f.vectors[i].0 < |metas| && metas[f.vectors[i].0].Metas?
         && Metadata.Cut(f.offsets + [|f.meta|], f.meta)[i] == metas[f.vectors[i].0].of(f.vectors[i].1)
  }

  lemma IndexGrows(f: Files, metas: seq<Metas>, rank: nat, row: int)
    requires IndexOk(f, metas) && rank < |metas| && metas[rank].Metas?
    ensures IndexOk(Append(f, rank, row, metas[rank]), metas)
  {
    hide Metadata.Cut, Metadata.Cuts;
    var table, blob := f.offsets + [|f.meta|], metas[rank].of(row);
    Metadata.CutExtends(table, f.meta, blob);
    var g := Append(f, rank, row, metas[rank]);
    assert g.offsets + [|g.meta|] == table + [table[|table| - 1] + |blob|];
  }

  lemma {:induction false} IndexGrowsByAll(f: Files, metas: seq<Metas>, rank: nat, rows: seq<int>)
    requires IndexOk(f, metas) && rank < |metas| && (rows != [] ==> metas[rank].Metas?)
    ensures IndexOk(AppendAll(f, rank, rows, metas[rank]), metas)
  {
    hide IndexOk, Append;
    if rows != [] {
      IndexGrowsByAll(f, metas, rank, rows[..|rows| - 1]);
      IndexGrows(AppendAll(f, rank, rows[..|rows| - 1], metas[rank]), metas, rank, rows[|rows| - 1]);
    }
  }

  /** When the owner has metadata and gets through, its three files belong together. */
  lemma {:induction false} GatheredIndex(header: int, sends: seq<seq<int>>, metas: seq<Metas>, n: nat)
    requires n <= |sends| == |metas| && forall j :: 0 <= j < n ==> sends[j] == [] || metas[j].Metas?
    ensures IndexOk(Gathered(Files(header, [], [], []), sends, metas, true, n), metas)
  {
    hide IndexOk, AppendAll;
    if n == 0 {
      EmptyIndex(header, metas);
    } else {
      GatheredIndex(header, sends, metas, n - 1);
      IndexGrowsByAll(Gathered(Files(header, [], [], []), sends, metas, true, n - 1), metas, n - 1, sends[n - 1]);
    }
  }

  lemma EmptyIndex(header: int, metas: seq<Metas>)
    ensures IndexOk(Files(header, [], [], []), metas)
  {
  }
}
