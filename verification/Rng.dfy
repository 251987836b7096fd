/**
 * Relative-neighbourhood pruning: the CPU form of ApproximateRNG in VectorIndex.cpp.
 *
 * Every vector gets a row of `replicas` slots.  Its search results are taken nearest first; one is kept
 * unless a result kept before it is so near that factor * distance is below the candidate's own distance.
 * Worker threads steal vector ids from a shared counter and write their rows in place.
 */
module Rng {
  import opened Common

  // One search result: the vector's id (-1 after the last one) and its distance to the target.
  datatype Found = Found(vid: int, dist: real)

  datatype Rule = Rule(factor: real, distance: (int, int) -> real, replicas: nat)

  datatype Job = Job(count: nat, results: nat -> seq<Found>, excluded: set<nat>, rule: Rule)

  // ---------------------------------------------------------------- the greedy list of one vector

  // The results before the first missing one.
  function Usable(found: seq<Found>): (u: seq<Found>)
    ensures |u| <= |found|
    ensures forall p :: 0 <= p < |u| ==> u[p] == found[p] && u[p].vid != -1
    ensures |u| < |found| ==> found[|u|].vid == -1
  {
    if found == [] || found[0].vid == -1 then [] else [found[0]] + Usable(found[1..])
  }

  // A kept neighbour `node` rules candidate c out.
  predicate TooNear(rule: Rule, node: int, c: Found) {
    rule.factor * rule.distance(c.vid, node) < c.dist
  }

  predicate Blocks(rule: Rule, kept: Found, c: Found) {
    TooNear(rule, kept.vid, c)
  }

  ghost predicate Blocked(rule: Rule, u: seq<Found>, picks: seq<nat>, p: nat)
    requires p < |u|
  {
    exists a :: 0 <= a < |picks| && picks[a] < |u| && Blocks(rule, u[picks[a]], u[p])
  }

  // The positions kept after looking at the first i results.
  ghost function Picks(rule: Rule, u: seq<Found>, i: nat): (r: seq<nat>)
    requires i <= |u|
    ensures |r| <= rule.replicas
    ensures forall a :: 0 <= a < |r| ==> r[a] < i
  {
    if i == 0 then []
    else
      var k := Picks(rule, u, i - 1);
      if |k| < rule.replicas && !Blocked(rule, u, k, i - 1) then k + [i - 1] else k
  }

  // How many of the first i results were refused.
  ghost function Refusals(rule: Rule, u: seq<Found>, i: nat): nat
    requires i <= |u|
  {
    if i == 0 then 0
    else
      var k := Picks(rule, u, i - 1);
      Refusals(rule, u, i - 1) + if |k| < rule.replicas && Blocked(rule, u, k, i - 1) then 1 else 0
  }

  // Result p is looked at: the row was not full before it.
  predicate InScope(rule: Rule, n: nat, picks: seq<nat>, p: nat) {
    p < n && (|picks| < rule.replicas || (picks != [] && p < picks[|picks| - 1]))
  }

  ghost predicate Increasing(picks: seq<nat>, n: nat) {
    (forall a :: 0 <= a < |picks| ==> picks[a] < n)
    && forall a, b :: 0 <= a < b < |picks| ==> picks[a] < picks[b]
  }

  ghost predicate PairsAllowed(rule: Rule, u: seq<Found>, picks: seq<nat>)
    requires Increasing(picks, |u|)
  {
    forall a, b :: 0 <= a < b < |picks| ==> !Blocks(rule, u[picks[a]], u[picks[b]])
  }

  ghost predicate HasWitness(rule: Rule, u: seq<Found>, picks: seq<nat>, p: nat)
    requires Increasing(picks, |u|) && p < |u|
  {
    exists a :: 0 <= a < |picks| && picks[a] < p && Blocks(rule, u[picks[a]], u[p])
  }

  // The neighbourhood property, said without the greedy pass: an increasing choice that fits the row, in which
  // no kept result blocks a later kept one and every result looked at and refused has an earlier kept witness.
  ghost predicate IsNeighbourhood(rule: Rule, u: seq<Found>, picks: seq<nat>) {
    Increasing(picks, |u|) && |picks| <= rule.replicas && PairsAllowed(rule, u, picks)
    && forall p: nat :: InScope(rule, |u|, picks, p) && p !in picks ==> HasWitness(rule, u, picks, p)
  }

  lemma {:induction false} PicksOrdered(rule: Rule, u: seq<Found>, i: nat)
    requires i <= |u|
    ensures Increasing(Picks(rule, u, i), i)
    ensures Increasing(Picks(rule, u, i), |u|) && PairsAllowed(rule, u, Picks(rule, u, i))
  {
    if i > 0 { PicksOrdered(rule, u, i - 1); }
  }

  lemma {:induction false} RefusedHaveWitness(rule: Rule, u: seq<Found>, i: nat, p: nat)
    requires p < i <= |u| && p !in Picks(rule, u, i) && InScope(rule, i, Picks(rule, u, i), p)
    ensures Increasing(Picks(rule, u, i), |u|) && HasWitness(rule, u, Picks(rule, u, i), p)
  {
    PicksOrdered(rule, u, i);
    PicksOrdered(rule, u, i - 1);
    var before, after := Picks(rule, u, i - 1), Picks(rule, u, i);
    assert after == before || after == before + [i - 1];
    if p < i - 1 {
      assert p !in before by { assert before == after[..|before|]; }
      RefusedHaveWitness(rule, u, i - 1, p);
      WitnessStays(rule, u, before, after, p);
    } else {
      assert after == before by {
        if after == before + [p] { assert false; }
      }
      assert Blocked(rule, u, before, p);
    }
  }

  lemma WitnessStays(rule: Rule, u: seq<Found>, before: seq<nat>, after: seq<nat>, p: nat)
    requires Increasing(before, |u|) && Increasing(after, |u|) && p < |u|
    requires |before| <= |after| && before == after[..|before|]
    requires HasWitness(rule, u, before, p)
    ensures HasWitness(rule, u, after, p)
  {
    var a :| 0 <= a < |before| && before[a] < p && Blocks(rule, u[before[a]], u[p]);
    assert after[a] == before[a];
  }

  // A neighbourhood's next pick is the one the greedy pass makes.
  lemma GreedyAgrees(rule: Rule, u: seq<Found>, picks: seq<nat>, i: nat)
    requires i < |u| && IsNeighbourhood(rule, u, picks)
    requires var k := Picks(rule, u, i); |k| <= |picks| && k == picks[..|k|] && forall a :: |k| <= a < |picks| ==> picks[a] >= i
    ensures var k := Picks(rule, u, i);
      Picks(rule, u, i + 1) == if |k| < |picks| && picks[|k|] == i then k + [i] else k
  {
    hide Blocks;
    var k := Picks(rule, u, i);
    assert forall a :: 0 <= a < |k| ==> k[a] == picks[a];
    if |k| < |picks| && picks[|k|] == i {
      NextIsFree(rule, u, picks, |k|);
    } else if |k| < rule.replicas {
      RefusedIsBlocked(rule, u, picks, k, i);
    }
  }

  lemma RefusedIsBlocked(rule: Rule, u: seq<Found>, picks: seq<nat>, k: seq<nat>, i: nat)
    requires i < |u| && IsNeighbourhood(rule, u, picks) && |k| <= |picks| && |k| < rule.replicas
    requires (forall a :: 0 <= a < |k| ==> k[a] == picks[a]) && (forall a :: 0 <= a < |k| ==> k[a] < i)
    requires forall a :: |k| <= a < |picks| ==> picks[a] >= i
    requires |k| < |picks| ==> picks[|k|] != i
    ensures Blocked(rule, u, k, i)
  {
    hide Blocks, PairsAllowed;
    forall a | 0 <= a < |picks| ensures picks[a] != i {
      assert |k| < a ==> picks[|k|] < picks[a];
    }
    assert InScope(rule, |u|, picks, i);
    var a :| 0 <= a < |picks| && picks[a] < i && Blocks(rule, u[picks[a]], u[i]);
    assert k[a] == picks[a];
  }

  // A neighbourhood agrees with the greedy pass on what lies below i.
  lemma {:induction false} NeighbourhoodBelow(rule: Rule, u: seq<Found>, picks: seq<nat>, i: nat)
    requires i <= |u| && IsNeighbourhood(rule, u, picks)
    ensures |Picks(rule, u, i)| <= |picks| && Picks(rule, u, i) == picks[..|Picks(rule, u, i)|]
    ensures forall a :: |Picks(rule, u, i)| <= a < |picks| ==> picks[a] >= i
    ensures i == |u| ==> |Picks(rule, u, i)| == |picks|
  {
    if i == 0 {
      assert Picks(rule, u, 0) == [];
      assert picks != [] ==> picks[0] < |u|;
    } else {
      assert Increasing(picks, |u|);
      hide Picks, IsNeighbourhood, Increasing;
      NeighbourhoodBelow(rule, u, picks, i - 1);
      GreedyAgrees(rule, u, picks, i - 1);
      PrefixGrows(picks, |u|, Picks(rule, u, i - 1), Picks(rule, u, i), i - 1);
    }
  }

  lemma PrefixGrows(picks: seq<nat>, n: nat, k: seq<nat>, now: seq<nat>, i: nat)
    requires Increasing(picks, n) && |k| <= |picks| && k == picks[..|k|] && forall a :: |k| <= a < |picks| ==> picks[a] >= i
    requires now == if |k| < |picks| && picks[|k|] == i then k + [i] else k
    ensures |now| <= |picks| && now == picks[..|now|] && forall a :: |now| <= a < |picks| ==> picks[a] >= i + 1
    ensures i + 1 == n ==> |now| == |picks|
  {
    forall a | |now| <= a < |picks| ensures picks[a] >= i + 1 {
      assert |k| < a ==> picks[|k|] < picks[a];
    }
    assert |now| < |picks| ==> picks[|now|] < n;
  }

  lemma NextIsFree(rule: Rule, u: seq<Found>, picks: seq<nat>, b: nat)
    requires Increasing(picks, |u|) && PairsAllowed(rule, u, picks) && b < |picks|
    ensures !Blocked(rule, u, picks[..b], picks[b])
  {
    assert forall a :: 0 <= a < b ==> picks[..b][a] == picks[a];
  }

  // The greedy pass computes the one and only neighbourhood.
  lemma GreedyIsTheNeighbourhood(rule: Rule, u: seq<Found>, picks: seq<nat>)
    ensures IsNeighbourhood(rule, u, picks) <==> picks == Picks(rule, u, |u|)
  {
    var greedy := Picks(rule, u, |u|);
    PicksOrdered(rule, u, |u|);
    forall p: nat | InScope(rule, |u|, greedy, p) && p !in greedy ensures HasWitness(rule, u, greedy, p) {
      RefusedHaveWitness(rule, u, |u|, p);
    }
    if IsNeighbourhood(rule, u, picks) {
      NeighbourhoodBelow(rule, u, picks, |u|);
    }
  }

  // Once the row is full nothing more is kept or refused.
  lemma {:induction false} FullStays(rule: Rule, u: seq<Found>, i: nat, k: nat)
    requires i <= k <= |u| && |Picks(rule, u, i)| == rule.replicas
    ensures Picks(rule, u, k) == Picks(rule, u, i) && Refusals(rule, u, k) == Refusals(rule, u, i)
  {
    if i < k { FullStays(rule, u, i, k - 1); }
  }

  // ---------------------------------------------------------------- rows of the selections array

  function Slot(rule: Rule, id: nat, j: nat): (k: nat) {
    id * rule.replicas + j
  }

  lemma SlotFits(rule: Rule, n: nat, id: nat, j: nat)
    requires id < n && j < rule.replicas
    ensures Slot(rule, id, j) < n * rule.replicas
  {
    assert (id + 1) * rule.replicas <= n * rule.replicas;
  }

  lemma SlotsDiffer(rule: Rule, a: nat, i: nat, b: nat, j: nat)
    requires i < rule.replicas && j < rule.replicas && Slot(rule, a, i) == Slot(rule, b, j)
    ensures a == b && i == j
  {
    assert a < b ==> (a + 1) * rule.replicas <= b * rule.replicas;
    assert b < a ==> (b + 1) * rule.replicas <= a * rule.replicas;
  }

  lemma SlotSplits(rule: Rule, n: nat, k: nat)
    requires k < n * rule.replicas
    ensures rule.replicas > 0
    ensures k / rule.replicas < n && k % rule.replicas < rule.replicas
    ensures Slot(rule, k / rule.replicas, k % rule.replicas) == k
  {
    var q := k / rule.replicas;
    assert q >= n ==> q * rule.replicas >= n * rule.replicas;
  }

  ghost predicate Sized(job: Job, sel: seq<Edge>) {
    |sel| == job.count * job.rule.replicas
  }

  ghost function At(job: Job, sel: seq<Edge>, id: nat, j: nat): Edge
    requires Sized(job, sel) && id < job.count && j < job.rule.replicas
  {
    SlotFits(job.rule, job.count, id, j);
    sel[Slot(job.rule, id, j)]
  }

  function Put(e: Edge, c: Found): Edge {
    e.(node := c.vid, distance := c.dist)
  }

  // Row `id` holds the picked results in its first slots and its initial content after them.
  ghost predicate RowIs(job: Job, init: seq<Edge>, sel: seq<Edge>, id: nat, u: seq<Found>, picks: seq<nat>)
    requires Sized(job, init) && Sized(job, sel) && id < job.count
  {
    |picks| <= job.rule.replicas && (forall a :: 0 <= a < |picks| ==> picks[a] < |u|)
    && forall j :: 0 <= j < job.rule.replicas ==>
      At(job, sel, id, j) == if j < |picks| then Put(At(job, init, id, j), u[picks[j]]) else At(job, init, id, j)
  }

  function Candidates(job: Job, id: nat): seq<Found> { Usable(job.results(id)) }

  // The row that vector `id` ends with.
  ghost predicate RowDone(job: Job, init: seq<Edge>, sel: seq<Edge>, id: nat)
    requires Sized(job, init) && Sized(job, sel) && id < job.count
  {
    var u := Candidates(job, id);
    RowIs(job, init, sel, id, u, if id in job.excluded then [] else Picks(job.rule, u, |u|))
  }

  // The whole array after pruning.
  ghost predicate Pruned(job: Job, init: seq<Edge>, sel: seq<Edge>) {
    Sized(job, init) && Sized(job, sel) && forall id: nat :: id < job.count ==> RowDone(job, init, sel, id)
  }

  lemma PrunedUnique(job: Job, init: seq<Edge>, a: seq<Edge>, b: seq<Edge>)
    requires Pruned(job, init, a) && Pruned(job, init, b)
    ensures a == b
  {
    forall k | 0 <= k < |a| ensures a[k] == b[k] {
      SlotSplits(job.rule, job.count, k);
      var id, j := k / job.rule.replicas, k % job.rule.replicas;
      assert RowDone(job, init, a, id) && RowDone(job, init, b, id);
      assert At(job, a, id, j) == At(job, b, id, j);
    }
  }

  // ---------------------------------------------------------------- the result written out

  // n results stand before the first missing one.
  ghost predicate Present(found: seq<Found>, n: nat) {
    n <= |found| && (forall p :: 0 <= p < n ==> found[p].vid != -1) && (n < |found| ==> found[n].vid == -1)
  }

  // Result a, kept, rules the later result b out.
  ghost predicate RulesOut(rule: Rule, found: seq<Found>, a: nat, b: nat)
    requires a < |found| && b < |found|
  {
    rule.factor * rule.distance(found[b].vid, found[a].vid) < found[b].dist
  }

  // Of the first n results those at `picks` are kept, nearest first: none is ruled out by an earlier one, and each result
  // before the row is full that is not kept is ruled out by an earlier one that is.
  ghost predicate KeptAre(rule: Rule, found: seq<Found>, n: nat, picks: seq<nat>)
    requires n <= |found|
  {
    && |picks| <= rule.replicas && Increasing(picks, n)
    && (forall a, b :: 0 <= a < b < |picks| ==> !RulesOut(rule, found, picks[a], picks[b]))
    && forall p: nat ::
         p < n && p !in picks && (|picks| < rule.replicas || (|picks| > 0 && p < picks[|picks| - 1])) ==>
           exists a :: 0 <= a < |picks| && picks[a] < p && RulesOut(rule, found, picks[a], p)
  }

  // Slot j of row id lies at id * replicas + j: a kept result's id and distance, or what was there before.
  ghost predicate RowHolds(job: Job, init: seq<Edge>, sel: seq<Edge>, id: nat, picks: seq<nat>)
    requires |picks| <= job.rule.replicas && forall a :: 0 <= a < |picks| ==> picks[a] < |job.results(id)|
  {
    forall j :: 0 <= j < job.rule.replicas ==>
      var k := id * job.rule.replicas + j;
      && k < |init| == |sel|
      && sel[k] == if j < |picks|
                   then Edge(job.results(id)[picks[j]].vid, job.results(id)[picks[j]].dist, init[k].tonode)
                   else init[k]
  }

  /** The pruned array in full: where every entry lies, which results it keeps, and how many it refused. */
  lemma PrunedMeans(job: Job, init: seq<Edge>, sel: seq<Edge>, id: nat) returns (n: nat, picks: seq<nat>)
    requires Pruned(job, init, sel) && id < job.count
    ensures Present(job.results(id), n)
    ensures if id in job.excluded then picks == [] else KeptAre(job.rule, job.results(id), n, picks)
    ensures |picks| <= job.rule.replicas && Increasing(picks, n) && RowHolds(job, init, sel, id, picks)
    ensures id !in job.excluded ==>
      Refusals(job.rule, Candidates(job, id), n) ==
      if |picks| < job.rule.replicas then n - |picks| else if |picks| == 0 then 0 else picks[|picks| - 1] + 1 - |picks|
  {
    hide Usable, Picks, Slot, At, TooNear, Refusals, RowIs, KeptAre, RowHolds, IsNeighbourhood;
    var u := Candidates(job, id);
    n := |u|;
    assert RowDone(job, init, sel, id);
    picks := if id in job.excluded then [] else Picks(job.rule, u, |u|);
    if id !in job.excluded {
      GreedyIsTheNeighbourhood(job.rule, u, picks);
      RefusalsAre(job.rule, u, |u|);
      KeptByNeighbourhood(job.rule, job.results(id), u, picks);
    } else {
      NoPicks(n);
    }
    RowByPlace(job, init, sel, id, u, picks);
  }

  lemma NoPicks(n: nat)
    ensures Increasing([], n)
  {
  }

  lemma TooNearMeans(rule: Rule, found: seq<Found>, u: seq<Found>, a: nat, b: nat)
    requires |u| <= |found| && (forall p :: 0 <= p < |u| ==> u[p] == found[p]) && a < |u| && b < |u|
    ensures Blocks(rule, u[a], u[b]) <==> RulesOut(rule, found, a, b)
  {
  }

  lemma KeptByNeighbourhood(rule: Rule, found: seq<Found>, u: seq<Found>, picks: seq<nat>)
    requires |u| <= |found| && (forall p :: 0 <= p < |u| ==> u[p] == found[p]) && IsNeighbourhood(rule, u, picks)
    ensures KeptAre(rule, found, |u|, picks) && |picks| <= rule.replicas && Increasing(picks, |u|)
  {
    hide Blocks, RulesOut;
    forall a, b | 0 <= a < b < |picks| ensures !RulesOut(rule, found, picks[a], picks[b]) {
      TooNearMeans(rule, found, u, picks[a], picks[b]);
    }
    forall p: nat | p < |u| && p !in picks && (|picks| < rule.replicas || (|picks| > 0 && p < picks[|picks| - 1]))
      ensures exists a :: 0 <= a < |picks| && picks[a] < p && RulesOut(rule, found, picks[a], p)
    {
      assert InScope(rule, |u|, picks, p) && HasWitness(rule, u, picks, p);
      var a :| 0 <= a < |picks| && picks[a] < p && Blocks(rule, u[picks[a]], u[p]);
      TooNearMeans(rule, found, u, picks[a], p);
    }
  }

  lemma RowByPlace(job: Job, init: seq<Edge>, sel: seq<Edge>, id: nat, u: seq<Found>, picks: seq<nat>)
    requires Sized(job, init) && Sized(job, sel) && id < job.count && RowIs(job, init, sel, id, u, picks)
    requires |u| <= |job.results(id)| && forall p :: 0 <= p < |u| ==> u[p] == job.results(id)[p]
    ensures |picks| <= job.rule.replicas && (forall a :: 0 <= a < |picks| ==> picks[a] < |job.results(id)|)
    ensures RowHolds(job, init, sel, id, picks)
  {
    forall j | 0 <= j < job.rule.replicas
      ensures id * job.rule.replicas + j < |init| && At(job, init, id, j) == init[id * job.rule.replicas + j]
      ensures At(job, sel, id, j) == sel[id * job.rule.replicas + j]
    {
      SlotFits(job.rule, job.count, id, j);
    }
  }

  lemma {:induction false} RefusalsAre(rule: Rule, u: seq<Found>, i: nat)
    requires i <= |u|
    ensures var picks := Picks(rule, u, i);
      Refusals(rule, u, i) ==
      if |picks| < rule.replicas then i - |picks| else if |picks| == 0 then 0 else picks[|picks| - 1] + 1 - |picks|
  {
    hide Blocked;
    if i > 0 { RefusalsAre(rule, u, i - 1); }
  }

  lemma Written(job: Job, sel: seq<Edge>, id: nat, j: nat, e: Edge)
    requires Sized(job, sel) && id < job.count && j < job.rule.replicas
    ensures Slot(job.rule, id, j) < |sel| && Sized(job, sel[Slot(job.rule, id, j) := e])
    ensures forall id2: nat, j2: nat :: id2 < job.count && j2 < job.rule.replicas ==>
      At(job, sel[Slot(job.rule, id, j) := e], id2, j2) == if id2 == id && j2 == j then e else At(job, sel, id2, j2)
  {
    SlotFits(job.rule, job.count, id, j);
    var after := sel[Slot(job.rule, id, j) := e];
    forall id2: nat, j2: nat | id2 < job.count && j2 < job.rule.replicas
      ensures At(job, after, id2, j2) == if id2 == id && j2 == j then e else At(job, sel, id2, j2)
    {
      SlotFits(job.rule, job.count, id2, j2);
      if Slot(job.rule, id2, j2) == Slot(job.rule, id, j) { SlotsDiffer(job.rule, id2, j2, id, j); }
    }
  }

  // Rows other than `id` hold what they held.
  ghost predicate OthersKept(job: Job, before: seq<Edge>, after: seq<Edge>, id: nat) {
    Sized(job, before) && Sized(job, after)
    && forall id2: nat, j: nat :: id2 < job.count && id2 != id && j < job.rule.replicas ==>
      At(job, after, id2, j) == At(job, before, id2, j)
  }

  // Writing the next pick into its slot extends the row by it.
  lemma RowGrows(job: Job, init: seq<Edge>, sel: seq<Edge>, id: nat, u: seq<Found>, picks: seq<nat>, p: nat)
    requires Sized(job, init) && Sized(job, sel) && id < job.count && RowIs(job, init, sel, id, u, picks)
    requires |picks| < job.rule.replicas && p < |u|
    ensures var k := Slot(job.rule, id, |picks|);
      k < |sel| && Sized(job, sel[k := Put(sel[k], u[p])])
      && RowIs(job, init, sel[k := Put(sel[k], u[p])], id, u, picks + [p])
      && OthersKept(job, sel, sel[k := Put(sel[k], u[p])], id)
  {
    SlotFits(job.rule, job.count, id, |picks|);
    var k := Slot(job.rule, id, |picks|);
    assert sel[k] == At(job, sel, id, |picks|);
    hide Slot, At;
    Written(job, sel, id, |picks|, Put(sel[k], u[p]));
  }

  // ---------------------------------------------------------------- one row, in place

  // The check of candidate i against the entries its row already holds.
  method Check(job: Job, selections: array<Edge>, id: nat, c: Found, kept: nat,
               ghost init: seq<Edge>, ghost u: seq<Found>, ghost picks: seq<nat>, ghost i: nat)
    returns (accepted: bool)
    requires Sized(job, init) && Sized(job, selections[..]) && id < job.count
    requires RowIs(job, init, selections[..], id, u, picks) && kept == |picks|
    requires i < |u| && c == u[i]
    ensures accepted <==> !Blocked(job.rule, u, picks, i)
  {
    accepted := true;
    var j := 0;
    while j < kept
      invariant j <= kept && accepted
      invariant forall a :: 0 <= a < j ==> !Blocks(job.rule, u[picks[a]], u[i])
    {
      SlotFits(job.rule, job.count, id, j);
      var e := selections[Slot(job.rule, id, j)];
      assert e == At(job, selections[..], id, j) == Put(At(job, init, id, j), u[picks[j]]);
      if TooNear(job.rule, e.node, c) {
        accepted := false;
        assert Blocks(job.rule, u[picks[j]], u[i]);
        break;
      }
      j := j + 1;
    }
  }

  lemma NothingPicked(job: Job, sel: seq<Edge>, id: nat)
    requires Sized(job, sel) && id < job.count
    ensures RowIs(job, sel, sel, id, Candidates(job, id), []) && OthersKept(job, sel, sel, id)
  {
  }

  lemma KeptOn(job: Job, a: seq<Edge>, b: seq<Edge>, c: seq<Edge>, id: nat)
    requires OthersKept(job, a, b, id) && OthersKept(job, b, c, id)
    ensures OthersKept(job, a, c, id)
  {
    hide At;
  }

  // Filling row `id`: the results in order, until one is missing or the row is full.
  method PruneRow(job: Job, selections: array<Edge>, id: nat) returns (refused: nat)
    requires Sized(job, selections[..]) && id < job.count
    modifies selections
    ensures Sized(job, selections[..])
    ensures var u := Candidates(job, id); RowIs(job, old(selections[..]), selections[..], id, u, Picks(job.rule, u, |u|))
    ensures OthersKept(job, old(selections[..]), selections[..], id)
    ensures refused == Refusals(job.rule, Candidates(job, id), |Candidates(job, id)|)
  {
    hide Slot, At, Usable, Blocked, RowIs, OthersKept;
    NothingPicked(job, selections[..], id);
    ghost var init := selections[..];
    var found := job.results(id);
    ghost var u := Candidates(job, id);
    refused := 0;
    var i, kept := 0, 0;
    while i < |found| && kept < job.rule.replicas
      invariant i <= |u| && kept == |Picks(job.rule, u, i)| && refused == Refusals(job.rule, u, i)
      invariant Sized(job, selections[..])
      invariant RowIs(job, init, selections[..], id, u, Picks(job.rule, u, i))
      invariant OthersKept(job, init, selections[..], id)
      decreases |found| - i
    {
      if found[i].vid == -1 { break; }
      ghost var picks, before := Picks(job.rule, u, i), selections[..];
      var accepted := Check(job, selections, id, found[i], kept, init, u, picks, i);
      i := i + 1;
      if !accepted {
        refused := refused + 1;
        continue;
      }
      RowGrows(job, init, before, id, u, picks, i - 1);
      KeptOn(job, init, before, before[Slot(job.rule, id, |picks|) := Put(before[Slot(job.rule, id, |picks|)], u[i - 1])], id);
      var k := Slot(job.rule, id, kept);
      selections[k] := Put(selections[k], found[i - 1]);
      assert selections[..] == before[k := Put(before[k], u[i - 1])];
      kept := kept + 1;
    }
    if kept == job.rule.replicas { FullStays(job.rule, u, i, |u|); }
  }

  // ---------------------------------------------------------------- stealing threads

  // Where a thread is.  `j` walks the entries already kept; the two fields of an accepted entry are
  // two writes.
  datatype Phase =
    | Fetch
    | Look(id: nat, i: nat, kept: nat)
    | Compare(id: nat, i: nat, kept: nat, j: nat)
    | WriteNode(id: nat, i: nat, kept: nat)
    | WriteDistance(id: nat, i: nat, kept: nat)
    | Leave
    | Done

  // History of a row: not started, being filled by a thread, filled.
  datatype Row = Untouched | Busy(thread: nat) | Filled

  // `local` and `total` count refusals.  `rows`, `starts` and `refused` (by vector) are history.
  datatype State = State(
    next: nat, phases: seq<Phase>, local: seq<nat>, total: nat, selections: seq<Edge>,
    rows: seq<Row>, starts: seq<nat>, refused: seq<nat>)

  function Start(job: Job, threads: nat, init: seq<Edge>): State {
    State(0, seq(threads, _ => Fetch), seq(threads, _ => 0), 0, init,
          seq(job.count, _ => Untouched), seq(job.count, _ => 0), seq(job.count, _ => 0))
  }

  predicate Fits(job: Job, ph: Phase) {
    match ph
    case Look(id, i, kept) => id < job.count && i <= |job.results(id)| && kept <= job.rule.replicas
    case Compare(id, i, kept, j) => id < job.count && i < |job.results(id)| && j <= kept < job.rule.replicas
    case WriteNode(id, i, kept) => id < job.count && i < |job.results(id)| && kept < job.rule.replicas
    case WriteDistance(id, i, kept) => id < job.count && i < |job.results(id)| && kept < job.rule.replicas
    case _ => true
  }

  ghost predicate Shaped(job: Job, s: State) {
    |s.local| == |s.phases| && Sized(job, s.selections)
    && |s.rows| == job.count && |s.starts| == job.count && |s.refused| == job.count
    && forall t :: 0 <= t < |s.phases| ==> Fits(job, s.phases[t])
  }

  // Thread t goes to `ph`, leaves the array as `sel` and counts `extra` refusals of vector `id`.
  ghost function Go(s: State, t: nat, id: nat, ph: Phase, sel: seq<Edge>, extra: nat): State
    requires t < |s.phases| == |s.local| && id < |s.refused|
  {
    s.(phases := s.phases[t := ph], selections := sel,
       local := s.local[t := s.local[t] + extra], refused := s.refused[id := s.refused[id] + extra])
  }

  // One step of thread t.  A thread that is done stays so.
  ghost function Take(job: Job, s: State, t: nat): State
    requires Shaped(job, s) && t < |s.phases|
  {
    match s.phases[t]
    case Fetch =>
      var id := s.next;
      if id >= job.count then s.(next := id + 1, phases := s.phases[t := Leave])
      else if id in job.excluded then s.(next := id + 1)
      else s.(next := id + 1, phases := s.phases[t := Look(id, 0, 0)],
              rows := s.rows[id := Busy(t)], starts := s.starts[id := s.starts[id] + 1])
    case Look(id, i, kept) =>
      var found := job.results(id);
      if i < |found| && kept < job.rule.replicas && found[i].vid != -1
      then Go(s, t, id, Compare(id, i, kept, 0), s.selections, 0)
      else s.(phases := s.phases[t := Fetch], rows := s.rows[id := Filled])
    case Compare(id, i, kept, j) =>
      var c := job.results(id)[i];
      SlotFits(job.rule, job.count, id, j);
      if j == kept then Go(s, t, id, WriteNode(id, i, kept), s.selections, 0)
      else if TooNear(job.rule, s.selections[Slot(job.rule, id, j)].node, c)
      then Go(s, t, id, Look(id, i + 1, kept), s.selections, 1)
      else Go(s, t, id, Compare(id, i, kept, j + 1), s.selections, 0)
    case WriteNode(id, i, kept) =>
      SlotFits(job.rule, job.count, id, kept);
      var k := Slot(job.rule, id, kept);
      Go(s, t, id, WriteDistance(id, i, kept),
         s.selections[k := s.selections[k].(node := job.results(id)[i].vid)], 0)
    case WriteDistance(id, i, kept) =>
      SlotFits(job.rule, job.count, id, kept);
      var k := Slot(job.rule, id, kept);
      Go(s, t, id, Look(id, i + 1, kept + 1),
         s.selections[k := s.selections[k].(distance := job.results(id)[i].dist)], 0)
    case Leave => s.(phases := s.phases[t := Done], total := s.total + s.local[t], local := s.local[t := 0])
    case Done => s
  }

  // ---------------------------------------------------------------- what every step keeps

  function Sum(s: seq<nat>): nat {
    if s == [] then 0 else Sum(s[..|s| - 1]) + s[|s| - 1]
  }

  lemma {:induction false} SumUpdate(s: seq<nat>, i: nat, v: nat)
    requires i < |s|
    ensures Sum(s[i := v]) == Sum(s) - s[i] + v
  {
    var r := s[i := v];
    if i == |s| - 1 {
      assert r[..|s| - 1] == s[..|s| - 1];
    } else {
      assert r[..|s| - 1] == s[..|s| - 1][i := v];
      SumUpdate(s[..|s| - 1], i, v);
    }
  }

  function Holds(ph: Phase): bool { !(ph.Fetch? || ph.Leave? || ph.Done?) }

  // Row `id` between the two writes of its next entry.
  ghost predicate RowHalf(job: Job, init: seq<Edge>, sel: seq<Edge>, id: nat, u: seq<Found>, picks: seq<nat>, p: nat)
    requires Sized(job, init) && Sized(job, sel) && id < job.count && p < |u|
  {
    |picks| < job.rule.replicas && (forall a :: 0 <= a < |picks| ==> picks[a] < |u|)
    && forall j :: 0 <= j < job.rule.replicas ==>
      At(job, sel, id, j) ==
      if j < |picks| then Put(At(job, init, id, j), u[picks[j]])
      else if j == |picks| then At(job, init, id, j).(node := u[p].vid)
      else At(job, init, id, j)
  }

  ghost predicate PassedBy(rule: Rule, u: seq<Found>, picks: seq<nat>, i: nat, j: nat)
    requires i < |u| && j <= |picks| && forall a :: 0 <= a < |picks| ==> picks[a] < |u|
  {
    forall a :: 0 <= a < j ==> !Blocks(rule, u[picks[a]], u[i])
  }

  // What a thread inside a row knows of it; `u` are the row's candidates.
  ghost predicate Knows(job: Job, init: seq<Edge>, sel: seq<Edge>, ph: Phase, u: seq<Found>)
    requires Sized(job, init) && Sized(job, sel) && Holds(ph) && ph.id < job.count && ph.i <= |u|
  {
    var picks := Picks(job.rule, u, ph.i);
    ph.kept == |picks|
    && (!ph.Look? ==> ph.i < |u| && ph.kept < job.rule.replicas)
    && (if ph.WriteDistance? then RowHalf(job, init, sel, ph.id, u, picks, ph.i)
        else RowIs(job, init, sel, ph.id, u, picks))
    && (ph.Compare? ==> ph.j <= ph.kept && PassedBy(job.rule, u, picks, ph.i, ph.j))
    && (ph.WriteNode? || ph.WriteDistance? ==> PassedBy(job.rule, u, picks, ph.i, ph.kept))
  }

  ghost predicate ThreadOk(job: Job, init: seq<Edge>, sel: seq<Edge>, ph: Phase)
    requires Sized(job, init) && Sized(job, sel)
  {
    Holds(ph) ==>
      ph.id < job.count && ph.id !in job.excluded && ph.i <= |Candidates(job, ph.id)|
      && Knows(job, init, sel, ph, Candidates(job, ph.id))
  }

  // What holds of row `id`, by its history.
  ghost predicate RowOk(job: Job, init: seq<Edge>, s: State, id: nat)
    requires Sized(job, init) && Shaped(job, s) && id < job.count
  {
    var u := Candidates(job, id);
    match s.rows[id]
    case Untouched =>
      (id >= s.next || id in job.excluded)
      && RowIs(job, init, s.selections, id, u, []) && s.starts[id] == 0 && s.refused[id] == 0
    case Busy(t) =>
      id < s.next && id !in job.excluded && t < |s.phases| && s.starts[id] == 1
      && Holds(s.phases[t]) && s.phases[t].id == id
      && s.phases[t].i <= |u| && s.refused[id] == Refusals(job.rule, u, s.phases[t].i)
    case Filled =>
      id < s.next && id !in job.excluded && s.starts[id] == 1
      && RowIs(job, init, s.selections, id, u, Picks(job.rule, u, |u|))
      && s.refused[id] == Refusals(job.rule, u, |u|)
  }

  ghost predicate Places(job: Job, s: State, t: nat)
    requires Shaped(job, s) && t < |s.phases|
  {
    var ph := s.phases[t];
    (Holds(ph) ==> ph.id < job.count && s.rows[ph.id] == Busy(t))
    && (ph.Leave? || ph.Done? ==> s.next >= job.count)
    && (ph.Done? ==> s.local[t] == 0)
  }

  ghost predicate Inv(job: Job, init: seq<Edge>, s: State) {
    Sized(job, init) && Shaped(job, s)
    && (forall t: nat :: t < |s.phases| ==> ThreadOk(job, init, s.selections, s.phases[t]))
    && (forall t: nat :: t < |s.phases| ==> Places(job, s, t))
    && (forall id: nat :: id < job.count ==> RowOk(job, init, s, id))
    && Sum(s.refused) == s.total + Sum(s.local)
  }

  lemma RowFrame(job: Job, init: seq<Edge>, before: seq<Edge>, after: seq<Edge>, id: nat, id2: nat,
                 u: seq<Found>, picks: seq<nat>)
    requires OthersKept(job, before, after, id) && Sized(job, init) && id2 < job.count && id2 != id
    requires RowIs(job, init, before, id2, u, picks)
    ensures RowIs(job, init, after, id2, u, picks)
  {
    hide At;
  }

  lemma ThreadFrame(job: Job, init: seq<Edge>, before: seq<Edge>, after: seq<Edge>, id: nat, ph: Phase)
    requires OthersKept(job, before, after, id) && Sized(job, init)
    requires ThreadOk(job, init, before, ph) && (Holds(ph) ==> ph.id != id)
    ensures ThreadOk(job, init, after, ph)
  {
    hide At, Picks, Usable, PassedBy;
  }

  // A thread's step inside its own row: what it has to show of the new phase and array.
  ghost predicate StepsInRow(job: Job, init: seq<Edge>, s: State, t: nat, ph: Phase, sel: seq<Edge>, extra: nat) {
    Inv(job, init, s) && t < |s.phases| && Holds(s.phases[t]) && Holds(ph) && ph.id == s.phases[t].id
    && OthersKept(job, s.selections, sel, ph.id) && Fits(job, ph) && ThreadOk(job, init, sel, ph)
    && s.phases[t].i <= |Candidates(job, ph.id)| && ph.i <= |Candidates(job, ph.id)|
    && Refusals(job.rule, Candidates(job, ph.id), ph.i)
       == Refusals(job.rule, Candidates(job, ph.id), s.phases[t].i) + extra
  }

  lemma GoShapes(job: Job, init: seq<Edge>, s: State, t: nat, ph: Phase, sel: seq<Edge>, extra: nat)
    requires StepsInRow(job, init, s, t, ph, sel, extra)
    ensures ph.id < job.count && Shaped(job, Go(s, t, ph.id, ph, sel, extra))
  {
  }

  lemma GoThread(job: Job, init: seq<Edge>, s: State, t: nat, ph: Phase, sel: seq<Edge>, extra: nat, t2: nat)
    requires StepsInRow(job, init, s, t, ph, sel, extra) && t2 < |s.phases|
    requires ph.id < job.count && Shaped(job, Go(s, t, ph.id, ph, sel, extra))
    ensures ThreadOk(job, init, sel, Go(s, t, ph.id, ph, sel, extra).phases[t2])
    ensures Places(job, Go(s, t, ph.id, ph, sel, extra), t2)
  {
    hide OthersKept, ThreadOk, RowOk, Sum, Refusals, Usable;
    assert Places(job, s, t) && Places(job, s, t2);
    if t2 != t { ThreadFrame(job, init, s.selections, sel, ph.id, s.phases[t2]); }
  }

  lemma GoRow(job: Job, init: seq<Edge>, s: State, t: nat, ph: Phase, sel: seq<Edge>, extra: nat, id: nat)
    requires StepsInRow(job, init, s, t, ph, sel, extra) && id < job.count
    requires ph.id < job.count && Shaped(job, Go(s, t, ph.id, ph, sel, extra))
    ensures RowOk(job, init, Go(s, t, ph.id, ph, sel, extra), id)
  {
    hide OthersKept, ThreadOk, Sum, Refusals, Usable, Picks, RowIs;
    assert Places(job, s, t) && RowOk(job, init, s, id);
    if id != ph.id {
      var u := Candidates(job, id);
      if s.rows[id].Untouched? { RowFrame(job, init, s.selections, sel, ph.id, id, u, []); }
      if s.rows[id].Filled? { RowFrame(job, init, s.selections, sel, ph.id, id, u, Picks(job.rule, u, |u|)); }
    }
  }

  lemma GoKeeps(job: Job, init: seq<Edge>, s: State, t: nat, ph: Phase, sel: seq<Edge>, extra: nat)
    requires StepsInRow(job, init, s, t, ph, sel, extra)
    ensures Inv(job, init, Go(s, t, ph.id, ph, sel, extra))
  {
    GoShapes(job, init, s, t, ph, sel, extra);
    hide Shaped, RowOk, ThreadOk, Places, Sum, Fits, OthersKept, Refusals;
    var s2 := Go(s, t, ph.id, ph, sel, extra);
    forall t2: nat | t2 < |s.phases| ensures ThreadOk(job, init, sel, s2.phases[t2]) && Places(job, s2, t2) {
      GoThread(job, init, s, t, ph, sel, extra, t2);
    }
    forall id: nat | id < job.count ensures RowOk(job, init, s2, id) {
      GoRow(job, init, s, t, ph, sel, extra, id);
    }
    SumUpdate(s.local, t, s.local[t] + extra);
    SumUpdate(s.refused, ph.id, s.refused[ph.id] + extra);
  }

  ghost predicate Tick(job: Job, init: seq<Edge>, s: State, t: nat) {
    Inv(job, init, s) && t < |s.phases|
  }

  lemma FetchKeeps(job: Job, init: seq<Edge>, s: State, t: nat)
    requires Tick(job, init, s, t) && s.phases[t].Fetch?
    ensures Inv(job, init, Take(job, s, t))
  {
    hide At, Picks, Usable, PassedBy, RowIs, RowHalf, Sum, Knows;
    var s2 := Take(job, s, t);
    assert s.next < job.count && s.next !in job.excluded ==> RowOk(job, init, s, s.next) && s.rows[s.next].Untouched?;
    if s.next < job.count && s.next !in job.excluded {
      StartsOk(job, init, s.selections, s.next, Candidates(job, s.next));
    }
    forall t2: nat | t2 < |s.phases| ensures ThreadOk(job, init, s2.selections, s2.phases[t2]) && Places(job, s2, t2) {
      assert Places(job, s, t2) && ThreadOk(job, init, s.selections, s.phases[t2]);
    }
    forall id: nat | id < job.count ensures RowOk(job, init, s2, id) {
      assert RowOk(job, init, s, id);
    }
  }

  lemma StartsOk(job: Job, init: seq<Edge>, sel: seq<Edge>, id: nat, u: seq<Found>)
    requires Sized(job, init) && Sized(job, sel) && id < job.count && RowIs(job, init, sel, id, u, [])
    ensures Knows(job, init, sel, Look(id, 0, 0), u)
    ensures Refusals(job.rule, u, 0) == 0
  {
  }

  // A thread that stops looking has the whole list.
  lemma StopsWithAll(job: Job, u: seq<Found>, found: seq<Found>, i: nat)
    requires u == Usable(found) && i <= |u|
    requires !(i < |found| && |Picks(job.rule, u, i)| < job.rule.replicas && found[i].vid != -1)
    ensures Picks(job.rule, u, |u|) == Picks(job.rule, u, i) && Refusals(job.rule, u, |u|) == Refusals(job.rule, u, i)
  {
    if |Picks(job.rule, u, i)| == job.rule.replicas { FullStays(job.rule, u, i, |u|); }
  }

  lemma LookKeeps(job: Job, init: seq<Edge>, s: State, t: nat)
    requires Tick(job, init, s, t) && s.phases[t].Look?
    ensures Inv(job, init, Take(job, s, t))
  {
    var ph := s.phases[t];
    var u, found := Candidates(job, ph.id), job.results(ph.id);
    assert ThreadOk(job, init, s.selections, ph);
    hide At, Picks, Usable, PassedBy, RowIs, RowHalf, Sum, Refusals;
    if ph.i < |found| && ph.kept < job.rule.replicas && found[ph.i].vid != -1 {
      var ph2 := Compare(ph.id, ph.i, ph.kept, 0);
      assert ThreadOk(job, init, s.selections, ph2) by { NothingPassed(job, u, ph.i); }
      GoKeeps(job, init, s, t, ph2, s.selections, 0);
    } else {
      StopsWithAll(job, u, found, ph.i);
      StopKeeps(job, init, s, t);
    }
  }

  lemma NothingPassed(job: Job, u: seq<Found>, i: nat)
    requires i < |u|
    ensures PassedBy(job.rule, u, Picks(job.rule, u, i), i, 0)
  {
  }

  lemma StopKeeps(job: Job, init: seq<Edge>, s: State, t: nat)
    requires Tick(job, init, s, t) && s.phases[t].Look?
    requires var u, i := Candidates(job, s.phases[t].id), s.phases[t].i;
      i <= |u| && Picks(job.rule, u, |u|) == Picks(job.rule, u, i) && Refusals(job.rule, u, |u|) == Refusals(job.rule, u, i)
    ensures s.phases[t].id < |s.rows|
      && Inv(job, init, s.(phases := s.phases[t := Fetch], rows := s.rows[s.phases[t].id := Filled]))
  {
    hide At, Picks, Usable, PassedBy, RowIs, RowHalf, Sum, Refusals;
    var id := s.phases[t].id;
    assert Places(job, s, t) && ThreadOk(job, init, s.selections, s.phases[t]) && RowOk(job, init, s, id);
    var s2 := s.(phases := s.phases[t := Fetch], rows := s.rows[id := Filled]);
    forall t2: nat | t2 < |s.phases| ensures ThreadOk(job, init, s2.selections, s2.phases[t2]) && Places(job, s2, t2) {
      assert Places(job, s, t2) && ThreadOk(job, init, s.selections, s.phases[t2]);
    }
    forall id2: nat | id2 < job.count ensures RowOk(job, init, s2, id2) {
      assert RowOk(job, init, s, id2);
    }
  }

  // The entry a thread compares with is the pick it stands for.
  lemma ReadsPick(job: Job, init: seq<Edge>, sel: seq<Edge>, id: nat, u: seq<Found>, picks: seq<nat>, j: nat)
    requires Sized(job, init) && Sized(job, sel) && id < job.count && RowIs(job, init, sel, id, u, picks) && j < |picks|
    ensures Slot(job.rule, id, j) < |sel| && sel[Slot(job.rule, id, j)].node == u[picks[j]].vid
  {
    SlotFits(job.rule, job.count, id, j);
    assert sel[Slot(job.rule, id, j)] == At(job, sel, id, j);
  }

  lemma BlockedStep(rule: Rule, u: seq<Found>, i: nat, j: nat)
    requires i < |u| && j < |Picks(rule, u, i)| < rule.replicas && Blocks(rule, u[Picks(rule, u, i)[j]], u[i])
    ensures Picks(rule, u, i + 1) == Picks(rule, u, i) && Refusals(rule, u, i + 1) == Refusals(rule, u, i) + 1
  {
    assert Blocked(rule, u, Picks(rule, u, i), i);
  }

  // Where a comparison leads, and what the thread knows there.
  lemma Compared(job: Job, init: seq<Edge>, sel: seq<Edge>, ph: Phase, u: seq<Found>)
    requires Sized(job, init) && Sized(job, sel) && ph.Compare? && ph.id < job.count && ph.i <= |u|
    requires Knows(job, init, sel, ph, u)
    ensures ph.j == ph.kept ==> Knows(job, init, sel, WriteNode(ph.id, ph.i, ph.kept), u)
    ensures ph.j < ph.kept ==>
      var c, k := u[ph.i], Slot(job.rule, ph.id, ph.j);
      k < |sel| &&
      if TooNear(job.rule, sel[k].node, c)
      then
        Knows(job, init, sel, Look(ph.id, ph.i + 1, ph.kept), u)
        && Refusals(job.rule, u, ph.i + 1) == Refusals(job.rule, u, ph.i) + 1
      else Knows(job, init, sel, Compare(ph.id, ph.i, ph.kept, ph.j + 1), u)
  {
    hide At, Slot, RowHalf, RowIs, Picks, Refusals, TooNear;
    if ph.j < ph.kept {
      var c, picks := u[ph.i], Picks(job.rule, u, ph.i);
      ReadsPick(job, init, sel, ph.id, u, picks, ph.j);
      if Blocks(job.rule, u[picks[ph.j]], c) { BlockedStep(job.rule, u, ph.i, ph.j); }
    }
  }

  // What a comparing thread has at hand.
  lemma AtCompare(job: Job, init: seq<Edge>, s: State, t: nat)
    requires Tick(job, init, s, t) && s.phases[t].Compare?
    ensures var ph := s.phases[t];
      Fits(job, ph) && ph.id !in job.excluded && ph.i < |Candidates(job, ph.id)|
      && Candidates(job, ph.id)[ph.i] == job.results(ph.id)[ph.i]
      && Sized(job, init) && Sized(job, s.selections)
      && Knows(job, init, s.selections, ph, Candidates(job, ph.id)) && OthersKept(job, s.selections, s.selections, ph.id)
  {
    hide At, Slot, Sum, Picks, RowIs, RowHalf, PassedBy;
    assert ThreadOk(job, init, s.selections, s.phases[t]);
  }

  lemma CompareKeeps(job: Job, init: seq<Edge>, s: State, t: nat)
    requires Tick(job, init, s, t) && s.phases[t].Compare?
    ensures Inv(job, init, Take(job, s, t))
  {
    hide At, Slot, Usable, Candidates, Picks, Refusals, Knows, TooNear, OthersKept, Sized, RowOk, Places, Sum;
    AtCompare(job, init, s, t);
    var ph, sel := s.phases[t], s.selections;
    Compared(job, init, sel, ph, Candidates(job, ph.id));
    SlotFits(job.rule, job.count, ph.id, ph.j);
    if ph.j == ph.kept {
      GoKeeps(job, init, s, t, WriteNode(ph.id, ph.i, ph.kept), sel, 0);
    } else if TooNear(job.rule, sel[Slot(job.rule, ph.id, ph.j)].node, job.results(ph.id)[ph.i]) {
      GoKeeps(job, init, s, t, Look(ph.id, ph.i + 1, ph.kept), sel, 1);
    } else {
      GoKeeps(job, init, s, t, Compare(ph.id, ph.i, ph.kept, ph.j + 1), sel, 0);
    }
  }

  lemma WriteNodeKeeps(job: Job, init: seq<Edge>, s: State, t: nat)
    requires Tick(job, init, s, t) && s.phases[t].WriteNode?
    ensures Inv(job, init, Take(job, s, t))
  {
    var ph := s.phases[t];
    var u := Candidates(job, ph.id);
    assert ThreadOk(job, init, s.selections, ph);
    SlotFits(job.rule, job.count, ph.id, ph.kept);
    var k := Slot(job.rule, ph.id, ph.kept);
    assert s.selections[k] == At(job, s.selections, ph.id, ph.kept);
    hide At, Slot, Usable, Sum, Picks, PassedBy;
    Written(job, s.selections, ph.id, ph.kept, s.selections[k].(node := u[ph.i].vid));
    var s2 := Take(job, s, t);
    assert ThreadOk(job, init, s2.selections, s2.phases[t]);
    GoKeeps(job, init, s, t, s2.phases[t], s2.selections, 0);
  }

  lemma WriteDistanceKeeps(job: Job, init: seq<Edge>, s: State, t: nat)
    requires Tick(job, init, s, t) && s.phases[t].WriteDistance?
    ensures Inv(job, init, Take(job, s, t))
  {
    var ph := s.phases[t];
    var u := Candidates(job, ph.id);
    assert ThreadOk(job, init, s.selections, ph);
    SlotFits(job.rule, job.count, ph.id, ph.kept);
    var k := Slot(job.rule, ph.id, ph.kept);
    assert s.selections[k] == At(job, s.selections, ph.id, ph.kept);
    assert !Blocked(job.rule, u, Picks(job.rule, u, ph.i), ph.i);
    assert Picks(job.rule, u, ph.i + 1) == Picks(job.rule, u, ph.i) + [ph.i];
    assert Refusals(job.rule, u, ph.i + 1) == Refusals(job.rule, u, ph.i);
    hide At, Slot, Usable, Sum, Picks, PassedBy, Refusals;
    Written(job, s.selections, ph.id, ph.kept, s.selections[k].(distance := u[ph.i].dist));
    var s2 := Take(job, s, t);
    assert ThreadOk(job, init, s2.selections, s2.phases[t]);
    GoKeeps(job, init, s, t, s2.phases[t], s2.selections, 0);
  }

  lemma LeaveKeeps(job: Job, init: seq<Edge>, s: State, t: nat)
    requires Tick(job, init, s, t) && s.phases[t].Leave?
    ensures Inv(job, init, Take(job, s, t))
  {
    hide At, Picks, Usable, PassedBy, RowIs, RowHalf, Sum, Refusals, Knows;
    var s2 := Take(job, s, t);
    SumUpdate(s.local, t, 0);
    forall t2: nat | t2 < |s.phases| ensures ThreadOk(job, init, s2.selections, s2.phases[t2]) && Places(job, s2, t2) {
      assert Places(job, s, t2) && ThreadOk(job, init, s.selections, s.phases[t2]);
    }
    forall id: nat | id < job.count ensures RowOk(job, init, s2, id) {
      assert RowOk(job, init, s, id);
    }
  }

  lemma StepKeeps(job: Job, init: seq<Edge>, s: State, t: nat)
    requires Tick(job, init, s, t)
    ensures Inv(job, init, Take(job, s, t)) && |Take(job, s, t).phases| == |s.phases|
  {
    match s.phases[t]
    case Fetch => FetchKeeps(job, init, s, t);
    case Look(_, _, _) => LookKeeps(job, init, s, t);
    case Compare(_, _, _, _) => CompareKeeps(job, init, s, t);
    case WriteNode(_, _, _) => WriteNodeKeeps(job, init, s, t);
    case WriteDistance(_, _, _) => WriteDistanceKeeps(job, init, s, t);
    case Leave => LeaveKeeps(job, init, s, t);
    case Done =>
  }

  // ---------------------------------------------------------------- whole runs

  lemma StartKeeps(job: Job, threads: nat, init: seq<Edge>)
    requires Sized(job, init)
    ensures Inv(job, init, Start(job, threads, init))
  {
    var s := Start(job, threads, init);
    forall id: nat | id < job.count ensures RowOk(job, init, s, id) {
      hide At, Usable;
    }
    SumZero(s.refused);
    SumZero(s.local);
  }

  lemma {:induction false} SumZero(s: seq<nat>)
    requires forall i :: 0 <= i < |s| ==> s[i] == 0
    ensures Sum(s) == 0
  {
    if s != [] { SumZero(s[..|s| - 1]); }
  }

  // The threads named by the schedule step in turn.
  ghost function Run(job: Job, init: seq<Edge>, s: State, schedule: seq<nat>): (r: State)
    requires Inv(job, init, s) && forall k :: 0 <= k < |schedule| ==> schedule[k] < |s.phases|
    ensures Inv(job, init, r) && |r.phases| == |s.phases|
    decreases |schedule|
  {
    if schedule == [] then s
    else
      StepKeeps(job, init, s, schedule[0]);
      Run(job, init, Take(job, s, schedule[0]), schedule[1..])
  }

  ghost function From(job: Job, init: seq<Edge>, threads: nat, schedule: seq<nat>): (r: State)
    requires Sized(job, init) && forall k :: 0 <= k < |schedule| ==> schedule[k] < threads
    ensures Inv(job, init, r) && |r.phases| == threads
  {
    StartKeeps(job, threads, init);
    Run(job, init, Start(job, threads, init), schedule)
  }

  ghost predicate AllDone(s: State) {
    forall t :: 0 <= t < |s.phases| ==> s.phases[t].Done?
  }

  ghost function RowRefusals(job: Job, id: nat): nat {
    if id in job.excluded then 0 else Refusals(job.rule, Candidates(job, id), |Candidates(job, id)|)
  }

  ghost function AllRefusals(job: Job, n: nat): nat {
    if n == 0 then 0 else AllRefusals(job, n - 1) + RowRefusals(job, n - 1)
  }

  lemma {:induction false} SumIsAll(job: Job, refused: seq<nat>)
    requires forall id :: 0 <= id < |refused| ==> refused[id] == RowRefusals(job, id)
    ensures Sum(refused) == AllRefusals(job, |refused|)
  {
    if refused != [] { SumIsAll(job, refused[..|refused| - 1]); }
  }

  // At the end of a run row `id` is done, was started once if it should be, and has its refusals counted.
  lemma RowEnds(job: Job, init: seq<Edge>, s: State, id: nat)
    requires Inv(job, init, s) && AllDone(s) && |s.phases| > 0 && id < job.count
    ensures RowDone(job, init, s.selections, id)
    ensures s.starts[id] == (if id in job.excluded then 0 else 1) && s.refused[id] == RowRefusals(job, id)
  {
    hide At, Usable, Picks, RowIs, Refusals, Sum, Knows;
    assert Places(job, s, 0) && RowOk(job, init, s, id);
  }

  /** Whatever the interleaving, once every thread is done each vector that is not excluded was started exactly
      once, the array is the pruned one and the total counts each refusal once. */
  lemma EverySchedulePrunes(job: Job, init: seq<Edge>, threads: nat, schedule: seq<nat>)
    requires Sized(job, init) && threads > 0 && forall k :: 0 <= k < |schedule| ==> schedule[k] < threads
    requires AllDone(From(job, init, threads, schedule))
    ensures var s := From(job, init, threads, schedule);
      Pruned(job, init, s.selections) && s.total == AllRefusals(job, job.count) && |s.starts| == job.count
      && forall id :: 0 <= id < job.count ==> s.starts[id] == if id in job.excluded then 0 else 1
  {
    var s := From(job, init, threads, schedule);
    hide RowDone, RowOk, ThreadOk, RowRefusals;
    forall id: nat | id < job.count
      ensures RowDone(job, init, s.selections, id) && s.refused[id] == RowRefusals(job, id)
      ensures s.starts[id] == if id in job.excluded then 0 else 1
    {
      RowEnds(job, init, s, id);
    }
    SumIsAll(job, s.refused);
    forall t | 0 <= t < |s.local| ensures s.local[t] == 0 {
      assert Places(job, s, t);
    }
    SumZero(s.local);
  }

  /** The result does not depend on the number of threads or their interleaving. */
  lemma SchedulesAgree(job: Job, init: seq<Edge>, n: nat, a: seq<nat>, m: nat, b: seq<nat>)
    requires Sized(job, init) && n > 0 && m > 0
    requires (forall k :: 0 <= k < |a| ==> a[k] < n) && forall k :: 0 <= k < |b| ==> b[k] < m
    requires AllDone(From(job, init, n, a)) && AllDone(From(job, init, m, b))
    ensures From(job, init, n, a).selections == From(job, init, m, b).selections
    ensures From(job, init, n, a).total == From(job, init, m, b).total
  {
    EverySchedulePrunes(job, init, n, a);
    EverySchedulePrunes(job, init, m, b);
    PrunedUnique(job, init, From(job, init, n, a).selections, From(job, init, m, b).selections);
  }

  // Rows below n are done and the others are as they were.
  ghost predicate DoneBelow(job: Job, init: seq<Edge>, sel: seq<Edge>, n: nat)
    requires Sized(job, init) && Sized(job, sel)
  {
    forall id: nat :: id < job.count ==>
      if id < n then RowDone(job, init, sel, id) else RowIs(job, init, sel, id, Candidates(job, id), [])
  }

  lemma DoneNext(job: Job, init: seq<Edge>, before: seq<Edge>, after: seq<Edge>, n: nat)
    requires Sized(job, init) && OthersKept(job, before, after, n) && DoneBelow(job, init, before, n) && n < job.count
    requires RowDone(job, init, after, n)
    ensures DoneBelow(job, init, after, n + 1)
  {
    assert Sized(job, after);
    hide At, Usable, Picks, RowIs, OthersKept;
    forall id: nat | id < job.count && id != n
      ensures if id < n then RowDone(job, init, after, id) else RowIs(job, init, after, id, Candidates(job, id), [])
    {
      var u := Candidates(job, id);
      RowFrame(job, init, before, after, n, id, u, if id < n && id !in job.excluded then Picks(job.rule, u, |u|) else []);
    }
  }

  // A row filled over its initial content.
  lemma FilledOverInit(job: Job, init: seq<Edge>, before: seq<Edge>, after: seq<Edge>, id: nat, u: seq<Found>, picks: seq<nat>)
    requires Sized(job, init) && Sized(job, before) && Sized(job, after) && id < job.count
    requires RowIs(job, init, before, id, u, []) && RowIs(job, before, after, id, u, picks)
    ensures RowIs(job, init, after, id, u, picks)
  {
    hide At;
  }

  // One thread alone: the ids in order, excluded ones skipped.
  method ApproximateRng(job: Job, selections: array<Edge>) returns (total: nat)
    requires Sized(job, selections[..])
    modifies selections
    ensures Pruned(job, old(selections[..]), selections[..]) && total == AllRefusals(job, job.count)
  {
    hide At, Usable, Picks, RowIs, OthersKept;
    ghost var init := selections[..];
    total := 0;
    var next := 0;
    Unchanged(job, init);
    while next < job.count
      invariant next <= job.count && total == AllRefusals(job, next)
      invariant Sized(job, selections[..]) && DoneBelow(job, init, selections[..], next)
    {
      ghost var before := selections[..];
      var id := next;
      next := next + 1;
      if id in job.excluded {
        SameKept(job, before, id);
      } else {
        var refused := PruneRow(job, selections, id);
        total := total + refused;
        var u := Candidates(job, id);
        FilledOverInit(job, init, before, selections[..], id, u, Picks(job.rule, u, |u|));
      }
      DoneNext(job, init, before, selections[..], id);
    }
  }

  lemma Unchanged(job: Job, init: seq<Edge>)
    requires Sized(job, init)
    ensures DoneBelow(job, init, init, 0)
  {
    hide At, Usable;
  }

  lemma SameKept(job: Job, sel: seq<Edge>, id: nat)
    requires Sized(job, sel)
    ensures OthersKept(job, sel, sel, id)
  {
  }

  // ---------------------------------------------------------------- runs end

  // Steps left for the results of `id` from the i-th on: at most replicas + 4 for each.
  ghost function Ahead(job: Job, id: nat, i: int): int {
    (|job.results(id)| - i) * (job.rule.replicas + 4)
  }

  // Steps left for a thread; the last two take it away.
  ghost function Left(job: Job, ph: Phase): int {
    match ph
    case Fetch => 2
    case Look(id, i, kept) => 3 + Ahead(job, id, i)
    case Compare(id, i, kept, j) => 2 + Ahead(job, id, i) - j
    case WriteNode(id, i, kept) => 5 + Ahead(job, id, i + 1)
    case WriteDistance(id, i, kept) => 4 + Ahead(job, id, i + 1)
    case Leave => 1
    case Done => 0
  }

  // Steps left for the ids not yet fetched.
  ghost function Pool(job: Job, next: nat): nat
    decreases job.count - next
  {
    if next >= job.count then 0
    else 2 + Ahead(job, next, 0) + Pool(job, next + 1)
  }

  ghost function Lefts(job: Job, phases: seq<Phase>): int {
    if phases == [] then 0 else Lefts(job, phases[..|phases| - 1]) + Left(job, phases[|phases| - 1])
  }

  ghost function Work(job: Job, s: State): int { Pool(job, s.next) + Lefts(job, s.phases) }

  lemma {:induction false} LeftsUpdate(job: Job, phases: seq<Phase>, t: nat, ph: Phase)
    requires t < |phases|
    ensures Lefts(job, phases[t := ph]) == Lefts(job, phases) - Left(job, phases[t]) + Left(job, ph)
  {
    var n := |phases| - 1;
    if t == n {
      assert phases[t := ph][..n] == phases[..n];
    } else {
      assert phases[t := ph][..n] == phases[..n][t := ph];
      LeftsUpdate(job, phases[..n], t, ph);
    }
  }

  lemma AheadDrops(job: Job, id: nat, i: nat)
    requires i <= |job.results(id)|
    ensures Ahead(job, id, i) == Ahead(job, id, i + 1) + job.rule.replicas + 4
    ensures Ahead(job, id, i) >= 0
  {
  }

  lemma LeftNonNegative(job: Job, ph: Phase)
    requires Fits(job, ph)
    ensures Left(job, ph) >= 0
  {
    hide Ahead;
    if Holds(ph) {
      AheadDrops(job, ph.id, ph.i);
      if !ph.Look? { AheadDrops(job, ph.id, ph.i + 1); }
    }
  }

  lemma {:induction false} LeftsNonNegative(job: Job, phases: seq<Phase>)
    requires forall t :: 0 <= t < |phases| ==> Left(job, phases[t]) >= 0
    ensures Lefts(job, phases) >= 0
  {
    if phases != [] { LeftsNonNegative(job, phases[..|phases| - 1]); }
  }

  lemma WorkNonNegative(job: Job, init: seq<Edge>, s: State)
    requires Inv(job, init, s)
    ensures Work(job, s) >= 0
  {
    hide RowOk, Sum, Left, ThreadOk;
    forall t | 0 <= t < |s.phases| ensures Left(job, s.phases[t]) >= 0 {
      LeftNonNegative(job, s.phases[t]);
    }
    LeftsNonNegative(job, s.phases);
  }

  lemma StepDescends(job: Job, s: State, t: nat)
    requires Shaped(job, s) && t < |s.phases| && !s.phases[t].Done?
    ensures Work(job, Take(job, s, t)) < Work(job, s)
  {
    hide Slot, TooNear, Sized, Lefts, Ahead;
    var ph, s2 := s.phases[t], Take(job, s, t);
    assert s2.phases == s.phases[t := s2.phases[t]];
    LeftsUpdate(job, s.phases, t, s2.phases[t]);
    AheadDrops(job, s.next, 0);
    if Holds(ph) { AheadDrops(job, ph.id, ph.i); }
  }

  // Every step of the schedule is taken by a thread that is not done yet.
  ghost predicate Busily(job: Job, init: seq<Edge>, s: State, schedule: seq<nat>)
    requires Inv(job, init, s) && forall k :: 0 <= k < |schedule| ==> schedule[k] < |s.phases|
    decreases |schedule|
  {
    schedule == [] || (
      StepKeeps(job, init, s, schedule[0]);
      !s.phases[schedule[0]].Done? && Busily(job, init, Take(job, s, schedule[0]), schedule[1..]))
  }

  /** No run goes on for ever: the work there is at the start bounds the steps of every schedule. */
  lemma {:induction false} EveryRunEnds(job: Job, init: seq<Edge>, s: State, schedule: seq<nat>)
    requires Inv(job, init, s) && forall k :: 0 <= k < |schedule| ==> schedule[k] < |s.phases|
    requires Busily(job, init, s, schedule)
    ensures |schedule| <= Work(job, s)
    decreases |schedule|
  {
    hide Take, Work, RowOk, ThreadOk;
    WorkNonNegative(job, init, s);
    if schedule != [] {
      StepKeeps(job, init, s, schedule[0]);
      Descends(job, init, s, schedule[0]);
      EveryRunEnds(job, init, Take(job, s, schedule[0]), schedule[1..]);
    }
  }

  lemma Descends(job: Job, init: seq<Edge>, s: State, t: nat)
    requires Inv(job, init, s) && t < |s.phases| && !s.phases[t].Done?
    ensures Work(job, Take(job, s, t)) < Work(job, s)
  {
    StepDescends(job, s, t);
  }
}
