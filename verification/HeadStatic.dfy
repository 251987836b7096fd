/** Static head selection: the candidates of the depth-first pass, nearest to the leaves first, the queue of small
    clusters, and the removal of the id that is no vector. */
module HeadStatic {
  import opened Common
  import opened ClusterTree
  import opened HeadGrouping
  import opened HeadRevisit

  datatype Limits = Limits(selectThreshold: int, splitThreshold: int, splitFactor: int, recursive: bool, selectLimit: int)

  /** Nearest to the leaves first, the larger first among those equally near. */
  predicate ByDepth(cs: seq<Candidate>) {
    forall i, j :: 0 <= i < j < |cs| ==> Earlier(cs[i], cs[j])
  }

  predicate Earlier(a: Candidate, b: Candidate) {
    a.depth < b.depth || (a.depth == b.depth && a.size >= b.size)
  }

  predicate IsSmall(c: Candidate, o: Limits) {
    c.depth <= 1 && c.size < o.selectThreshold
  }

  ghost predicate Placed(t: Tree, cs: seq<Candidate>) {
    forall i :: 0 <= i < |cs| ==> 0 <= cs[i].node < |t|
  }

  /** What the loop is given: candidates of the tree, and splits that stay inside it. */
  ghost predicate Fit(t: Tree, o: Limits, cs: seq<Candidate>) {
    o.splitFactor >= 1 && Placed(t, cs) && forall i :: 0 <= i < |cs| ==> SplitFits(t, o, cs[i])
  }

  predicate SplitFits(t: Tree, o: Limits, c: Candidate)
    requires o.splitFactor >= 1
  {
    && 0 <= c.node < |t| && c.size >= 0 && t[c.node].childStart >= 0
    && (c.depth <= 1 && c.size > o.splitThreshold ==> t[c.node].childStart + SelectCount(c.size, o.splitFactor) <= |t|)
  }

  /** The parents of the small clusters among the first `n` candidates, in order. */
  ghost function SmallParents(rows: seq<Info>, o: Limits, cs: seq<Candidate>, n: nat): (q: seq<int>)
    requires n <= |cs| && forall i :: 0 <= i < n ==> 0 <= cs[i].node < |rows|
  {
    if n == 0 then []
    else SmallParents(rows, o, cs, n - 1) + if IsSmall(cs[n - 1], o) then [rows[cs[n - 1].node].parent] else []
  }

  /** Every small cluster among the first `n` candidates is provided for. */
  ghost predicate AllProvided(t: Tree, rows: seq<Info>, o: Limits, cs: seq<Candidate>, n: nat, selected: set<int>)
    requires LinksUp(t, rows) && n <= |cs| && Placed(t, cs)
  {
    forall i :: 0 <= i < n && IsSmall(cs[i], o) ==>
      Provided(t, rows, o.selectThreshold, selected, [], rows[cs[i].node].parent)
  }

  ghost predicate AllLargeIn(t: Tree, o: Limits, cs: seq<Candidate>, n: nat, selected: set<int>)
    requires n <= |cs| && Placed(t, cs)
  {
    forall i :: 0 <= i < n && cs[i].depth <= 1 && cs[i].size >= o.selectThreshold ==> t[cs[i].node].center in selected
  }

  lemma {:induction false} ParentsAreIds(t: Tree, rows: seq<Info>, o: Limits, cs: seq<Candidate>, n: nat)
    requires LinksUp(t, rows) && n <= |cs| && Placed(t, cs)
    ensures Ids(SmallParents(rows, o, cs, n), |t|)
  {
    if n > 0 {
      ParentsAreIds(t, rows, o, cs, n - 1);
      LinkOf(t, rows, cs[n - 1].node);
    }
  }

  lemma {:induction false} ParentQueued(t: Tree, rows: seq<Info>, o: Limits, cs: seq<Candidate>, n: nat, i: nat)
    requires LinksUp(t, rows) && n <= |cs| && Placed(t, cs) && i < n && IsSmall(cs[i], o)
    ensures rows[cs[i].node].parent in SmallParents(rows, o, cs, n)
  {
    if i < n - 1 { ParentQueued(t, rows, o, cs, n - 1, i); }
  }

  /** Draining the queue of the first n candidates. */
  method Drain(t: Tree, rows: seq<Info>, o: Limits, cs: seq<Candidate>, ghost n: nat, was: set<int>, queue: seq<int>)
    returns (selected: set<int>)
    requires LinksUp(t, rows) && n <= |cs| && Placed(t, cs)
    requires queue == SmallParents(rows, o, cs, n)
    ensures was <= selected && AllProvided(t, rows, o, cs, n, selected)
    ensures |rows| == |t| && forall v :: v in selected && v !in was ==> LargeCenter(t, rows, o.selectThreshold, v)
  {
    ParentsAreIds(t, rows, o, cs, n);
    selected := was;
    if queue != [] {
      selected := DrainRevisit(t, rows, o.selectThreshold, was, queue);
    }
    forall i | 0 <= i < n && IsSmall(cs[i], o)
      ensures Provided(t, rows, o.selectThreshold, selected, [], rows[cs[i].node].parent)
    {
      ParentQueued(t, rows, o, cs, n, i);
    }
  }

  lemma {:induction false} ProvidedGrows(t: Tree, rows: seq<Info>, threshold: int, a: set<int>, b: set<int>, n: int)
    requires LinksUp(t, rows) && n < |t| && a <= b && Provided(t, rows, threshold, a, [], n)
    ensures Provided(t, rows, threshold, b, [], n)
    decreases n
  {
    if n >= 0 && t[n].center !in a { ProvidedGrows(t, rows, threshold, a, b, rows[n].parent); }
  }

  lemma AllProvidedGrows(t: Tree, rows: seq<Info>, o: Limits, cs: seq<Candidate>, n: nat, a: set<int>, b: set<int>)
    requires LinksUp(t, rows) && n <= |cs| && Placed(t, cs)
    requires a <= b && AllProvided(t, rows, o, cs, n, a)
    ensures AllProvided(t, rows, o, cs, n, b)
  {
    forall i | 0 <= i < n && IsSmall(cs[i], o)
      ensures Provided(t, rows, o.selectThreshold, b, [], rows[cs[i].node].parent)
    {
      ProvidedGrows(t, rows, o.selectThreshold, a, b, rows[cs[i].node].parent);
    }
  }

  /** The centres of the further children a split selects: the second up to the count-th. */
  ghost function SplitCentres(t: Tree, node: int, count: nat): set<int>
    requires InTree(t, node) && 0 <= t[node].childStart && t[node].childStart + count <= |t|
  {
    set k | t[node].childStart < k < t[node].childStart + count :: t[k].center
  }

  lemma SplitGrows(t: Tree, node: int, i: nat)
    requires InTree(t, node) && 0 <= t[node].childStart && t[node].childStart + i < |t| && i >= 1
    ensures SplitCentres(t, node, i + 1) == SplitCentres(t, node, i) + {t[t[node].childStart + i].center}
  {
  }

  /** What a cluster next to the leaves selects. */
  ghost function ShallowCentres(t: Tree, o: Limits, c: Candidate): set<int>
    requires o.splitFactor >= 1 && SplitFits(t, o, c) && c.depth <= 1
  {
    (if c.size >= o.selectThreshold then {t[c.node].center} else {})
    + if c.size > o.splitThreshold then SplitCentres(t, c.node, SelectCount(c.size, o.splitFactor)) else {}
  }

  /** A cluster next to the leaves: its own centre if it is large, and the further children its split selects. */
  method SelectShallow(t: Tree, o: Limits, c: Candidate, was: set<int>) returns (selected: set<int>)
    requires o.splitFactor >= 1 && SplitFits(t, o, c) && c.depth <= 1
    ensures selected == was + ShallowCentres(t, o, c)
  {
    selected := was;
    if c.size >= o.selectThreshold {
      selected := selected + {t[c.node].center};
    }
    ghost var own := selected;
    if c.size > o.splitThreshold {
      var selectCount := SelectCount(c.size, o.splitFactor);
      var i := 1;
      while i < selectCount
        invariant 1 <= i && (i <= selectCount || i == 1)
        invariant selected == own + SplitCentres(t, c.node, Min(i, selectCount))
      {
        SplitGrows(t, c.node, i);
        selected := selected + {t[t[c.node].childStart + i].center};
        i := i + 1;
      }
    }
  }

  /** Some candidate lies more than one level above the leaves. */
  ghost predicate HasDeep(cs: seq<Candidate>) {
    exists i :: 0 <= i < |cs| && cs[i].depth > 1
  }

  /** Why candidate c puts id v into the set. */
  ghost predicate Reason(t: Tree, o: Limits, c: Candidate, v: int)
    requires o.splitFactor >= 1 && SplitFits(t, o, c)
  {
    if c.depth <= 1 then v in ShallowCentres(t, o, c) else t[c.node].center == v
  }

  /** Every selected id is the centre of a large cluster or has a reason among the first n candidates. */
  ghost predicate Justified(t: Tree, rows: seq<Info>, o: Limits, cs: seq<Candidate>, n: nat, selected: set<int>)
    requires |rows| == |t| && Fit(t, o, cs) && n <= |cs|
  {
    forall v :: v in selected ==>
      LargeCenter(t, rows, o.selectThreshold, v) || exists i :: 0 <= i < n && Reason(t, o, cs[i], v)
  }

  lemma JustifiedStep(t: Tree, rows: seq<Info>, o: Limits, cs: seq<Candidate>, n: nat, was: set<int>, drained: set<int>, now: set<int>)
    requires |rows| == |t| && Fit(t, o, cs) && n < |cs| && Justified(t, rows, o, cs, n, was)
    requires forall v :: v in drained && v !in was ==> LargeCenter(t, rows, o.selectThreshold, v)
    requires forall v :: v in now && v !in drained ==> Reason(t, o, cs[n], v)
    ensures Justified(t, rows, o, cs, n + 1, now)
  {
    hide LargeCenter, Reason;
    forall v | v in now
      ensures LargeCenter(t, rows, o.selectThreshold, v) || exists i :: 0 <= i < n + 1 && Reason(t, o, cs[i], v)
    {
      if v in was && !LargeCenter(t, rows, o.selectThreshold, v) {
        var i :| 0 <= i < n && Reason(t, o, cs[i], v);
        assert 0 <= i < n + 1;
      }
    }
  }

  lemma JustifiedLater(t: Tree, rows: seq<Info>, o: Limits, cs: seq<Candidate>, n: nat, selected: set<int>)
    requires |rows| == |t| && Fit(t, o, cs) && n <= |cs| && Justified(t, rows, o, cs, n, selected)
    ensures Justified(t, rows, o, cs, |cs|, selected)
  {
    hide LargeCenter, Reason;
  }

  /** The centres of the candidates among the first n that lie more than one level above the leaves. */
  ghost function DeepCentres(t: Tree, cs: seq<Candidate>, n: nat): set<int>
    requires n <= |cs| && Placed(t, cs)
  {
    set i | 0 <= i < n && cs[i].depth > 1 :: t[cs[i].node].center
  }

  /** What is selected after n candidates: `base` and the deep ones among them, each of which found room. */
  ghost predicate DeepPart(t: Tree, o: Limits, cs: seq<Candidate>, n: nat, base: set<int>, selected: set<int>)
    requires n <= |cs| && Placed(t, cs)
  {
    && selected == base + DeepCentres(t, cs, n)
    && forall q :: 0 <= q < n && cs[q].depth > 1 ==> |base + DeepCentres(t, cs, q)| < o.selectLimit
  }

  lemma DeepStarts(t: Tree, o: Limits, cs: seq<Candidate>, n: nat, base: set<int>)
    requires n <= |cs| && Placed(t, cs) && forall i :: 0 <= i < n ==> cs[i].depth <= 1
    ensures DeepPart(t, o, cs, n, base, base)
  {
    assert DeepCentres(t, cs, n) == {};
  }

  lemma DeepAdds(t: Tree, o: Limits, cs: seq<Candidate>, n: nat, base: set<int>, selected: set<int>)
    requires n < |cs| && Placed(t, cs) && DeepPart(t, o, cs, n, base, selected)
    requires cs[n].depth > 1 && |selected| < o.selectLimit
    ensures DeepPart(t, o, cs, n + 1, base, selected + {t[cs[n].node].center})
  {
    hide DeepCentres;
    DeepGrows(t, cs, n);
    assert (base + DeepCentres(t, cs, n)) + {t[cs[n].node].center} == base + DeepCentres(t, cs, n + 1);
  }

  lemma DeepGrows(t: Tree, cs: seq<Candidate>, n: nat)
    requires n < |cs| && Placed(t, cs) && cs[n].depth > 1
    ensures DeepCentres(t, cs, n + 1) == DeepCentres(t, cs, n) + {t[cs[n].node].center}
  {
  }

  /** A cluster next to the leaves that is split has its second up to count-th child selected. */
  ghost predicate SplitIn(t: Tree, o: Limits, c: Candidate, selected: set<int>)
    requires o.splitFactor >= 1 && InTree(t, c.node)
  {
    c.depth <= 1 && c.size > o.splitThreshold && c.size >= 0 ==>
      forall k :: 1 <= k < SelectCount(c.size, o.splitFactor) ==> ChildCentre(t, c.node, k) in selected
  }

  /** The centre of child number k. */
  ghost function ChildCentre(t: Tree, n: int, k: int): int
    requires InTree(t, n)
  {
    CenterOf(t, t[n].childStart + k)
  }

  ghost predicate AllSplitIn(t: Tree, o: Limits, cs: seq<Candidate>, n: nat, selected: set<int>)
    requires n <= |cs| && Placed(t, cs) && o.splitFactor >= 1
  {
    forall i :: 0 <= i < n ==> SplitIn(t, o, cs[i], selected)
  }

  lemma SplitsAreIn(t: Tree, o: Limits, c: Candidate, selected: set<int>)
    requires o.splitFactor >= 1 && SplitFits(t, o, c) && (c.depth <= 1 ==> ShallowCentres(t, o, c) <= selected)
    ensures SplitIn(t, o, c, selected)
  {
    hide SelectCount;
    if c.depth <= 1 && c.size > o.splitThreshold {
      forall k | 1 <= k < SelectCount(c.size, o.splitFactor) ensures ChildCentre(t, c.node, k) in selected {
        assert t[t[c.node].childStart + k].center in SplitCentres(t, c.node, SelectCount(c.size, o.splitFactor));
      }
    }
  }

  lemma AllSplitNext(t: Tree, o: Limits, cs: seq<Candidate>, n: nat, was: set<int>, now: set<int>)
    requires n <= |cs| && Placed(t, cs) && o.splitFactor >= 1 && AllSplitIn(t, o, cs, n, was) && was <= now
    ensures AllSplitIn(t, o, cs, n, now)
    ensures n < |cs| && SplitIn(t, o, cs[n], now) ==> AllSplitIn(t, o, cs, n + 1, now)
    ensures n < |cs| && IsDeepFrom(cs, n) ==> AllSplitIn(t, o, cs, |cs|, now)
  {
    forall i | 0 <= i < n ensures SplitIn(t, o, cs[i], now) {
      SplitInGrows(t, o, cs[i], was, now);
    }
    hide SelectCount;
  }

  lemma SplitInGrows(t: Tree, o: Limits, c: Candidate, was: set<int>, now: set<int>)
    requires o.splitFactor >= 1 && InTree(t, c.node) && was <= now && SplitIn(t, o, c, was)
    ensures SplitIn(t, o, c, now)
  {
    hide SelectCount;
  }

  lemma LargeNext(t: Tree, o: Limits, cs: seq<Candidate>, n: nat, was: set<int>, now: set<int>)
    requires n < |cs| && Placed(t, cs) && AllLargeIn(t, o, cs, n, was) && was <= now
    requires cs[n].depth <= 1 && cs[n].size >= o.selectThreshold ==> t[cs[n].node].center in now
    ensures AllLargeIn(t, o, cs, n, now) && AllLargeIn(t, o, cs, n + 1, now)
  {
  }

  lemma ProvidedNext(t: Tree, rows: seq<Info>, o: Limits, cs: seq<Candidate>, n: nat, was: set<int>, now: set<int>)
    requires LinksUp(t, rows) && n < |cs| && Placed(t, cs) && was <= now && AllProvided(t, rows, o, cs, n, was)
    requires cs[n].depth > 1
    ensures AllProvided(t, rows, o, cs, n + 1, now)
  {
    hide LinksUp, Provided;
    AllProvidedGrows(t, rows, o, cs, n, was, now);
  }

  /** The candidate loop.  `left` is the queue it ends with, drained if and only if some candidate lies more than one level
      above the leaves.  `base` is what the clusters next to the leaves and the queue select; then the deeper candidates
      are added in order as long as fewer than the limit are selected. */
  method SelectCandidates(t: Tree, rows: seq<Info>, o: Limits, cs: seq<Candidate>)
    returns (selected: set<int>, left: seq<int>, ghost base: set<int>, ghost used: nat)
    requires LinksUp(t, rows) && |rows| == |t| && Fit(t, o, cs) && ByDepth(cs)
    ensures AllLargeIn(t, o, cs, |cs|, selected)
    ensures o.recursive && HasDeep(cs) ==> left == [] && AllProvided(t, rows, o, cs, |cs|, selected)
    ensures o.recursive && !HasDeep(cs) ==> left == SmallParents(rows, o, cs, |cs|)
    ensures !o.recursive ==> left == []
    ensures Justified(t, rows, o, cs, |cs|, selected)
    ensures AllSplitIn(t, o, cs, |cs|, selected)
    ensures used <= |cs| && DeepPart(t, o, cs, used, base, selected)
    ensures used < |cs| ==> cs[used].depth > 1 && |selected| >= o.selectLimit
  {
    hide LinksUp, Provided, LargeCenter, Justified, ShallowCentres, SplitFits, DeepPart, AllSplitIn, SplitIn, AllLargeIn,
         AllProvided;
    NothingLarge(t, o, cs);
    selected, left, base, used := {}, [], {}, 0;
    DeepStarts(t, o, cs, 0, {});
    NothingSplit(t, o, cs);
    var nextDepth, j := 1, 0;
    assert Justified(t, rows, o, cs, 0, {}) by { NothingToJustify(t, rows, o, cs); }
    while j < |cs|
      invariant 0 <= j <= |cs| && nextDepth >= 1
      invariant nextDepth > 1 <==> exists i :: 0 <= i < j && cs[i].depth > 1
      invariant AllLargeIn(t, o, cs, j, selected)
      invariant nextDepth == 1 ==> left == if o.recursive then SmallParents(rows, o, cs, j) else []
      invariant nextDepth > 1 ==> left == [] && (o.recursive ==> AllProvided(t, rows, o, cs, j, selected))
      invariant Justified(t, rows, o, cs, j, selected)
      invariant AllSplitIn(t, o, cs, j, selected)
      invariant DeepPart(t, o, cs, j, base, selected)
    {
      used := j;
      var c := cs[j];
      ghost var before := selected;
      if c.depth > nextDepth {
        if o.recursive && nextDepth == 1 {
          selected := Drain(t, rows, o, cs, j, selected, left);
          left := [];
        }
        if nextDepth == 1 {
          DeepStarts(t, o, cs, j, selected);
          base := selected;
        }
        nextDepth := c.depth;
      }
      ghost var drained := selected;
      assert SplitFits(t, o, c);
      if c.depth <= 1 {
        selected := SelectShallow(t, o, c, selected);
        OwnCentre(t, o, c);
        if c.size < o.selectThreshold && o.recursive {
          left := left + [rows[c.node].parent];
        }
        DeepStarts(t, o, cs, j + 1, selected);
        base := selected;
      } else {
        assert IsDeepFrom(cs, j) by { DeepFrom(cs, j); }
        if |selected| >= o.selectLimit {
          LargeNext(t, o, cs, j, before, selected);
          DeepTail(t, rows, o, cs, j, selected);
          JustifiedStep(t, rows, o, cs, j, before, drained, selected);
          JustifiedLater(t, rows, o, cs, j + 1, selected);
          AllSplitNext(t, o, cs, j, before, selected);
          return;
        }
        DeepAdds(t, o, cs, j, base, selected);
        selected := selected + {t[c.node].center};
      }
      SplitsAreIn(t, o, c, selected);
      JustifiedStep(t, rows, o, cs, j, before, drained, selected);
      AllSplitNext(t, o, cs, j, before, selected);
      LargeNext(t, o, cs, j, before, selected);
      if o.recursive && nextDepth > 1 { ProvidedNext(t, rows, o, cs, j, drained, selected); }
      j := j + 1;
    }
    used := |cs|;
  }

  lemma NothingLarge(t: Tree, o: Limits, cs: seq<Candidate>)
    requires Placed(t, cs)
    ensures AllLargeIn(t, o, cs, 0, {})
  {
  }

  lemma NothingSplit(t: Tree, o: Limits, cs: seq<Candidate>)
    requires Placed(t, cs) && o.splitFactor >= 1
    ensures AllSplitIn(t, o, cs, 0, {})
  {
  }

  lemma NothingToJustify(t: Tree, rows: seq<Info>, o: Limits, cs: seq<Candidate>)
    requires |rows| == |t| && Fit(t, o, cs)
    ensures Justified(t, rows, o, cs, 0, {})
  {
  }

  lemma OwnCentre(t: Tree, o: Limits, c: Candidate)
    requires o.splitFactor >= 1 && SplitFits(t, o, c) && c.depth <= 1
    ensures c.size >= o.selectThreshold ==> t[c.node].center in ShallowCentres(t, o, c)
  {
  }

  ghost predicate IsDeepFrom(cs: seq<Candidate>, j: nat) {
    forall i :: j <= i < |cs| ==> cs[i].depth > 1
  }

  lemma DeepFrom(cs: seq<Candidate>, j: nat)
    requires ByDepth(cs) && j < |cs| && cs[j].depth > 1
    ensures IsDeepFrom(cs, j)
  {
  }

  /** Candidates after the first deep one are neither large leaves' clusters nor small ones. */
  lemma DeepTail(t: Tree, rows: seq<Info>, o: Limits, cs: seq<Candidate>, j: nat, selected: set<int>)
    requires LinksUp(t, rows) && j <= |cs| && IsDeepFrom(cs, j) && Placed(t, cs)
    ensures AllLargeIn(t, o, cs, j, selected) ==> AllLargeIn(t, o, cs, |cs|, selected)
    ensures AllProvided(t, rows, o, cs, j, selected) ==> AllProvided(t, rows, o, cs, |cs|, selected)
  {
  }

  lemma LinksLength(t: Tree, rows: seq<Info>)
    requires LinksUp(t, rows)
    ensures |rows| == |t|
  {
  }


  // ---- The candidates of the pass ----

  /** A node of the recorded tree. */
  ghost predicate Reached(t: Tree, n: int)
    requires WellFormed(t)
  {
    InTree(t, n) && (n == 0 || n in Nodes(Children(t, 0)))
  }

  ghost predicate Internal(t: Tree, n: int)
    requires WellFormed(t)
  {
    Reached(t, n) && t[n].childStart >= 0
  }

  /** What the pass records of a node. */
  ghost function CandidateOf(t: Tree, n: int): Candidate
    requires WellFormed(t) && InTree(t, n)
  {
    Candidate(n, Leaves(t, n), Depth(t, n))
  }

  lemma {:induction false} ListedBelow(t: Tree, lo: int, hi: int, c: Candidate)
    requires WellFormed(t) && MarkedLeaves(t) && InRange(t, lo, hi) && c in CandidatesOf(t, View(t, lo, hi))
    ensures c.node in Nodes(View(t, lo, hi)) && InTree(t, c.node) && t[c.node].childStart >= 0 && c == CandidateOf(t, c.node)
    decreases |t| - lo, hi - lo
  {
    hide View, Nodes, CandidatesOf, Leaves, Depth;
    if lo < hi {
      RecordsExtend(t, lo, hi - 1);
      LeavesExtend(t, lo, hi - 1);
      var n := hi - 1;
      assert Subtree(t, n) == [n] + Nodes(Children(t, n)) by { SubtreeSplits(t, n); ChildrenAre(t, n); }
      if c in CandidatesOf(t, View(t, lo, n)) {
        ListedBelow(t, lo, n, c);
      } else if c in CandidatesOf(t, Children(t, n)) {
        ChildrenAre(t, n);
        ListedBelow(t, First(t, n), Last(t, n), c);
      }
    } else {
      NoneListed(t, lo, hi);
    }
  }

  lemma NoneListed(t: Tree, lo: int, hi: int)
    requires WellFormed(t) && InRange(t, lo, hi) && lo >= hi
    ensures CandidatesOf(t, View(t, lo, hi)) == [] && Nodes(View(t, lo, hi)) == []
  {
  }

  lemma {:induction false} BelowListed(t: Tree, lo: int, hi: int, n: int)
    requires WellFormed(t) && MarkedLeaves(t) && InRange(t, lo, hi) && n in Nodes(View(t, lo, hi))
    requires InTree(t, n) && t[n].childStart >= 0
    ensures CandidateOf(t, n) in CandidatesOf(t, View(t, lo, hi))
    decreases |t| - lo, hi - lo
  {
    hide View, Nodes, CandidatesOf, Leaves, Depth;
    if lo < hi {
      RecordsExtend(t, lo, hi - 1);
      LeavesExtend(t, lo, hi - 1);
      var m := hi - 1;
      assert Subtree(t, m) == [m] + Nodes(Children(t, m)) by { SubtreeSplits(t, m); ChildrenAre(t, m); }
      if n in Nodes(View(t, lo, m)) {
        BelowListed(t, lo, m, n);
      } else if n != m {
        ChildrenAre(t, m);
        NoneUnderLeaf(t, m);
        BelowListed(t, First(t, m), Last(t, m), n);
      }
    } else {
      NoneListed(t, lo, hi);
    }
  }

  lemma NoneUnderLeaf(t: Tree, m: int)
    requires WellFormed(t) && InTree(t, m)
    ensures t[m].childStart == -1 ==> Nodes(Children(t, m)) == []
  {
  }

  /** The pass lists exactly the internal nodes, each with its exact leaf count and depth. */
  lemma CandidatesAreInternal(t: Tree, c: Candidate)
    requires WellFormed(t) && MarkedLeaves(t)
    ensures c in CandidatesAt(t, 0) <==> Internal(t, c.node) && c == CandidateOf(t, c.node)
  {
    hide View, Nodes, CandidatesOf, Leaves, Depth;
    ChildrenAre(t, 0);
    NoneUnderLeaf(t, 0);
    if t[0].childStart != -1 {
      if c in CandidatesOf(t, Children(t, 0)) { ListedBelow(t, First(t, 0), Last(t, 0), c); }
      if c.node in Nodes(Children(t, 0)) && Internal(t, c.node) { BelowListed(t, First(t, 0), Last(t, 0), c.node); }
    }
  }

  // ---- Without a deep candidate ----

  /** The list holds exactly what the pass records. */
  ghost predicate Exactly(t: Tree, cs: seq<Candidate>)
    requires WellFormed(t)
  {
    forall c :: c in cs <==> Internal(t, c.node) && c == CandidateOf(t, c.node)
  }

  /** An undrained queue is harmless: without a deep candidate every large cluster is selected, so every internal node is
      provided for as it is. */
  lemma {:induction false} UndrainedIsHarmless(t: Tree, rows: seq<Info>, o: Limits, cs: seq<Candidate>, selected: set<int>, n: int)
    requires WellFormed(t) && MarkedLeaves(t) && UniqueParents(t) && Passed(t, rows) && Exactly(t, cs) && Placed(t, cs)
    requires !HasDeep(cs) && AllLargeIn(t, o, cs, |cs|, selected) && Internal(t, n)
    ensures Provided(t, rows, o.selectThreshold, selected, [], n)
    decreases n
  {
    hide Nodes, View, Leaves, Depth, Children;
    assert n == 0 || Good(t, rows, n);
    if rows[n].leafSize >= o.selectThreshold {
      assert CandidateOf(t, n) in cs;
      var i :| 0 <= i < |cs| && cs[i] == CandidateOf(t, n);
    } else if n != 0 {
      var p := rows[n].parent;
      LinkStaysBelowRoot(t, p, n);
      ParentIsInternal(t, p, n);
      UndrainedIsHarmless(t, rows, o, cs, selected, p);
    }
  }

  lemma ParentIsInternal(t: Tree, p: int, n: int)
    requires WellFormed(t) && InTree(t, p) && IsChild(t, p, n)
    ensures t[p].childStart >= 0
  {
  }

  // ---- From the tree to the selected vectors ----

  type CandidateSorter = seq<Candidate> -> seq<Candidate>

  ghost predicate SortsByDepth(sort: CandidateSorter) {
    forall cs: seq<Candidate> :: ByDepth(sort(cs)) && multiset(sort(cs)) == multiset(cs)
  }

  /** Splits read only nodes of the array. */
  ghost predicate SplitsStayInside(t: Tree, o: Limits)
    requires WellFormed(t)
  {
    o.splitFactor >= 1 && forall n :: Internal(t, n) ==> SplitFits(t, o, CandidateOf(t, n))
  }

  /** A cluster next to the leaves, below the root, with too few leaves. */
  ghost predicate SmallCluster(t: Tree, o: Limits, x: int)
    requires WellFormed(t)
  {
    Internal(t, x) && x != 0 && IsSmall(CandidateOf(t, x), o)
  }

  /** No node from an ancestor of x up to `a` carries the id v. */
  ghost predicate ClearPath(t: Tree, a: int, x: int, v: int)
    requires WellFormed(t)
  {
    forall p :: Descends(t, p, x) && (p == a || Descends(t, a, p)) ==> t[p].center != v
  }

  /** Why an id may be selected: it is the centre of a large cluster, of one above the clusters next to the leaves, or
      of a child that a split of a cluster next to the leaves selects. */
  ghost predicate MayBeSelected(t: Tree, o: Limits, v: int)
    requires WellFormed(t) && SplitsStayInside(t, o)
  {
    || (exists n :: Reached(t, n) && t[n].center == v && Leaves(t, n) >= o.selectThreshold)
    || (exists n :: Internal(t, n) && Reason(t, o, CandidateOf(t, n), v))
  }

  lemma AllUnvisited(depths: seq<int>, nodes: seq<int>)
    requires forall i :: 0 <= i < |depths| ==> depths[i] == NO_DEPTH
    ensures Unvisited(depths, nodes)
  {
  }

  lemma SortedIsExact(t: Tree, o: Limits, sort: CandidateSorter, cs: seq<Candidate>)
    requires WellFormed(t) && MarkedLeaves(t) && SplitsStayInside(t, o) && SortsByDepth(sort) && cs == sort(CandidatesAt(t, 0))
    ensures ByDepth(cs) && Exactly(t, cs) && Fit(t, o, cs)
  {
    hide Nodes, Children, CandidatesAt, SplitFits, Leaves, Depth;
    var all := CandidatesAt(t, 0);
    forall c ensures c in cs <==> Internal(t, c.node) && c == CandidateOf(t, c.node) {
      assert c in cs <==> c in multiset(cs);
      assert c in all <==> c in multiset(all);
      CandidatesAreInternal(t, c);
    }
    forall i | 0 <= i < |cs| ensures 0 <= cs[i].node < |t| && SplitFits(t, o, cs[i]) {
      assert cs[i] in cs;
      InternalInTree(t, cs[i].node);
    }
  }

  lemma InternalInTree(t: Tree, n: int)
    requires WellFormed(t) && Internal(t, n)
    ensures InTree(t, n)
  {
  }

  lemma LargeAreChosen(t: Tree, o: Limits, cs: seq<Candidate>, chosen: set<int>)
    requires WellFormed(t) && Exactly(t, cs) && Placed(t, cs) && AllLargeIn(t, o, cs, |cs|, chosen)
    ensures forall x :: Internal(t, x) && Depth(t, x) <= 1 && Leaves(t, x) >= o.selectThreshold ==> t[x].center in chosen
  {
    hide Depth, Leaves, Nodes, Children;
    forall x | Internal(t, x) && Depth(t, x) <= 1 && Leaves(t, x) >= o.selectThreshold ensures t[x].center in chosen {
      assert CandidateOf(t, x) in cs;
      var i :| 0 <= i < |cs| && cs[i] == CandidateOf(t, x);
    }
  }

  /** The head of a small cluster survives the removal when no node up to the large ancestor carries the removed id. */
  lemma SmallKeepsHead(t: Tree, rows: seq<Info>, o: Limits, cs: seq<Candidate>, chosen: set<int>, v: int, a: int, x: int)
    requires WellFormed(t) && MarkedLeaves(t) && UniqueParents(t) && Passed(t, rows) && Exactly(t, cs) && Placed(t, cs)
    requires AllLargeIn(t, o, cs, |cs|, chosen) && (HasDeep(cs) ==> AllProvided(t, rows, o, cs, |cs|, chosen))
    requires SmallCluster(t, o, x) && Descends(t, a, x) && Leaves(t, a) >= o.selectThreshold && ClearPath(t, a, x, v)
    ensures HeadBetween(t, chosen - {v}, a, x)
  {
    hide Nodes, View, Leaves, Depth, Children, LinksUp, Provided;
    LinksLength(t, rows);
    assert Good(t, rows, x);
    var p := rows[x].parent;
    if HasDeep(cs) {
      assert CandidateOf(t, x) in cs;
      var i :| 0 <= i < |cs| && cs[i] == CandidateOf(t, x);
    } else {
      LinkStaysBelowRoot(t, p, x);
      ParentIsInternal(t, p, x);
      UndrainedIsHarmless(t, rows, o, cs, chosen, p);
    }
    var b := HeadOnPath(t, rows, o.selectThreshold, chosen, a, x);
    assert t[b].center in chosen - {v};
  }

  lemma SelectedHasReason(t: Tree, start: seq<Info>, rows: seq<Info>, o: Limits, cs: seq<Candidate>, chosen: set<int>, v: int)
    requires WellFormed(t) && SplitsStayInside(t, o) && Passed(t, rows) && |rows| == |t| == |start| && Exactly(t, cs) && Fit(t, o, cs)
    requires forall i :: 0 <= i < |start| ==> start[i] == Info(0, -1)
    requires SameOutside(start, rows, [0] + Nodes(Children(t, 0)))
    requires o.selectThreshold >= 1 && Justified(t, rows, o, cs, |cs|, chosen) && v in chosen
    ensures MayBeSelected(t, o, v)
  {
    hide Nodes, View, Leaves, Depth, Children, LinksUp, Reason, SplitFits;
    if LargeCenter(t, rows, o.selectThreshold, v) {
      var n :| 0 <= n < |t| && t[n].center == v && rows[n].leafSize >= o.selectThreshold;
      assert n in [0] + Nodes(Children(t, 0));
      assert n == 0 || Good(t, rows, n);
      assert Reached(t, n) && Leaves(t, n) >= o.selectThreshold;
    } else {
      var i :| 0 <= i < |cs| && Reason(t, o, cs[i], v);
      assert cs[i] in cs;
      assert Internal(t, cs[i].node) && Reason(t, o, CandidateOf(t, cs[i].node), v);
    }
  }

  /** When only nodes that carry the removed id are large, as when only the root is, size selects nobody: what stays
      selected stays for its depth or for a split. */
  lemma OnlyRootLarge(t: Tree, o: Limits, vectorCount: int, v: int)
    requires WellFormed(t) && SplitsStayInside(t, o) && MayBeSelected(t, o, v) && v != vectorCount
    requires forall n :: Reached(t, n) && Leaves(t, n) >= o.selectThreshold ==> t[n].center == vectorCount
    ensures exists n :: Internal(t, n) &&
              if Depth(t, n) > 1 then t[n].center == v
              else Leaves(t, n) > o.splitThreshold
                   && v in SplitCentres(t, n, SelectCount(Leaves(t, n), o.splitFactor))
  {
    hide Nodes, Children, Leaves, Depth, SplitCentres;
    var n :| Internal(t, n) && Reason(t, o, CandidateOf(t, n), v);
    assert SplitFits(t, o, CandidateOf(t, n));
  }

  /** The nodes of the deep candidates among the first n. */
  ghost function DeepNodes(cs: seq<Candidate>, n: nat): set<int>
    requires n <= |cs|
  {
    set i | 0 <= i < n && cs[i].depth > 1 :: cs[i].node
  }

  ghost predicate DeepNode(t: Tree, x: int)
    requires WellFormed(t)
  {
    Internal(t, x) && Depth(t, x) > 1
  }

  /** `added` are nodes more than one level above the leaves, and none left out comes before one of them. */
  ghost predicate FirstDeep(t: Tree, added: set<int>, chosen: set<int>)
    requires WellFormed(t)
  {
    && (forall y :: y in added ==> DeepNode(t, y) && t[y].center in chosen)
    && (forall x, y :: y in added && DeepNode(t, x) && x !in added ==> Earlier(CandidateOf(t, y), CandidateOf(t, x)))
  }

  /** Everything the candidate loop promises of the splits and of the deeper nodes, on the tree. */
  lemma SplitAndDeep(t: Tree, o: Limits, cs: seq<Candidate>, base: set<int>, used: nat, chosen: set<int>)
    requires WellFormed(t) && Exactly(t, cs) && Placed(t, cs) && o.splitFactor >= 1 && AllSplitIn(t, o, cs, |cs|, chosen)
    requires used <= |cs| && DeepPart(t, o, cs, used, base, chosen) && (used < |cs| ==> |chosen| >= o.selectLimit)
    requires ByDepth(cs)
    ensures forall x :: Internal(t, x) ==> SplitIn(t, o, CandidateOf(t, x), chosen)
    ensures FirstDeep(t, DeepNodes(cs, used), chosen)
    ensures |chosen| >= o.selectLimit || forall x :: DeepNode(t, x) ==> x in DeepNodes(cs, used)
  {
    hide Depth, Leaves, Nodes, Children, SplitIn;
    forall x | Internal(t, x)
      ensures SplitIn(t, o, CandidateOf(t, x), chosen)
      ensures exists i :: 0 <= i < |cs| && cs[i] == CandidateOf(t, x)
      ensures |chosen| >= o.selectLimit || (Depth(t, x) > 1 ==> x in DeepNodes(cs, used))
    {
      assert CandidateOf(t, x) in cs;
      var i :| 0 <= i < |cs| && cs[i] == CandidateOf(t, x);
    }
    forall y | y in DeepNodes(cs, used) ensures DeepNode(t, y) && t[y].center in chosen {
      var j :| 0 <= j < used && cs[j].depth > 1 && cs[j].node == y;
      assert cs[j] in cs;
    }
    forall x, y | y in DeepNodes(cs, used) && DeepNode(t, x) && x !in DeepNodes(cs, used)
      ensures Earlier(CandidateOf(t, y), CandidateOf(t, x))
    {
      var j :| 0 <= j < used && cs[j].depth > 1 && cs[j].node == y;
      assert cs[j] in cs;
      var i :| 0 <= i < |cs| && cs[i] == CandidateOf(t, x);
      assert used <= i;
    }
  }

  lemma FirstDeepGrows(t: Tree, added: set<int>, was: set<int>, now: set<int>)
    requires WellFormed(t) && FirstDeep(t, added, was) && was <= now
    ensures FirstDeep(t, added, now)
  {
    hide Depth, Leaves, Nodes, Children;
  }

  lemma FitIs(t: Tree, o: Limits, cs: seq<Candidate>)
    requires Fit(t, o, cs)
    ensures Placed(t, cs) && o.splitFactor >= 1
  {
  }

  lemma RemoveOne(s: set<int>, v: int)
    ensures |s| <= |s - {v}| + 1
  {
    if v in s { assert s == (s - {v}) + {v}; }
  }

  lemma SplitStays(t: Tree, o: Limits, c: Candidate, chosen: set<int>, v: int)
    requires o.splitFactor >= 1 && InTree(t, c.node) && SplitIn(t, o, c, chosen)
    ensures SplitIn(t, o, c, (chosen - {v}) + {v})
  {
    SplitInGrows(t, o, c, chosen, (chosen - {v}) + {v});
  }

  /** Static selection from the tree.  Every large cluster next to the leaves is selected, and with it the further children
      a split of such a cluster counts; of the deeper nodes `added` are selected, nearest to the leaves and largest first,
      all of them unless the limit was reached.  With the recursive check every
      small cluster has, for each ancestor with enough leaves, a selected ancestor at or below that one, provided no node
      on the way carries the id that is removed at the end.  Nothing is selected without a reason. */
  method SelectHeadStatically(t: Tree, o: Limits, sort: CandidateSorter, vectorCount: int)
    returns (selected: set<int>, ghost added: set<int>)
    requires WellFormed(t) && MarkedLeaves(t) && UniqueParents(t) && SplitsStayInside(t, o) && SortsByDepth(sort)
    ensures vectorCount !in selected
    ensures forall x :: Internal(t, x) && Depth(t, x) <= 1 && Leaves(t, x) >= o.selectThreshold ==>
              t[x].center in selected || t[x].center == vectorCount
    ensures o.recursive ==>
              forall x, a :: (SmallCluster(t, o, x) && Descends(t, a, x) && Leaves(t, a) >= o.selectThreshold
                              && ClearPath(t, a, x, vectorCount)) ==> HeadBetween(t, selected, a, x)
    ensures o.selectThreshold >= 1 ==> forall v :: v in selected ==> MayBeSelected(t, o, v)
    ensures forall x :: Internal(t, x) ==> SplitIn(t, o, CandidateOf(t, x), selected + {vectorCount})
    ensures FirstDeep(t, added, selected + {vectorCount})
    ensures |selected| + 1 >= o.selectLimit || forall x :: DeepNode(t, x) ==> x in added
  {
    hide Nodes, View, Leaves, Depth, LinksUp, Provided, Children, SmallParents, HeadBetween, Fit, SplitFits, HasDeep,
         CandidatesOf, Justified, DepthsAre, Unvisited, DepthsKept, AllSplitIn, DeepPart, SplitIn, FirstDeep, DeepNode;
    var infos := new InfoTable(|t|);
    ghost var start := infos.rows;
    RootIsTop(t);
    assert Unvisited(infos.depths, [0] + Nodes(Children(t, 0))) by { AllUnvisited(infos.depths, [0] + Nodes(Children(t, 0))); }
    DfsSelect(t, 0, infos);
    var rows := infos.rows;
    FreshPass(t, start, rows);
    var cs := sort(infos.candidates);
    assert [] + CandidatesAt(t, 0) == CandidatesAt(t, 0);
    SortedIsExact(t, o, sort, cs);
    var chosen, left, base, used := SelectCandidates(t, rows, o, cs);
    selected := chosen - {vectorCount};
    LargeAreChosen(t, o, cs, chosen);
    assert Placed(t, cs) && o.splitFactor >= 1 by { FitIs(t, o, cs); }
    SplitAndDeep(t, o, cs, base, used, chosen);
    added := DeepNodes(cs, used);
    FirstDeepGrows(t, added, chosen, selected + {vectorCount});
    forall x | Internal(t, x) ensures SplitIn(t, o, CandidateOf(t, x), selected + {vectorCount}) {
      SplitStays(t, o, CandidateOf(t, x), chosen, vectorCount);
    }
    assert |chosen| <= |selected| + 1 by { RemoveOne(chosen, vectorCount); }
    if o.recursive {
      forall x, a | SmallCluster(t, o, x) && Descends(t, a, x) && Leaves(t, a) >= o.selectThreshold
                    && ClearPath(t, a, x, vectorCount)
        ensures HeadBetween(t, selected, a, x)
      {
        SmallKeepsHead(t, rows, o, cs, chosen, vectorCount, a, x);
      }
    }
    if o.selectThreshold >= 1 {
      forall v | v in selected ensures MayBeSelected(t, o, v) {
        SelectedHasReason(t, start, rows, o, cs, chosen, v);
      }
    }
  }
}
