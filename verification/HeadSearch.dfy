/** The two drivers that look for the select and split thresholds whose selection comes
    closest to the wanted ratio of heads. */
module HeadSearch {
  import opened Common
  import opened ClusterTree
  import opened HeadGrouping

  // ---- sort + unique on the pushed centres ----

  ghost predicate Increasing(s: seq<int>) {
    forall i, j :: 0 <= i < j < |s| ==> s[i] < s[j]
  }

  function Insert(x: int, s: seq<int>): (r: seq<int>)
    requires Increasing(s)
    ensures Increasing(r)
    ensures forall y :: y in r <==> y == x || y in s
  {
    if s == [] || x < s[0] then [x] + s
    else if x == s[0] then s
    else
      var tail := Insert(x, s[1..]);
      assert forall y :: y in s <==> y == s[0] || y in s[1..];
      assert forall i :: 0 <= i < |tail| ==> tail[i] in tail;
      [s[0]] + tail
  }

  function SortUnique(s: seq<int>): (r: seq<int>)
    ensures Increasing(r)
    ensures forall y :: y in r <==> y in s
  {
    if s == [] then []
    else
      assert forall y :: y in s <==> y == s[0] || y in s[1..];
      Insert(s[0], SortUnique(s[1..]))
  }

  lemma {:induction false} IncreasingSize(s: seq<int>)
    requires Increasing(s)
    ensures |Elements(s)| == |s|
  {
    if s != [] {
      var rest := s[..|s| - 1];
      IncreasingSize(rest);
      assert Elements(s) == Elements(rest) + {s[|s| - 1]};
    }
  }

  /** Sorted duplicate-free lists compare by inclusion. */
  lemma SortUniqueMonotone(a: seq<int>, b: seq<int>)
    requires forall x :: x in a ==> x in b
    ensures |SortUnique(a)| <= |SortUnique(b)|
  {
    var u, v := SortUnique(a), SortUnique(b);
    IncreasingSize(u);
    IncreasingSize(v);
    assert Elements(u) <= Elements(v);
    SubsetSize(Elements(u), Elements(v));
  }

  lemma SubsetSize(a: set<int>, b: set<int>)
    requires a <= b
    ensures |a| <= |b|
  {
    assert a + (b - a) == b;
  }

  // ---- What a threshold pair selects ----

  /** Everything that stays fixed during one search. */
  datatype Setting = Setting(tree: Tree, sort: Sorter, splitFactor: int, vectorCount: nat, ratio: real)

  ghost predicate Usable(e: Setting) {
    WellFormed(e.tree) && SortsDescending(e.sort) && e.splitFactor >= 1
  }

  ghost function Heads(e: Setting, select: int, split: int): seq<int>
    requires Usable(e)
  {
    SortUnique(PassPushes(e.tree, Options(select, split, e.splitFactor), e.sort, 0))
  }

  /** The heads of a threshold pair: in increasing order, the centres that some node of the tree selects. */
  lemma HeadsExactly(e: Setting, select: int, split: int) returns (pick: seq<seq<int>>)
    requires Usable(e)
    ensures var o := Options(select, split, e.splitFactor);
            && InTree(e.tree, 0) && |pick| == |e.tree| && Increasing(Heads(e, select, split))
            && (forall n :: 0 <= n < |e.tree| ==> LargestOpen(e.tree, o, n, pick[n]))
            && forall x :: x in Heads(e, select, split)
                 <==> exists n :: n in Subtree(e.tree, 0) && 0 <= n < |e.tree| && Selects(e.tree, o, n, pick[n], x)
  {
    hide PassPushes, SortUnique, LargestOpen, Selects, Subtree, SortsDescending;
    pick := SelectedExactly(e.tree, Options(select, split, e.splitFactor), e.sort, 0);
  }

  /** The selected share minus the wanted share. */
  ghost function Offset(e: Setting, select: int, split: int): real
    requires Usable(e) && e.vectorCount >= 1
  {
    |Heads(e, select, split)| as real / e.vectorCount as real - e.ratio
  }

  /** The share selected differs from the wanted one by the offset. */
  lemma OffsetMeans(e: Setting, select: int, split: int)
    requires Usable(e) && e.vectorCount >= 1
    ensures (e.ratio + Offset(e, select, split)) * e.vectorCount as real == |Heads(e, select, split)| as real
  {
    hide Heads;
  }

  function Abs(x: real): real {
    if x < 0.0 then -x else x
  }

  lemma DivideMonotone(a: nat, b: nat, n: nat)
    requires a <= b && n >= 1
    ensures a as real / n as real <= b as real / n as real
  {
  }

  /** A larger split threshold never selects more. */
  lemma OffsetAntitone(e: Setting, select: int, s: int, s': int)
    requires Usable(e) && e.vectorCount >= 1 && s <= s'
    ensures Offset(e, select, s') <= Offset(e, select, s)
  {
    hide Pushes, View, SortUnique;
    var o := Options(select, s, e.splitFactor);
    var more := PassPushes(e.tree, o, e.sort, 0);
    var fewer := PassPushes(e.tree, o.(splitThreshold := s'), e.sort, 0);
    forall x | x in fewer ensures x in more {
      PushesAntitone(e.tree, o, s', e.sort, View(e.tree, 0, 1), x);
    }
    SortUniqueMonotone(fewer, more);
    DivideMonotone(|SortUnique(fewer)|, |SortUnique(more)|, e.vectorCount);
  }

  /** One probe: clear, run the pass, sort, drop duplicates, measure. */
  method Probe(e: Setting, select: int, split: int, selected: Selection) returns (diff: real)
    requires Usable(e) && e.vectorCount >= 1
    modifies selected
    ensures selected.ids == Heads(e, select, split)
    ensures diff == Offset(e, select, split)
  {
    hide Pushes, View, SortUnique, PassPushes, Residue, WellFormed;
    selected.ids := [];
    assert InTree(e.tree, 0) by { RootExists(e.tree); }
    var size := SelectInternal(e.tree, 0, Options(select, split, e.splitFactor), e.sort, selected);
    assert selected.ids == PassPushes(e.tree, Options(select, split, e.splitFactor), e.sort, 0);
    selected.ids := SortUnique(selected.ids);
    diff := |selected.ids| as real / e.vectorCount as real - e.ratio;
  }

  lemma RootExists(t: Tree)
    requires WellFormed(t)
    ensures InTree(t, 0)
  {
  }

  // ---- Bisection over the split threshold ----

  datatype Best = Best(minDiff: real, select: int, split: int)

  /** `b` is `a`, or a strictly better pair with this select threshold inside the range. */
  ghost predicate Improves(e: Setting, a: Best, b: Best, select: int, lo: int, hi: int)
    requires Usable(e) && e.vectorCount >= 1
  {
    || b == a
    || (b.select == select && lo < b.split < hi
        && b.minDiff == Abs(Offset(e, select, b.split)) && b.minDiff < a.minDiff)
  }

  /** At least as close as every split threshold strictly between `lo` and `hi`. */
  ghost predicate Covers(e: Setting, minDiff: real, select: int, lo: int, hi: int)
    requires Usable(e) && e.vectorCount >= 1
  {
    forall s :: lo < s < hi ==> minDiff <= Abs(Offset(e, select, s))
  }

  /** A probe above the target covers all smaller split thresholds, one at or below it
      all larger ones. */
  lemma ProbeCovers(e: Setting, select: int, lo: int, mid: int, hi: int, minDiff: real)
    requires Usable(e) && e.vectorCount >= 1
    requires minDiff <= Abs(Offset(e, select, mid))
    ensures Offset(e, select, mid) > 0.0 ==> Covers(e, minDiff, select, lo, mid + 1)
    ensures Offset(e, select, mid) <= 0.0 ==> Covers(e, minDiff, select, mid - 1, hi)
  {
    hide Offset;
    forall s ensures s <= mid ==> Offset(e, select, mid) <= Offset(e, select, s)
             ensures mid <= s ==> Offset(e, select, s) <= Offset(e, select, mid)
    {
      if s <= mid {
        OffsetAntitone(e, select, s, mid);
      } else {
        OffsetAntitone(e, select, mid, s);
      }
    }
  }

  lemma CoversWeaken(e: Setting, a: real, b: real, select: int, lo: int, hi: int)
    requires Usable(e) && e.vectorCount >= 1 && b <= a && Covers(e, a, select, lo, hi)
    ensures Covers(e, b, select, lo, hi)
  {
  }

  /** `r` is where the range goes from selecting too much to selecting at most what is wanted. */
  ghost predicate Crosses(e: Setting, select: int, lo: int, hi: int, r: int)
    requires Usable(e) && e.vectorCount >= 1
  {
    && lo < r <= hi
    && (forall s :: lo < s < r ==> Offset(e, select, s) > 0.0)
    && (forall s :: r <= s < hi ==> Offset(e, select, s) <= 0.0)
  }

  /** `split` lies at the crossing or just before it. */
  ghost predicate AtCrossing(e: Setting, select: int, lo: int, hi: int, split: int)
    requires Usable(e) && e.vectorCount >= 1
  {
    lo < split < hi && (Crosses(e, select, lo, hi, split) || Crosses(e, select, lo, hi, split + 1))
  }

  lemma EndsCross(e: Setting, select: int, lo: int, hi: int, r: int)
    requires Usable(e) && e.vectorCount >= 1 && lo < r <= hi
    requires (r - 1 == lo || Offset(e, select, r - 1) > 0.0) && (r == hi || Offset(e, select, r) <= 0.0)
    ensures Crosses(e, select, lo, hi, r)
  {
    hide Offset, Usable;
    forall s | lo < s < r ensures Offset(e, select, s) > 0.0 {
      OffsetAntitone(e, select, s, r - 1);
    }
    forall s | r <= s < hi ensures Offset(e, select, s) <= 0.0 {
      OffsetAntitone(e, select, r, s);
    }
  }

  lemma EndsAtCrossing(e: Setting, select: int, lo: int, hi: int, r: int, split: int)
    requires Usable(e) && e.vectorCount >= 1 && lo < r <= hi && lo < split < hi && (split == r || split == r - 1)
    requires (r - 1 == lo || Offset(e, select, r - 1) > 0.0) && (r == hi || Offset(e, select, r) <= 0.0)
    ensures AtCrossing(e, select, lo, hi, split)
  {
    hide Offset, Usable, Crosses;
    EndsCross(e, select, lo, hi, r);
  }

  /** Bisection probes logarithmically many split thresholds and still ends at least as
      close as every one in the range. */
  method Bisect(e: Setting, select: int, lo: int, hi: int, initial: Best, split0: int, selected: Selection)
    returns (best: Best, lastSplit: int)
    requires Usable(e) && e.vectorCount >= 1 && lo >= 0
    modifies selected
    ensures Improves(e, initial, best, select, lo, hi)
    ensures best.minDiff <= initial.minDiff
    ensures Covers(e, best.minDiff, select, lo, hi)
    ensures if lo < hi - 1 then AtCrossing(e, select, lo, hi, lastSplit) else lastSplit == split0
  {
    hide Offset, Usable, Covers, Improves, Heads, AtCrossing, Abs;
    NothingCovered(e, select, lo, hi, initial);
    best, lastSplit := initial, split0;
    var l, r := lo, hi;
    while l < r - 1
      invariant lo <= l && r <= hi && (lo < hi - 1 ==> l < r)
      invariant best.minDiff <= initial.minDiff
      invariant Improves(e, initial, best, select, lo, hi)
      invariant Covers(e, best.minDiff, select, lo, l + 1)
      invariant Covers(e, best.minDiff, select, r - 1, hi)
      invariant if l == lo && r == hi then lastSplit == split0 else lo < lastSplit < hi && (lastSplit == l || lastSplit == r)
      invariant (l == lo || Offset(e, select, l) > 0.0) && (r == hi || Offset(e, select, r) <= 0.0)
      decreases r - l
    {
      var mid := (l + r) / 2;
      lastSplit := mid;
      var diff := Probe(e, select, mid, selected);
      if best.minDiff > Abs(diff) {
        CoversWeaken(e, best.minDiff, Abs(diff), select, lo, l + 1);
        CoversWeaken(e, best.minDiff, Abs(diff), select, r - 1, hi);
        Improved(e, initial, best, select, lo, hi, mid);
        best := Best(Abs(diff), select, mid);
      }
      ProbeCovers(e, select, lo, mid, hi, best.minDiff);
      if diff > 0.0 {
        l := mid;
      } else {
        r := mid;
      }
    }
    CoversAll(e, best.minDiff, select, lo, l, r, hi);
    if lo < hi - 1 { EndsAtCrossing(e, select, lo, hi, r, lastSplit); }
  }

  lemma NothingCovered(e: Setting, select: int, lo: int, hi: int, best: Best)
    requires Usable(e) && e.vectorCount >= 1
    ensures Covers(e, best.minDiff, select, lo, lo + 1) && Covers(e, best.minDiff, select, hi - 1, hi)
    ensures Improves(e, best, best, select, lo, hi)
  {
  }

  lemma Improved(e: Setting, a: Best, b: Best, select: int, lo: int, hi: int, mid: int)
    requires Usable(e) && e.vectorCount >= 1 && Improves(e, a, b, select, lo, hi) && lo < mid < hi
    requires Abs(Offset(e, select, mid)) < b.minDiff <= a.minDiff
    ensures Improves(e, a, Best(Abs(Offset(e, select, mid)), select, mid), select, lo, hi)
  {
    hide Offset;
  }

  lemma CoversAll(e: Setting, minDiff: real, select: int, lo: int, l: int, r: int, hi: int)
    requires Usable(e) && e.vectorCount >= 1 && l >= r - 1
    requires Covers(e, minDiff, select, lo, l + 1) && Covers(e, minDiff, select, r - 1, hi)
    ensures Covers(e, minDiff, select, lo, hi)
  {
    hide Offset;
  }

  // ---- SelectHeadDynamically_Old ----

  /** std::round: halves away from zero. */
  function Round(x: real): (r: int)
    ensures x >= 0.0 ==> r as real - 0.5 <= x < r as real + 0.5
    ensures x < 0.0 ==> r as real - 0.5 < x <= r as real + 0.5
  {
    if x >= 0.0 then (x + 0.5).Floor else -((-x + 0.5).Floor)
  }

  /** The wanted number of heads reaches the number of vectors. */
  predicate WantsAll(e: Setting)
    ensures e.vectorCount == 0 ==> WantsAll(e)
  {
    assert e.ratio * 0.0 == 0.0;
    Round(e.ratio * e.vectorCount as real) >= e.vectorCount
  }

  method SelectAll(n: nat, selected: Selection)
    modifies selected
    ensures |selected.ids| == n && forall i :: 0 <= i < n ==> selected.ids[i] == i
  {
    selected.ids := [];
    var i := 0;
    while i < n
      invariant i <= n && |selected.ids| == i
      invariant forall j :: 0 <= j < i ==> selected.ids[j] == j
    {
      selected.ids := selected.ids + [i];
      i := i + 1;
    }
  }

  ghost predicate InGrid(e: Setting, selectThreshold: int, splitThreshold: int, select: int, split: int) {
    2 <= select <= selectThreshold && e.splitFactor < split < splitThreshold
  }

  /** The bisecting driver equals exhaustive search over the grid of threshold pairs.
      Only a grid whose every offset is 100 or more leaves the given pair in place. */
  method SelectHeadDynamicallyOld(e: Setting, selectThreshold: int, splitThreshold: int, selected: Selection)
    returns (chosen: Best)
    requires Usable(e)
    modifies selected
    ensures WantsAll(e) ==>
              |selected.ids| == e.vectorCount && forall i :: 0 <= i < e.vectorCount ==> selected.ids[i] == i
    ensures !WantsAll(e) ==>
              && selected.ids == Heads(e, chosen.select, chosen.split)
              && (forall select, split :: InGrid(e, selectThreshold, splitThreshold, select, split) ==>
                    chosen.minDiff <= Abs(Offset(e, select, split)))
              && (forall select, split ::
                    (InGrid(e, selectThreshold, splitThreshold, select, split) && Abs(Offset(e, select, split)) < 100.0)
                    ==> Abs(Offset(e, chosen.select, chosen.split)) <= Abs(Offset(e, select, split)))
              && (if chosen.minDiff < 100.0
                  then && InGrid(e, selectThreshold, splitThreshold, chosen.select, chosen.split)
                       && chosen.minDiff == Abs(Offset(e, chosen.select, chosen.split))
                  else chosen == Best(100.0, selectThreshold, splitThreshold))
  {
    hide Offset, Heads, WantsAll;
    chosen := Best(100.0, selectThreshold, splitThreshold);
    if WantsAll(e) {
      SelectAll(e.vectorCount, selected);
      return;
    }
    var select := 2;
    while select <= selectThreshold
      invariant 2 <= select
      invariant forall s, split :: InGrid(e, select - 1, splitThreshold, s, split) ==>
                  chosen.minDiff <= Abs(Offset(e, s, split))
      invariant if chosen.minDiff < 100.0
                then && InGrid(e, select - 1, splitThreshold, chosen.select, chosen.split)
                     && chosen.minDiff == Abs(Offset(e, chosen.select, chosen.split))
                else chosen == Best(100.0, selectThreshold, splitThreshold)
      invariant select <= selectThreshold + 1 || select == 2
    {
      var lastSplit;
      chosen, lastSplit := Bisect(e, select, e.splitFactor, splitThreshold, chosen, splitThreshold, selected);
      select := select + 1;
    }
    var diff := Probe(e, chosen.select, chosen.split, selected);
  }

  // ---- SelectHeadDynamically ----

  /** Upper end of the split range tried for one select threshold. */
  function SplitLimit(splitFactor: int, select: int): int {
    Max(splitFactor + 2, (select as real * 3.2).Floor)
  }

  /** In whole numbers: sixteen fifths of the select threshold, rounded down, but always one split threshold to try. */
  lemma SplitLimitMeans(splitFactor: int, select: int)
    ensures SplitLimit(splitFactor, select) == Max(splitFactor + 2, 16 * select / 5)
  {
    var r := (select as real * 3.2).Floor;
    assert 5.0 * (select as real * 3.2) == (16 * select) as real;
    assert 5 * r <= 16 * select < 5 * (r + 1);
  }

  /** `minDiff / ratio > 0.02` with the floating-point reading of a zero ratio. */
  predicate OffTarget(minDiff: real, ratio: real) {
    if ratio == 0.0 then minDiff > 0.0 else minDiff / ratio > 0.02
  }

  /** The deterministic step: move against the split/select ratio, doubling up to 128. */
  method NextStep(ssratio: real, tryStep: int, offTarget: bool) returns (step: int, move: bool, done: bool)
    ensures move <==> ssratio < 1.8 || ssratio > 2.2
    ensures done <==> !move && !offTarget
    ensures move && ssratio < 1.8 ==> step < 0
    ensures move && ssratio > 2.2 ==> step > 0
    ensures !move ==> step == tryStep
    // A turn starts again at one; going on doubles the step until it reaches 128.
    ensures move && (tryStep == 0 || (tryStep < 0) != (step < 0)) ==> step == 1 || step == -1
    ensures move && tryStep != 0 && (tryStep < 0) == (step < 0) ==>
              step == if -128 < tryStep < 128 then 2 * tryStep else tryStep
  {
    step, move, done := tryStep, false, false;
    if ssratio < 1.8 {
      move := true;
      if step >= 0 {
        step := -1;
      } else if -step < 128 {
        step := step * 2;
      }
    } else if ssratio > 2.2 {
      move := true;
      if step <= 0 {
        step := 1;
      } else if step < 128 {
        step := step * 2;
      }
    } else {
      done := !offTarget;
    }
  }

  ghost predicate BestOf(e: Setting, tried: set<int>, best: Best, given: Best)
    requires Usable(e) && e.vectorCount >= 1
  {
    && (forall t :: t in tried ==> Covers(e, best.minDiff, t, e.splitFactor, SplitLimit(e.splitFactor, t)))
    && (if best.minDiff < 100.0
        then && best.select in tried
             && e.splitFactor < best.split < SplitLimit(e.splitFactor, best.select)
             && best.minDiff == Abs(Offset(e, best.select, best.split))
        else best == given)
  }

  lemma BestOfExtends(e: Setting, tried: set<int>, a: Best, b: Best, given: Best, select: int)
    requires Usable(e) && e.vectorCount >= 1 && BestOf(e, tried, a, given)
    requires a.minDiff >= 100.0 ==> a.minDiff == 100.0
    requires Improves(e, a, b, select, e.splitFactor, SplitLimit(e.splitFactor, select)) && b.minDiff <= a.minDiff
    requires Covers(e, b.minDiff, select, e.splitFactor, SplitLimit(e.splitFactor, select))
    ensures BestOf(e, tried + {select}, b, given)
  {
    hide Offset, SplitLimit;
    forall t | t in tried ensures Covers(e, b.minDiff, t, e.splitFactor, SplitLimit(e.splitFactor, t)) {
      CoversWeaken(e, a.minDiff, b.minDiff, t, e.splitFactor, SplitLimit(e.splitFactor, t));
    }
  }

  /** One round of the randomised driver: the select threshold, the split threshold its bisection ended at, the step that
      led there, and the best pair so far. */
  datatype Visit = Visit(select: int, split: int, step: int, best: Best)

  ghost function TriedIn(visits: seq<Visit>, n: nat): set<int>
    requires n <= |visits|
  {
    set j | 0 <= j < n :: visits[j].select
  }

  ghost predicate VisitOk(e: Setting, visits: seq<Visit>, i: nat, given: Best)
    requires Usable(e) && e.vectorCount >= 1 && i < |visits|
  {
    var v := visits[i];
    && 1 <= v.select <= e.vectorCount
    && AtCrossing(e, v.select, e.splitFactor, SplitLimit(e.splitFactor, v.select), v.split)
    && BestOf(e, TriedIn(visits, i + 1), v.best, given)
  }

  function Ratio(split: int, select: int): real
    requires select >= 1
  {
    split as real / select as real
  }

  /** Split over select threshold of a visit. */
  function SSRatio(v: Visit): real
    requires v.select >= 1
  {
    Ratio(v.split, v.select)
  }

  function Clamp(e: Setting, select: int): int {
    Min(e.vectorCount, Max(1, select))
  }

  /** A step against the ratio: one after a turn, doubled up to 128 when going on. */
  ghost predicate MovedTo(e: Setting, v: Visit, select: int, step: int) {
    && v.select >= 1 && (SSRatio(v) < 1.8 || SSRatio(v) > 2.2) && (step < 0 <==> SSRatio(v) < 1.8)
    && (if v.step == 0 || (v.step < 0) != (step < 0) then step == 1 || step == -1
        else step == if -128 < v.step < 128 then 2 * v.step else v.step)
    && select == Clamp(e, v.select + step)
  }

  /** A random step. */
  ghost predicate WanderedTo(e: Setting, v: Visit, select: int) {
    exists step :: SmallStep(e, v, select, step)
  }

  ghost predicate SmallStep(e: Setting, v: Visit, select: int, step: int) {
    -8 <= step <= 8 && step != 0 && select == Clamp(e, v.select + step)
  }

  ghost predicate SeenBefore(visits: seq<Visit>, i: nat)
    requires i < |visits|
  {
    visits[i].select in TriedIn(visits, i)
  }

  ghost predicate InRatio(v: Visit) {
    v.select >= 1 && 1.8 <= SSRatio(v) <= 2.2
  }

  /** Why random steps begin with a visit: its threshold was met before, or its ratio is fine and the best pair is not. */
  ghost predicate GivesUp(e: Setting, visits: seq<Visit>, i: nat)
    requires i < |visits|
  {
    SeenBefore(visits, i) || (InRatio(visits[i]) && OffTarget(visits[i].best.minDiff, e.ratio))
  }

  /** The steps between visits: against the ratio up to visit `entry`, random after it. */
  ghost predicate Follows(e: Setting, visits: seq<Visit>, entry: nat, i: nat)
    requires 0 < i < |visits|
  {
    if i <= entry then MovedTo(e, visits[i - 1], visits[i].select, visits[i].step)
    else WanderedTo(e, visits[i - 1], visits[i].select)
  }

  ghost predicate Trace(e: Setting, visits: seq<Visit>, entry: nat, given: Best)
    requires Usable(e) && e.vectorCount >= 1
  {
    && entry <= |visits|
    && (forall i :: 0 <= i < |visits| ==> VisitOk(e, visits, i, given))
    && (forall i :: 0 < i < |visits| ==> Follows(e, visits, entry, i))
    && (forall i :: 0 <= i < entry ==> !SeenBefore(visits, i))
    && (entry < |visits| ==> GivesUp(e, visits, entry))
  }

  /** Why the driver stops: the random tries are used up, or without random steps the last visit is on target in both
      respects or a step against the ratio leads nowhere. */
  ghost predicate Stopped(e: Setting, visits: seq<Visit>, entry: nat, maxRandomTry: int) {
    && visits != [] && entry <= |visits|
    && var last := visits[|visits| - 1];
       if entry < |visits| then |visits| - entry == Max(1, maxRandomTry)
       else || (InRatio(last) && !OffTarget(last.best.minDiff, e.ratio))
            || exists step :: MovedTo(e, last, last.select, step)
  }

  /** How the next visit is reached. */
  ghost predicate Pending(e: Setting, visits: seq<Visit>, random: bool, start: int, select: int, step: int) {
    if visits == [] then select == start && step == 0 && !random
    else if random then WanderedTo(e, visits[|visits| - 1], select)
    else MovedTo(e, visits[|visits| - 1], select, step)
  }

  lemma TriedStays(visits: seq<Visit>, v: Visit, n: nat)
    requires n <= |visits|
    ensures TriedIn(visits + [v], n) == TriedIn(visits, n)
    ensures TriedIn(visits + [v], |visits| + 1) == TriedIn(visits, |visits|) + {v.select}
  {
    var more := visits + [v];
    assert forall j :: 0 <= j < |visits| ==> more[j] == visits[j];
    assert TriedIn(more, n) == TriedIn(visits, n);
    forall x ensures x in TriedIn(more, |visits| + 1) <==> x in TriedIn(visits, |visits|) + {v.select} {
      assert more[|visits|] == v;
    }
  }

  /** One more visit. */
  lemma TraceGrows(e: Setting, visits: seq<Visit>, entry: nat, given: Best, start: int, v: Visit, next: nat)
    requires Usable(e) && e.vectorCount >= 1 && Trace(e, visits, entry, given)
    requires Pending(e, visits, entry < |visits|, start, v.select, v.step)
    requires VisitOk(e, visits + [v], |visits|, given)
    requires entry == |visits| || next == entry
    requires next == |visits| + 1 ==> v.select !in TriedIn(visits, |visits|)
    requires next == |visits| ==>
               v.select in TriedIn(visits, |visits|) || (InRatio(v) && OffTarget(v.best.minDiff, e.ratio))
    requires entry == |visits| ==> next == |visits| || next == |visits| + 1
    ensures Trace(e, visits + [v], next, given)
  {
    hide Usable, VisitOk, MovedTo, WanderedTo, InRatio, OffTarget, TriedIn;
    var more := visits + [v];
    assert forall j :: 0 <= j < |visits| ==> more[j] == visits[j];
    forall i | 0 <= i < |more| ensures VisitOk(e, more, i, given) && (i < |visits| ==> TriedIn(more, i) == TriedIn(visits, i)) {
      if i < |visits| {
        TriedStays(visits, v, i);
        VisitStays(e, visits, v, i, given);
      }
    }
    TriedStays(visits, v, |visits|);
    forall i | 0 < i < |more| ensures Follows(e, more, next, i) {
      if i < |visits| { assert Follows(e, visits, entry, i); }
    }
    forall i | 0 <= i < next ensures !SeenBefore(more, i) {
      if i < |visits| { assert !SeenBefore(visits, i); }
    }
    if entry < |visits| { assert GivesUp(e, visits, entry); }
  }

  lemma VisitStays(e: Setting, visits: seq<Visit>, v: Visit, i: nat, given: Best)
    requires Usable(e) && e.vectorCount >= 1 && i < |visits| && VisitOk(e, visits, i, given)
    ensures VisitOk(e, visits + [v], i, given)
  {
    hide Usable, AtCrossing, BestOf, SplitLimit, TriedIn;
    TriedStays(visits, v, i + 1);
  }

  /** The split thresholds remembered are those the bisections ended at. */
  ghost predicate Cached(e: Setting, used: map<int, int>)
    requires Usable(e) && e.vectorCount >= 1
  {
    forall t :: t in used ==> AtCrossing(e, t, e.splitFactor, SplitLimit(e.splitFactor, t), used[t])
  }

  lemma CacheAdds(e: Setting, used: map<int, int>, t: int, split: int)
    requires Usable(e) && e.vectorCount >= 1 && Cached(e, used)
    requires AtCrossing(e, t, e.splitFactor, SplitLimit(e.splitFactor, t), split)
    ensures Cached(e, used[t := split]) && used[t := split].Keys == used.Keys + {t}
  {
    hide AtCrossing, SplitLimit;
  }

  lemma CacheHas(e: Setting, used: map<int, int>, t: int)
    requires Usable(e) && e.vectorCount >= 1 && Cached(e, used) && t in used
    ensures AtCrossing(e, t, e.splitFactor, SplitLimit(e.splitFactor, t), used[t]) && used.Keys + {t} == used.Keys
  {
    hide AtCrossing, SplitLimit;
  }

  /** One select threshold: bisected the first time, remembered afterwards. */
  method TryThreshold(e: Setting, select: int, used: map<int, int>, best: Best, splitThreshold: int, selected: Selection,
                      ghost given: Best)
    returns (chosen: Best, split: int, now: map<int, int>, again: bool)
    requires Usable(e) && e.vectorCount >= 1 && Cached(e, used) && BestOf(e, used.Keys, best, given)
    requires best.minDiff <= 100.0
    modifies selected
    ensures again <==> select in used
    ensures now.Keys == used.Keys + {select} && Cached(e, now) && BestOf(e, now.Keys, chosen, given)
    ensures |now.Keys| == |used.Keys| + if again then 0 else 1
    ensures chosen.minDiff <= 100.0 && AtCrossing(e, select, e.splitFactor, SplitLimit(e.splitFactor, select), split)
  {
    assert e.splitFactor >= 0;
    hide Offset, Heads, BestOf, SplitLimit, AtCrossing, Covers, Improves, Usable, Cached;
    chosen, now, again := best, used, select in used;
    if !again {
      LimitLeavesRoom(e.splitFactor, select);
      chosen, split := Bisect(e, select, e.splitFactor, SplitLimit(e.splitFactor, select), chosen, splitThreshold, selected);
      BestOfExtends(e, used.Keys, best, chosen, given, select);
      CacheAdds(e, used, select, split);
      now := used[select := split];
    } else {
      CacheHas(e, used, select);
      split := used[select];
    }
  }

  ghost predicate Bounded(s: set<int>, n: nat) {
    forall t :: t in s ==> 1 <= t <= n
  }

  lemma BoundedSize(s: set<int>, n: nat)
    requires Bounded(s, n)
    ensures |s| <= n
  {
    SubsetSize(s, UpTo(n));
  }

  lemma BoundedAdds(s: set<int>, t: int, n: nat)
    requires Bounded(s, n) && 1 <= t <= n
    ensures Bounded(s + {t}, n) && |s + {t}| <= n
  {
    BoundedSize(s + {t}, n);
  }

  /** The end of a round: where the ratio sends the driver, a random step, or the stop. */
  method NextThreshold(e: Setting, v: Visit, tries: nat, again: bool, maxRandomTry: int, ghost visits: seq<Visit>,
                       ghost entry: nat, ghost given: Best, ghost start: int)
    returns (trySelect: int, tryStep: int, randomTry: nat, stop: bool, ghost next: nat)
    requires Usable(e) && e.vectorCount >= 1 && 1 <= v.select <= e.vectorCount && tries <= Max(1, maxRandomTry)
    requires Fits(e, visits, entry, given, start, tries, v) && (again <==> v.select in TriedIn(visits, |visits|))
    ensures if stop then Settled(e, visits + [v], next, given, start, maxRandomTry)
            else Going(e, visits + [v], next, given, start, randomTry, trySelect, tryStep) && 1 <= trySelect <= e.vectorCount
    ensures !stop ==> (tries == 0 && randomTry == 0 && !again) || randomTry == Max(1, tries) + 1 <= Max(1, maxRandomTry)
  {
    hide TriedIn, OffTarget, Usable, InRatio, Going, Ratio, Settled, Fits, Random;
    trySelect, tryStep, next := v.select, v.step, |visits| + 1;
    randomTry := if again then Max(tries, 1) else tries;
    if randomTry == 0 {
      var ssratio := Ratio(v.split, v.select);
      var move, done;
      tryStep, move, done := NextStep(ssratio, tryStep, OffTarget(v.best.minDiff, e.ratio));
      RatioFine(v, ssratio);
      if done {
        RoundOnTarget(e, visits, entry, given, start, v, maxRandomTry);
        return trySelect, tryStep, randomTry, true, next;
      }
      if move {
        trySelect := trySelect + tryStep;
      } else {
        randomTry := 1;
      }
      trySelect := Min(e.vectorCount, Max(1, trySelect));
      if move {
        RoundMoves(e, visits, entry, given, start, v, ssratio, trySelect, tryStep, maxRandomTry);
        return trySelect, tryStep, randomTry, trySelect == v.select, next;
      }
    }
    next := if tries == 0 then |visits| else entry;
    TurnsRandom(e, visits, tries, v, again);
    if randomTry < maxRandomTry {
      tryStep :| -8 <= tryStep <= 8 && tryStep != 0;
      trySelect := Min(e.vectorCount, Max(1, trySelect + tryStep));
      RoundWanders(e, visits, entry, given, start, tries, v, trySelect, tryStep);
      return trySelect, tryStep, randomTry + 1, false, next;
    }
    RoundUsedUp(e, visits, entry, given, start, tries, v, maxRandomTry);
    stop := true;
  }

  lemma TurnsRandom(e: Setting, visits: seq<Visit>, tries: nat, v: Visit, again: bool)
    requires again <==> v.select in TriedIn(visits, |visits|)
    requires tries == 0 && !again ==> InRatio(v) && OffTarget(v.best.minDiff, e.ratio)
    ensures Random(e, visits, tries, v)
  {
  }

  /** The randomised driver.  Its outer loop ends for every sequence of random steps, in at
      most vectorCount + max(1, maxRandomTry) rounds, because each round either bisects a
      new select threshold or spends one random try; it goes where the ratios of the two thresholds send it, stops only
      for a reason, and ends with the best pair over all thresholds it tried. */
  method SelectHeadDynamically(e: Setting, selectThreshold: int, splitThreshold: int, maxRandomTry: int,
                               selected: Selection)
    returns (chosen: Best, ghost visits: seq<Visit>, ghost entry: nat)
    requires Usable(e)
    modifies selected
    ensures |visits| <= e.vectorCount + Max(1, maxRandomTry)
    ensures WantsAll(e) ==>
              |selected.ids| == e.vectorCount && forall i :: 0 <= i < e.vectorCount ==> selected.ids[i] == i
    ensures !WantsAll(e) ==>
              && selected.ids == Heads(e, chosen.select, chosen.split)
              && Trace(e, visits, entry, Best(100.0, selectThreshold, splitThreshold))
              && BestOf(e, TriedIn(visits, |visits|), chosen, Best(100.0, selectThreshold, splitThreshold))
    ensures !WantsAll(e) && selectThreshold >= 1 ==>
              && Stopped(e, visits, entry, maxRandomTry) && chosen == visits[|visits| - 1].best
              && visits[0].select == Min(e.vectorCount, selectThreshold) && visits[0].step == 0
  {
    hide Offset, Heads, BestOf, WantsAll, Trace, TriedIn, Stopped, Usable, InLoop, Ends;
    var given := Best(100.0, selectThreshold, splitThreshold);
    chosen, visits, entry := given, [], 0;
    if WantsAll(e) {
      SelectAll(e.vectorCount, selected);
      return;
    }
    var trySelect := Min(e.vectorCount, selectThreshold);
    ghost var start := trySelect;
    var tryStep, stop := 0, false;
    var randomTry: nat := 0;
    var usedTrySelect: map<int, int> := map[];
    NothingTried(e, given, start, maxRandomTry);
    while 1 <= trySelect <= e.vectorCount && !stop
      invariant stop ==> visits != [] && Ends(e, chosen, visits, entry, given, start, maxRandomTry)
      invariant !stop ==> InLoop(e, usedTrySelect, chosen, given, visits, entry, start, randomTry, maxRandomTry, trySelect, tryStep)
      invariant !stop && visits != [] ==> 1 <= trySelect <= e.vectorCount
      invariant visits == [] ==> trySelect == start
      invariant !stop ==> randomTry <= Max(1, maxRandomTry) && |usedTrySelect.Keys| <= e.vectorCount
      decreases !stop, e.vectorCount - |usedTrySelect.Keys|, Max(1, maxRandomTry) - randomTry
    {
      chosen, usedTrySelect, trySelect, tryStep, randomTry, stop, visits, entry :=
        OneRound(e, usedTrySelect, chosen, trySelect, tryStep, randomTry, maxRandomTry, splitThreshold, selected,
                 given, visits, entry, start);
    }
    if visits == [] {
      NeverStarted(e, usedTrySelect, chosen, given, entry, start, randomTry, maxRandomTry, trySelect, tryStep);
    } else {
      EndsMeans(e, chosen, visits, entry, given, start, maxRandomTry);
    }
    var diff := Probe(e, chosen.select, chosen.split, selected);
  }

  /** What holds before every round: the remembered thresholds are those visited, and the best pair is best over them. */
  ghost predicate InLoop(e: Setting, used: map<int, int>, chosen: Best, given: Best, visits: seq<Visit>, entry: nat, start: int,
                         randomTry: nat, maxRandomTry: int, trySelect: int, tryStep: int)
    requires Usable(e) && e.vectorCount >= 1
  {
    && randomTry <= Max(1, maxRandomTry)
    && used.Keys == TriedIn(visits, |visits|) && Bounded(used.Keys, e.vectorCount)
    && Cached(e, used) && BestOf(e, used.Keys, chosen, given) && chosen.minDiff <= 100.0
    && |visits| <= |used.Keys| + Max(0, randomTry - 1)
    && Going(e, visits, entry, given, start, randomTry, trySelect, tryStep)
  }

  /** One round of the driver. */
  method OneRound(e: Setting, used: map<int, int>, best: Best, select: int, step: int, tries: nat, maxRandomTry: int,
                  splitThreshold: int, selected: Selection, ghost given: Best, ghost visits: seq<Visit>, ghost entry: nat,
                  ghost start: int)
    returns (chosen: Best, now: map<int, int>, trySelect: int, tryStep: int, randomTry: nat, stop: bool,
             ghost more: seq<Visit>, ghost next: nat)
    requires Usable(e) && e.vectorCount >= 1 && 1 <= select <= e.vectorCount
    requires InLoop(e, used, best, given, visits, entry, start, tries, maxRandomTry, select, step)
    modifies selected
    ensures more != [] && |now.Keys| <= e.vectorCount && (!stop ==> randomTry <= Max(1, maxRandomTry))
    ensures if stop then Ends(e, chosen, more, next, given, start, maxRandomTry)
            else InLoop(e, now, chosen, given, more, next, start, randomTry, maxRandomTry, trySelect, tryStep)
                 && 1 <= trySelect <= e.vectorCount
    ensures !stop ==> |used.Keys| < |now.Keys| || (|used.Keys| == |now.Keys| && tries < randomTry)
  {
    hide BestOf, Bounded, Trace, TriedIn, AtCrossing, VisitOk, Stopped, Usable, Cached, Going, Fits, SplitLimit;
    BoundedAdds(used.Keys, select, e.vectorCount);
    var split, again;
    chosen, split, now, again := TryThreshold(e, select, used, best, splitThreshold, selected, given);
    var v := Visit(select, split, step, chosen);
    more := visits + [v];
    NewVisitOk(e, visits, v, given);
    NowFits(e, visits, entry, given, start, tries, v);
    trySelect, tryStep, randomTry, stop, next := NextThreshold(e, v, tries, again, maxRandomTry, visits, entry, given, start);
  }

  lemma NeverStarted(e: Setting, used: map<int, int>, chosen: Best, given: Best, entry: nat, start: int,
                     randomTry: nat, maxRandomTry: int, trySelect: int, tryStep: int)
    requires Usable(e) && e.vectorCount >= 1
    requires InLoop(e, used, chosen, given, [], entry, start, randomTry, maxRandomTry, trySelect, tryStep)
    ensures Trace(e, [], entry, given) && BestOf(e, TriedIn([], 0), chosen, given)
  {
    hide BestOf, TriedIn, Cached, Bounded, VisitOk, Pending;
  }

  /** Between two rounds. */
  ghost predicate Going(e: Setting, visits: seq<Visit>, entry: nat, given: Best, start: int, randomTry: nat, select: int, step: int)
    requires Usable(e) && e.vectorCount >= 1
  {
    && Trace(e, visits, entry, given) && Pending(e, visits, randomTry > 0, start, select, step)
    && (if randomTry == 0 then entry == |visits| else entry < |visits| && |visits| - entry == randomTry - 1)
    && StartsAt(visits, start)
  }

  ghost predicate StartsAt(visits: seq<Visit>, start: int) {
    visits != [] ==> visits[0].select == start && visits[0].step == 0
  }

  /** The visit fits where the driver stands. */
  ghost predicate Fits(e: Setting, visits: seq<Visit>, entry: nat, given: Best, start: int, randomTry: nat, v: Visit)
    requires Usable(e) && e.vectorCount >= 1
  {
    Going(e, visits, entry, given, start, randomTry, v.select, v.step) && VisitOk(e, visits + [v], |visits|, given) && v.select >= 1
  }

  /** What the rounds end with. */
  ghost predicate Settled(e: Setting, visits: seq<Visit>, entry: nat, given: Best, start: int, maxRandomTry: int)
    requires Usable(e) && e.vectorCount >= 1
  {
    Trace(e, visits, entry, given) && Stopped(e, visits, entry, maxRandomTry) && visits != [] && StartsAt(visits, start)
  }

  /** What the driver ends with. */
  ghost predicate Ends(e: Setting, chosen: Best, visits: seq<Visit>, entry: nat, given: Best, start: int, maxRandomTry: int)
    requires Usable(e) && e.vectorCount >= 1
  {
    && Settled(e, visits, entry, given, start, maxRandomTry) && BestOf(e, TriedIn(visits, |visits|), chosen, given)
    && visits != [] && chosen == visits[|visits| - 1].best && |visits| <= e.vectorCount + Max(1, maxRandomTry)
  }

  lemma NowFits(e: Setting, visits: seq<Visit>, entry: nat, given: Best, start: int, randomTry: nat, v: Visit)
    requires Usable(e) && e.vectorCount >= 1 && Going(e, visits, entry, given, start, randomTry, v.select, v.step)
    requires VisitOk(e, visits + [v], |visits|, given) && v.select >= 1
    ensures Fits(e, visits, entry, given, start, randomTry, v)
  {
  }

  lemma EndsMeans(e: Setting, chosen: Best, visits: seq<Visit>, entry: nat, given: Best, start: int, maxRandomTry: int)
    requires Usable(e) && e.vectorCount >= 1 && Ends(e, chosen, visits, entry, given, start, maxRandomTry)
    ensures Trace(e, visits, entry, given) && Stopped(e, visits, entry, maxRandomTry)
    ensures BestOf(e, TriedIn(visits, |visits|), chosen, given) && |visits| <= e.vectorCount + Max(1, maxRandomTry)
    ensures visits != [] && visits[0].select == start && visits[0].step == 0 && chosen == visits[|visits| - 1].best
  {
    hide Trace, Stopped, BestOf, TriedIn;
  }

  lemma StartStays(visits: seq<Visit>, start: int, v: Visit)
    requires StartsAt(visits, start) && (visits == [] ==> v.select == start && v.step == 0)
    ensures StartsAt(visits + [v], start)
  {
  }

  lemma RoundOnTarget(e: Setting, visits: seq<Visit>, entry: nat, given: Best, start: int, v: Visit, maxRandomTry: int)
    requires Usable(e) && e.vectorCount >= 1 && Fits(e, visits, entry, given, start, 0, v)
    requires v.select !in TriedIn(visits, |visits|) && InRatio(v) && !OffTarget(v.best.minDiff, e.ratio)
    ensures Settled(e, visits + [v], |visits| + 1, given, start, maxRandomTry)
  {
    hide Usable, Trace, VisitOk, OffTarget, InRatio, TriedIn;
    TraceGrows(e, visits, |visits|, given, start, v, |visits| + 1);
    StartStays(visits, start, v);
  }

  lemma RoundMoves(e: Setting, visits: seq<Visit>, entry: nat, given: Best, start: int, v: Visit, ssratio: real, select: int,
                   step: int, maxRandomTry: int)
    requires Usable(e) && e.vectorCount >= 1 && Fits(e, visits, entry, given, start, 0, v)
    requires v.select !in TriedIn(visits, |visits|) && ssratio == Ratio(v.split, v.select)
    requires (ssratio < 1.8 && step < 0) || (ssratio > 2.2 && step > 0)
    requires v.step == 0 || (v.step < 0) != (step < 0) ==> step == 1 || step == -1
    requires v.step != 0 && (v.step < 0) == (step < 0) ==> step == if -128 < v.step < 128 then 2 * v.step else v.step
    requires select == Min(e.vectorCount, Max(1, v.select + step))
    ensures Going(e, visits + [v], |visits| + 1, given, start, 0, select, step)
    ensures select == v.select ==> Settled(e, visits + [v], |visits| + 1, given, start, maxRandomTry)
  {
    assert MovedTo(e, v, select, step);
    hide Usable, Trace, VisitOk, OffTarget, InRatio, TriedIn, MovedTo;
    TraceGrows(e, visits, |visits|, given, start, v, |visits| + 1);
    StartStays(visits, start, v);
  }

  /** A visit after which only random steps remain. */
  ghost predicate Random(e: Setting, visits: seq<Visit>, randomTry: nat, v: Visit) {
    randomTry == 0 ==>
      v.select in TriedIn(visits, |visits|) || (InRatio(v) && OffTarget(v.best.minDiff, e.ratio))
  }

  lemma RoundRandom(e: Setting, visits: seq<Visit>, entry: nat, given: Best, start: int, randomTry: nat, v: Visit)
    requires Usable(e) && e.vectorCount >= 1 && Fits(e, visits, entry, given, start, randomTry, v) && Random(e, visits, randomTry, v)
    ensures var next := if randomTry == 0 then |visits| else entry;
            && Trace(e, visits + [v], next, given) && StartsAt(visits + [v], start)
            && |visits + [v]| - next == Max(1, randomTry)
  {
    hide Usable, Trace, VisitOk, OffTarget, InRatio, TriedIn, MovedTo, WanderedTo;
    TraceGrows(e, visits, entry, given, start, v, if randomTry == 0 then |visits| else entry);
    StartStays(visits, start, v);
  }

  lemma RoundWanders(e: Setting, visits: seq<Visit>, entry: nat, given: Best, start: int, randomTry: nat, v: Visit,
                     select: int, step: int)
    requires Usable(e) && e.vectorCount >= 1 && Fits(e, visits, entry, given, start, randomTry, v) && Random(e, visits, randomTry, v)
    requires -8 <= step <= 8 && step != 0 && select == Min(e.vectorCount, Max(1, v.select + step))
    ensures Going(e, visits + [v], if randomTry == 0 then |visits| else entry, given, start, Max(1, randomTry) + 1, select, step)
  {
    hide Usable, Trace, Fits, Random;
    RoundRandom(e, visits, entry, given, start, randomTry, v);
    assert SmallStep(e, v, select, step);
  }

  lemma RoundUsedUp(e: Setting, visits: seq<Visit>, entry: nat, given: Best, start: int, randomTry: nat, v: Visit, maxRandomTry: int)
    requires Usable(e) && e.vectorCount >= 1 && Fits(e, visits, entry, given, start, randomTry, v) && Random(e, visits, randomTry, v)
    requires Max(1, randomTry) == Max(1, maxRandomTry)
    ensures Settled(e, visits + [v], if randomTry == 0 then |visits| else entry, given, start, maxRandomTry)
  {
    hide Usable, Trace, Fits, Random;
    RoundRandom(e, visits, entry, given, start, randomTry, v);
  }

  lemma LimitLeavesRoom(splitFactor: int, select: int)
    ensures splitFactor < SplitLimit(splitFactor, select) - 1
  {
  }

  lemma NewVisitOk(e: Setting, visits: seq<Visit>, v: Visit, given: Best)
    requires Usable(e) && e.vectorCount >= 1 && 1 <= v.select <= e.vectorCount
    requires AtCrossing(e, v.select, e.splitFactor, SplitLimit(e.splitFactor, v.select), v.split)
    requires BestOf(e, TriedIn(visits, |visits|) + {v.select}, v.best, given)
    ensures VisitOk(e, visits + [v], |visits|, given)
    ensures TriedIn(visits + [v], |visits| + 1) == TriedIn(visits, |visits|) + {v.select}
  {
    hide Usable, AtCrossing, BestOf, SplitLimit, TriedIn;
    TriedStays(visits, v, |visits|);
  }

  lemma RatioFine(v: Visit, ssratio: real)
    requires v.select >= 1 && ssratio == Ratio(v.split, v.select)
    ensures InRatio(v) <==> !(ssratio < 1.8 || ssratio > 2.2)
  {
  }

  lemma NothingTried(e: Setting, given: Best, start: int, maxRandomTry: int)
    requires Usable(e) && e.vectorCount >= 1 && given.minDiff == 100.0
    ensures InLoop(e, map[], given, given, [], 0, start, 0, maxRandomTry, start, 0)
  {
  }

  ghost function UpTo(n: nat): (s: set<int>)
    ensures |s| == n && forall t :: t in s <==> 1 <= t <= n
  {
    if n == 0 then {} else UpTo(n - 1) + {n}
  }
}
