/** The multi-index scan: results of several iterators are scored once each, a bounded heap
    keeps the k smallest scores, and a stack hands them out in ascending order. */
module TopKScan {
  import opened Common

  /** What an iterator returns. */
  datatype Hit = Hit(vid: int, dist: real)

  /** A heap entry. */
  datatype Scored = Scored(vid: int, score: real)

  /** The score of a hit first seen in a given column; the other columns are looked up. */
  type Rank = (nat, Hit) -> real

  /** One pull from one column. */
  datatype Pull = Pull(column: nat, hit: Hit)

  // ---- What the scan has seen ----

  ghost function Ids(s: seq<Scored>): set<int> {
    set x | x in s :: x.vid
  }

  /** Every distinct id once, with the score of its first appearance. */
  ghost function Sightings(pulls: seq<Pull>, rank: Rank): seq<Scored> {
    if pulls == [] then []
    else
      var rest, p := Sightings(pulls[..|pulls| - 1], rank), pulls[|pulls| - 1];
      if p.hit.vid in Ids(rest) then rest else rest + [Scored(p.hit.vid, rank(p.column, p.hit))]
  }

  ghost predicate DistinctIds(s: seq<Scored>) {
    forall i, j :: 0 <= i < j < |s| ==> s[i].vid != s[j].vid
  }

  lemma {:induction false} SightingsDistinct(pulls: seq<Pull>, rank: Rank)
    ensures DistinctIds(Sightings(pulls, rank))
  {
    if pulls != [] {
      var rest := Sightings(pulls[..|pulls| - 1], rank);
      SightingsDistinct(pulls[..|pulls| - 1], rank);
      assert forall i :: 0 <= i < |rest| ==> rest[i] in rest && rest[i].vid in Ids(rest);
    }
  }

  /** The first pull of its id. */
  ghost predicate FirstPull(pulls: seq<Pull>, j: int) {
    0 <= j < |pulls| && forall i :: 0 <= i < j ==> pulls[i].hit.vid != pulls[j].hit.vid
  }

  ghost function ScoreOf(p: Pull, rank: Rank): Scored {
    Scored(p.hit.vid, rank(p.column, p.hit))
  }

  /** What is ranked: for every id pulled, its first pull with the score of that column and hit. */
  lemma {:induction false} SightingsAre(pulls: seq<Pull>, rank: Rank, x: Scored)
    ensures x in Sightings(pulls, rank) <==> exists j :: FirstPull(pulls, j) && x == ScoreOf(pulls[j], rank)
  {
    if pulls != [] {
      var n := |pulls| - 1;
      var rest := pulls[..n];
      SightingsAre(rest, rank, x);
      IdsAreVids(rest, rank);
      assert forall j :: 0 <= j < n ==> pulls[j] == rest[j];
      assert forall j :: FirstPull(rest, j) <==> j < n && FirstPull(pulls, j);
      LastIsFirst(pulls);
    }
  }

  lemma LastIsFirst(pulls: seq<Pull>)
    requires pulls != []
    ensures FirstPull(pulls, |pulls| - 1) <==> pulls[|pulls| - 1].hit.vid !in Vids(pulls[..|pulls| - 1])
  {
    var n := |pulls| - 1;
    var rest := pulls[..n];
    if !FirstPull(pulls, n) {
      var i :| 0 <= i < n && pulls[i].hit.vid == pulls[n].hit.vid;
      assert rest[i] in rest;
    }
  }

  /** The hits one column has delivered. */
  ghost function Delivered(pulls: seq<Pull>, column: nat): seq<Hit> {
    if pulls == [] then []
    else Delivered(pulls[..|pulls| - 1], column)
         + if pulls[|pulls| - 1].column == column then [pulls[|pulls| - 1].hit] else []
  }

  lemma PullOne(pulls: seq<Pull>, rank: Rank, column: nat, hit: Hit)
    ensures var more, seen := pulls + [Pull(column, hit)], Sightings(pulls, rank);
            && Sightings(more, rank) == (if hit.vid in Ids(seen) then seen else seen + [Scored(hit.vid, rank(column, hit))])
            && forall c :: Delivered(more, c) == Delivered(pulls, c) + if c == column then [hit] else []
  {
    assert (pulls + [Pull(column, hit)])[..|pulls|] == pulls;
  }

  // ---- The k best ----

  /** `kept` are k best of `all`: the rest, `dropped`, score no better. */
  ghost predicate Best(kept: seq<Scored>, dropped: multiset<Scored>, all: seq<Scored>, k: nat) {
    && multiset(all) == multiset(kept) + dropped
    && |kept| == Min(k, |all|)
    && forall x, y :: x in kept && y in dropped ==> x.score <= y.score
  }

  ghost predicate IsTop(s: seq<Scored>, j: nat) {
    j < |s| && forall i :: 0 <= i < |s| ==> s[i].score <= s[j].score
  }

  /** The heap's top: some entry of largest score. */
  method Top(s: seq<Scored>) returns (j: nat)
    requires s != []
    ensures IsTop(s, j)
  {
    j := 0;
    var i := 1;
    while i < |s|
      invariant 1 <= i <= |s| && j < i
      invariant forall m :: 0 <= m < i ==> s[m].score <= s[j].score
    {
      if s[i].score > s[j].score {
        j := i;
      } else if s[i].score == s[j].score {
        // Any of several equal entries may be the top.
        var either: bool := *;
        if either {
          j := i;
        }
      }
      i := i + 1;
    }
  }

  function Remove(s: seq<Scored>, j: nat): seq<Scored>
    requires j < |s|
  {
    s[..j] + s[j + 1..]
  }

  lemma RemoveOne(s: seq<Scored>, j: nat)
    requires j < |s|
    ensures |Remove(s, j)| == |s| - 1
    ensures multiset(s) == multiset(Remove(s, j)) + multiset{s[j]}
    ensures forall x :: x in Remove(s, j) ==> x in s
  {
    assert s == s[..j] + [s[j]] + s[j + 1..];
  }

  lemma BestSize(kept: seq<Scored>, dropped: multiset<Scored>, all: seq<Scored>, k: nat)
    requires Best(kept, dropped, all, k)
    ensures |dropped| == |all| - |kept|
    ensures |kept| < k ==> dropped == multiset{}
  {
    assert |multiset(all)| == |all| && |multiset(kept)| == |kept|;
    assert |multiset(kept) + dropped| == |kept| + |dropped|;
  }

  /** A new item not better than a full heap's top is dropped. */
  lemma DropWorse(kept: seq<Scored>, dropped: multiset<Scored>, all: seq<Scored>, k: nat, j: nat, x: Scored)
    requires Best(kept, dropped, all, k) && |kept| == k && IsTop(kept, j) && kept[j].score <= x.score
    ensures Best(kept, dropped + multiset{x}, all + [x], k)
  {
    forall a, b | a in kept && b in dropped + multiset{x} ensures a.score <= b.score {
      if b !in dropped {
        var i :| 0 <= i < |kept| && kept[i] == a;
      }
    }
  }

  /** A better one takes the place of the top. */
  lemma ReplaceTop(kept: seq<Scored>, dropped: multiset<Scored>, all: seq<Scored>, k: nat, j: nat, x: Scored)
    requires Best(kept, dropped, all, k) && |kept| == k && IsTop(kept, j) && x.score < kept[j].score
    ensures Best(Remove(kept, j) + [x], dropped + multiset{kept[j]}, all + [x], k)
  {
    hide Remove;
    RemoveOne(kept, j);
    var rest := Remove(kept, j);
    forall a, b | a in rest + [x] && b in dropped + multiset{kept[j]} ensures a.score <= b.score {
      if b in dropped {
        assert kept[j] in kept && kept[j].score <= b.score;
      }
      if a in rest {
        var i :| 0 <= i < |kept| && kept[i] == a;
      }
    }
    assert multiset(rest + [x]) == multiset(rest) + multiset{x};
  }

  /** While the heap is not full everything is kept. */
  lemma KeepAll(kept: seq<Scored>, dropped: multiset<Scored>, all: seq<Scored>, k: nat, x: Scored)
    requires Best(kept, dropped, all, k) && |kept| < k
    ensures Best(kept + [x], dropped, all + [x], k)
  {
    BestSize(kept, dropped, all, k);
  }

  // ---- Which results are dropped ----

  /** The items that score no worse than v. */
  ghost function NoWorse(s: seq<Scored>, v: real): seq<Scored> {
    if s == [] then []
    else
      var rest, last := NoWorse(s[..|s| - 1], v), s[|s| - 1];
      if last.score <= v then rest + [last] else rest
  }

  /** How many of the newest items met k others that were no worse, in a row. */
  ghost function Drops(s: seq<Scored>, k: nat): nat {
    if s == [] then 0
    else
      var rest, last := s[..|s| - 1], s[|s| - 1];
      if |NoWorse(rest, last.score)| >= k then Drops(rest, k) + 1 else 0
  }

  lemma {:induction false} NoWorseTimes(s: seq<Scored>, v: real, x: Scored)
    ensures multiset(NoWorse(s, v))[x] == if x.score <= v then multiset(s)[x] else 0
  {
    if s != [] {
      NoWorseTimes(s[..|s| - 1], v, x);
      assert s == s[..|s| - 1] + [s[|s| - 1]];
    }
  }

  lemma MultisetSize(a: multiset<Scored>, b: multiset<Scored>)
    requires a <= b
    ensures |a| <= |b|
  {
    assert b == a + (b - a);
  }

  /** The test against the top of a full heap counts the items seen that are no worse. */
  lemma TopTest(kept: seq<Scored>, dropped: multiset<Scored>, all: seq<Scored>, k: nat, j: nat, v: real)
    requires Best(kept, dropped, all, k) && |kept| == k && IsTop(kept, j)
    ensures kept[j].score <= v <==> |NoWorse(all, v)| >= k
  {
    hide NoWorse;
    var few := multiset(NoWorse(all, v));
    if kept[j].score <= v {
      forall x | x in multiset(kept) ensures multiset(kept)[x] <= few[x] {
        NoWorseTimes(all, v, x);
        assert x in kept;
      }
      assert multiset(kept) <= few;
      MultisetSize(multiset(kept), few);
    } else {
      RemoveOne(kept, j);
      var rest := multiset(Remove(kept, j));
      forall x | x in few ensures few[x] <= rest[x] {
        NoWorseTimes(all, v, x);
        assert kept[j] in kept;
        assert x !in dropped;
      }
      assert few <= rest;
      MultisetSize(few, rest);
    }
  }

  lemma DropsNext(all: seq<Scored>, x: Scored, k: nat)
    ensures Drops(all + [x], k) == if |NoWorse(all, x.score)| >= k then Drops(all, k) + 1 else 0
  {
    assert (all + [x])[..|all|] == all;
  }

  lemma {:induction false} NoWorseSize(s: seq<Scored>, v: real)
    ensures |NoWorse(s, v)| <= |s|
  {
    if s != [] { NoWorseSize(s[..|s| - 1], v); }
  }

  // ---- Which results are pulled ----

  /** Every column has at least m results. */
  ghost predicate CanRun(source: seq<seq<Hit>>, m: nat) {
    forall c :: 0 <= c < |source| ==> |source[c]| >= m
  }

  /** Result number p of each of the first c columns. */
  ghost function Pass(source: seq<seq<Hit>>, p: nat, c: nat): seq<Pull>
    requires c <= |source| && forall b :: 0 <= b < c ==> p < |source[b]|
  {
    if c == 0 then [] else Pass(source, p, c - 1) + [Pull(c - 1, source[c - 1][p])]
  }

  /** The first m passes over all columns. */
  ghost function Passes(source: seq<seq<Hit>>, m: nat): seq<Pull>
    requires CanRun(source, m)
  {
    if m == 0 then [] else Passes(source, m - 1) + Pass(source, m - 1, |source|)
  }

  ghost function Vids(pulls: seq<Pull>): set<int> {
    set p | p in pulls :: p.hit.vid
  }

  /** The end-of-scan test on what was pulled. */
  ghost predicate Satisfied(pulls: seq<Pull>, rank: Rank, k: nat, termCondVal: nat, searchLimit: int) {
    Drops(Sightings(pulls, rank), k) >= termCondVal || (searchLimit >= 0 && |Vids(pulls)| >= searchLimit)
  }

  /** After m whole passes none of the tests so far has held. */
  ghost predicate NotYet(source: seq<seq<Hit>>, rank: Rank, k: nat, termCondVal: nat, searchLimit: int, m: nat)
    requires CanRun(source, m)
  {
    forall q :: 1 <= q <= m ==> !Satisfied(Passes(source, q), rank, k, termCondVal, searchLimit)
  }

  /** A scan that ends in pass m: no earlier pass satisfied the test, and either this one does or it stops at the first
      column without a result for it. */
  ghost predicate EndsIn(source: seq<seq<Hit>>, rank: Rank, k: nat, termCondVal: nat, searchLimit: int, m: nat,
                         pulls: seq<Pull>)
  {
    && m >= 1 && CanRun(source, m - 1) && NotYet(source, rank, k, termCondVal, searchLimit, m - 1)
    && if CanRun(source, m)
       then pulls == Passes(source, m) && Satisfied(pulls, rank, k, termCondVal, searchLimit)
       else exists c :: FirstDry(source, m, c) && pulls == Passes(source, m - 1) + Pass(source, m - 1, c)
  }

  /** Column c is the first with fewer than m results. */
  ghost predicate FirstDry(source: seq<seq<Hit>>, m: nat, c: int) {
    0 <= c < |source| && |source[c]| < m && forall b :: 0 <= b < c ==> |source[b]| >= m
  }

  lemma OneFirstDry(source: seq<seq<Hit>>, m: nat, c: int, d: int)
    requires FirstDry(source, m, c) && FirstDry(source, m, d)
    ensures c == d
  {
  }

  /** The iterators decide what is seen: there is one such pass and one such list of results. */
  lemma EndsOnce(source: seq<seq<Hit>>, rank: Rank, k: nat, termCondVal: nat, searchLimit: int, m: nat, pulls: seq<Pull>,
                 m': nat, pulls': seq<Pull>)
    requires EndsIn(source, rank, k, termCondVal, searchLimit, m, pulls)
    requires EndsIn(source, rank, k, termCondVal, searchLimit, m', pulls')
    ensures m == m' && pulls == pulls'
  {
    hide Satisfied, Passes, Pass, NotYet;
    if m < m' {
      LaterPass(source, rank, k, termCondVal, searchLimit, m, pulls, m', pulls');
    } else if m' < m {
      LaterPass(source, rank, k, termCondVal, searchLimit, m', pulls', m, pulls);
    } else if !CanRun(source, m) {
      var c :| FirstDry(source, m, c) && pulls == Passes(source, m - 1) + Pass(source, m - 1, c);
      var d :| FirstDry(source, m, d) && pulls' == Passes(source, m - 1) + Pass(source, m - 1, d);
      OneFirstDry(source, m, c, d);
    }
  }

  lemma LaterPass(source: seq<seq<Hit>>, rank: Rank, k: nat, termCondVal: nat, searchLimit: int, m: nat, pulls: seq<Pull>,
                  m': nat, pulls': seq<Pull>)
    requires EndsIn(source, rank, k, termCondVal, searchLimit, m, pulls)
    requires EndsIn(source, rank, k, termCondVal, searchLimit, m', pulls')
    ensures m >= m'
  {
    hide Satisfied, Passes, Pass;
    if m < m' {
      NotYetAt(source, rank, k, termCondVal, searchLimit, m' - 1, m);
    }
  }

  lemma NotYetAt(source: seq<seq<Hit>>, rank: Rank, k: nat, termCondVal: nat, searchLimit: int, m: nat, q: nat)
    requires CanRun(source, m) && NotYet(source, rank, k, termCondVal, searchLimit, m) && 1 <= q <= m
    ensures CanRun(source, q) && !Satisfied(Passes(source, q), rank, k, termCondVal, searchLimit)
  {
    hide Satisfied, Passes;
  }

  /** After a whole pass the scan ends or goes on. */
  lemma AfterPass(source: seq<seq<Hit>>, rank: Rank, k: nat, termCondVal: nat, searchLimit: int, p: nat)
    requires CanRun(source, p + 1) && NotYet(source, rank, k, termCondVal, searchLimit, p)
    ensures if Satisfied(Passes(source, p + 1), rank, k, termCondVal, searchLimit)
            then EndsIn(source, rank, k, termCondVal, searchLimit, p + 1, Passes(source, p + 1))
            else NotYet(source, rank, k, termCondVal, searchLimit, p + 1)
  {
    hide Satisfied, Passes, Pass;
  }

  /** A pass that meets a column with nothing left ends the scan. */
  lemma AfterDry(source: seq<seq<Hit>>, rank: Rank, k: nat, termCondVal: nat, searchLimit: int, iters: seq<seq<Hit>>, p: nat, i: nat)
    requires At(source, iters, p, i) && i < |source| && iters[i] == []
    requires NotYet(source, rank, k, termCondVal, searchLimit, p)
    ensures EndsIn(source, rank, k, termCondVal, searchLimit, p + 1, Passes(source, p) + Pass(source, p, i))
  {
    hide Satisfied, Passes, Pass, NotYet;
    PassDry(source, iters, p, i);
    assert FirstDry(source, p + 1, i);
  }

  lemma PullNext(before: seq<Pull>, source: seq<seq<Hit>>, p: nat, i: nat)
    requires i < |source| && forall b :: 0 <= b <= i ==> p < |source[b]|
    ensures before + Pass(source, p, i + 1) == (before + Pass(source, p, i)) + [Pull(i, source[i][p])]
  {
  }

  lemma {:induction false} IdsAreVids(pulls: seq<Pull>, rank: Rank)
    ensures Ids(Sightings(pulls, rank)) == Vids(pulls)
  {
    if pulls != [] {
      var rest, p := pulls[..|pulls| - 1], pulls[|pulls| - 1];
      IdsAreVids(rest, rank);
      assert pulls == rest + [p];
      assert Vids(pulls) == Vids(rest) + {p.hit.vid};
      IdsGrow(Sightings(rest, rank), Scored(p.hit.vid, rank(p.column, p.hit)));
    }
  }

  /** What each column has left in pass p after its first i columns. */
  ghost predicate At(source: seq<seq<Hit>>, iters: seq<seq<Hit>>, p: nat, i: nat) {
    && |iters| == |source| && i <= |source| && CanRun(source, p) && (forall c :: 0 <= c < i ==> p < |source[c]|)
    && forall c :: 0 <= c < |source| ==> iters[c] == if c < i then source[c][p + 1..] else source[c][p..]
  }

  lemma AtNext(source: seq<seq<Hit>>, iters: seq<seq<Hit>>, p: nat, i: nat)
    requires At(source, iters, p, i) && i < |source| && iters[i] != []
    ensures iters[i][0] == source[i][p] && At(source, iters[i := iters[i][1..]], p, i + 1)
  {
    assert source[i][p..][1..] == source[i][p + 1..];
  }

  lemma PassStarts(source: seq<seq<Hit>>, p: nat)
    ensures Pass(source, p, 0) == []
  {
  }

  lemma PassEnds(source: seq<seq<Hit>>, iters: seq<seq<Hit>>, p: nat)
    requires At(source, iters, p, |source|)
    ensures At(source, iters, p + 1, 0) && Passes(source, p + 1) == Passes(source, p) + Pass(source, p, |source|)
  {
  }

  lemma {:induction false} NoColumns(m: nat)
    ensures Passes([], m) == []
  {
    if m > 0 { NoColumns(m - 1); }
  }

  lemma PassDry(source: seq<seq<Hit>>, iters: seq<seq<Hit>>, p: nat, i: nat)
    requires At(source, iters, p, i) && i < |source| && iters[i] == []
    ensures |source[i]| < p + 1 && !CanRun(source, p + 1) && forall b :: 0 <= b < i ==> |source[b]| >= p + 1
  {
    assert |source[i]| <= p;
  }

  // ---- Ordered output ----

  ghost predicate Ascending(s: seq<Scored>) {
    forall i, j :: 0 <= i < j < |s| ==> s[i].score <= s[j].score
  }

  ghost function Reversed(s: seq<Scored>): (r: seq<Scored>)
    ensures |r| == |s| && forall i :: 0 <= i < |s| ==> r[i] == s[|s| - 1 - i]
  {
    seq(|s|, i requires 0 <= i < |s| => s[|s| - 1 - i])
  }

  /** `ranked` lists k best of all sightings, best first. */
  ghost predicate IsRanking(ranked: seq<Scored>, dropped: multiset<Scored>, all: seq<Scored>, k: nat) {
    Best(ranked, dropped, all, k) && Ascending(ranked)
  }

  /** Moving the top of the heap onto the stack. */
  ghost predicate Draining(heap: seq<Scored>, stack: seq<Scored>, whole: seq<Scored>) {
    && multiset(heap) + multiset(stack) == multiset(whole)
    && Ascending(Reversed(stack))
    && forall x, y :: x in heap && y in stack ==> x.score <= y.score
  }

  lemma DrainOne(heap: seq<Scored>, stack: seq<Scored>, whole: seq<Scored>, j: nat)
    requires Draining(heap, stack, whole) && IsTop(heap, j)
    ensures Draining(Remove(heap, j), stack + [heap[j]], whole)
  {
    hide Remove;
    RemoveOne(heap, j);
    assert multiset(stack + [heap[j]]) == multiset(stack) + multiset{heap[j]};
    assert Reversed(stack + [heap[j]]) == [heap[j]] + Reversed(stack);
    assert forall i :: 0 <= i < |stack| ==> heap[j] in heap && stack[i] in stack;
    forall x, y | x in Remove(heap, j) && y in stack + [heap[j]] ensures x.score <= y.score {
      assert x in heap;
      var i :| 0 <= i < |heap| && heap[i] == x;
    }
  }

  lemma DrainEnds(stack: seq<Scored>, whole: seq<Scored>, dropped: multiset<Scored>, all: seq<Scored>, k: nat)
    requires Draining([], stack, whole) && Best(whole, dropped, all, k)
    ensures IsRanking(Reversed(stack), dropped, all, k)
  {
    ReversedMultiset(stack);
    var ranked := Reversed(stack);
    assert |multiset(ranked)| == |multiset(whole)|;
    forall x, y | x in ranked && y in dropped ensures x.score <= y.score {
      assert x in multiset(ranked);
      assert x in multiset(whole);
      assert x in whole;
    }
  }

  lemma {:induction false} ReversedMultiset(s: seq<Scored>)
    ensures multiset(Reversed(s)) == multiset(s)
  {
    if s != [] {
      var rest, last := s[..|s| - 1], s[|s| - 1];
      ReversedMultiset(rest);
      assert s == rest + [last];
      assert Reversed(s) == [last] + Reversed(rest);
    } else {
      assert Reversed(s) == s;
    }
  }

  function Remaining(iters: seq<seq<Hit>>): nat {
    if iters == [] then 0 else Remaining(iters[..|iters| - 1]) + |iters[|iters| - 1]|
  }

  lemma {:induction false} RemainingAt(iters: seq<seq<Hit>>, i: nat)
    requires i < |iters| && iters[i] != []
    ensures Remaining(iters[i := iters[i][1..]]) == Remaining(iters) - 1
  {
    var n := |iters| - 1;
    if i < n {
      RemainingAt(iters[..n], i);
      assert iters[i := iters[i][1..]][..n] == iters[..n][i := iters[i][1..]];
    } else {
      assert iters[i := iters[i][1..]][..n] == iters[..n];
    }
  }

  // ---- The scan ----

  class MultiIndexScan {
    const k: nat
    const termCondVal: nat
    const searchLimit: int
    const rank: Rank
    ghost const source: seq<seq<Hit>>
    var iters: seq<seq<Hit>>            // what each column's iterator has left
    var pq: seq<Scored>
    var seen: set<int>
    var outputStk: seq<Scored>          // top at the end
    var consecutiveDrops: nat
    var terminate: bool
    ghost var pulls: seq<Pull>
    ghost var dropped: multiset<Scored>
    ghost var ranked: seq<Scored>       // fixed once the scan has ended
    ghost var emitted: seq<Scored>      // results handed out so far
    ghost var passes: nat               // whole passes made; once the scan has ended, the pass it ended in

    ghost predicate Pulled()
      reads this
    {
      && |iters| == |source|
      && (forall c :: 0 <= c < |iters| ==> source[c] == Delivered(pulls, c) + iters[c])
      && seen == Ids(Sightings(pulls, rank))
    }

    ghost predicate Scanning()
      reads this
    {
      && Pulled() && outputStk == [] && emitted == [] && Best(pq, dropped, Sightings(pulls, rank), k)
      && consecutiveDrops == Drops(Sightings(pulls, rank), k)
    }

    /** After whole passes only, with no test met. */
    ghost predicate Between()
      reads this
    {
      && At(source, iters, passes, 0) && pulls == Passes(source, passes)
      && NotYet(source, rank, k, termCondVal, searchLimit, passes)
    }

    /** What was pulled is what the iterators, k, the ranking and the two limits call for. */
    ghost predicate Ended()
      reads this
    {
      EndsIn(source, rank, k, termCondVal, searchLimit, passes, pulls)
    }

    ghost predicate Valid()
      reads this
    {
      && k >= 1
      && if terminate
         then && Pulled() && pq == [] && emitted + Reversed(outputStk) == ranked
              && IsRanking(ranked, dropped, Sightings(pulls, rank), k) && Ended()
         else Scanning() && Between()
    }

    constructor (columns: seq<seq<Hit>>, k: nat, rank: Rank, termCondVal: nat, searchLimit: int)
      requires k >= 1
      ensures Valid() && !terminate && emitted == [] && iters == columns
      ensures this.k == k && this.rank == rank && this.source == columns
      ensures this.termCondVal == termCondVal && this.searchLimit == searchLimit
    {
      this.k, this.rank, this.termCondVal, this.searchLimit := k, rank, termCondVal, searchLimit;
      source := columns;
      iters, pq, seen, outputStk := columns, [], {}, [];
      consecutiveDrops, terminate := 0, false;
      pulls, dropped, ranked, emitted, passes := [], multiset{}, [], [], 0;
    }

    /** A newly scored item meets the bounded heap. */
    method Offer(x: Scored, ghost all: seq<Scored>)
      requires k >= 1 && Best(pq, dropped, all, k) && consecutiveDrops == Drops(all, k)
      modifies this`pq, this`consecutiveDrops, this`dropped
      ensures Best(pq, dropped, all + [x], k) && consecutiveDrops == Drops(all + [x], k)
    {
      hide Best, Remove, Drops, NoWorse;
      HeapSize(pq, dropped, all, k);
      DropsNext(all, x, k);
      NoWorseSize(all, x.score);
      if |pq| == k {
        var j := Top(pq);
        TopTest(pq, dropped, all, k, j, x.score);
        if pq[j].score <= x.score {
          DropWorse(pq, dropped, all, k, j, x);
          dropped := dropped + multiset{x};
          consecutiveDrops := consecutiveDrops + 1;
        } else {
          ReplaceTop(pq, dropped, all, k, j, x);
          dropped := dropped + multiset{pq[j]};
          consecutiveDrops := 0;
          pq := Remove(pq, j) + [x];
        }
      } else {
        KeepAll(pq, dropped, all, k, x);
        consecutiveDrops := 0;
        pq := pq + [x];
      }
    }

    /** One result of one column: score it if its id is new. */
    method Consume(i: nat)
      requires Scanning() && k >= 1 && i < |iters| && iters[i] != []
      modifies this`iters, this`pq, this`seen, this`consecutiveDrops, this`pulls, this`dropped
      ensures Scanning() && iters == old(iters)[i := old(iters)[i][1..]] && pulls == old(pulls) + [Pull(i, old(iters)[i][0])]
      ensures Remaining(iters) == Remaining(old(iters)) - 1
    {
      hide Best, Sightings, Delivered, Remaining, Drops;
      var hit := iters[i][0];
      ghost var all := Sightings(pulls, rank);
      PullOne(pulls, rank, i, hit);
      RemainingAt(iters, i);
      assert iters[i] == [hit] + iters[i][1..];
      iters := iters[i := iters[i][1..]];
      pulls := pulls + [Pull(i, hit)];
      if hit.vid !in seen {
        IdsGrow(all, Scored(hit.vid, rank(i, hit)));
        Offer(Scored(hit.vid, rank(i, hit)), all);
        seen := seen + {hit.vid};
      }
    }

    /** One pass over the columns, cut short when an iterator has nothing left. */
    method Round()
      requires Scanning() && Between() && k >= 1 && !terminate
      modifies this`iters, this`pq, this`seen, this`consecutiveDrops, this`pulls, this`dropped, this`terminate
      ensures Scanning() && |iters| == |old(iters)|
      ensures !terminate ==> At(source, iters, passes + 1, 0) && pulls == Passes(source, passes + 1)
      ensures terminate ==> EndsIn(source, rank, k, termCondVal, searchLimit, passes + 1, pulls)
      ensures Remaining(iters) <= Remaining(old(iters))
      ensures |iters| > 0 && !terminate ==> Remaining(iters) < Remaining(old(iters))
    {
      hide Best, Sightings, Delivered, Remaining, NotYet, Drops, Passes, Pass, EndsIn;
      PassStarts(source, passes);
      assert pulls == Passes(source, passes) + Pass(source, passes, 0);
      var i := 0;
      while i < |iters|
        invariant 0 <= i <= |iters| == |old(iters)| && !terminate
        invariant Scanning() && At(source, iters, passes, i)
        invariant pulls == Passes(source, passes) + Pass(source, passes, i)
        invariant Remaining(iters) == Remaining(old(iters)) - i
      {
        if iters[i] == [] {
          AfterDry(source, rank, k, termCondVal, searchLimit, iters, passes, i);
          terminate := true;
          break;
        }
        AtNext(source, iters, passes, i);
        PullNext(Passes(source, passes), source, passes, i);
        Consume(i);
        i := i + 1;
      }
      if !terminate { PassEnds(source, iters, passes); }
    }

    /** The scan loop: round robin over the columns until one is exhausted, enough results in
        a row were dropped, or enough ids were seen.  With no columns at all it ends only if
        the test holds from the start. */
    method Scan()
      requires Scanning() && Between() && k >= 1 && !terminate
      requires |iters| >= 1 || Satisfied([], rank, k, termCondVal, searchLimit)
      modifies this`iters, this`pq, this`seen, this`consecutiveDrops, this`pulls, this`dropped, this`terminate, this`passes
      ensures Scanning() && terminate && Ended()
    {
      hide Best, Sightings, Delivered, Remaining, NotYet, Drops, Passes, Vids, EndsIn;
      while !terminate
        invariant Scanning() && |iters| == |old(iters)|
        invariant if terminate then Ended() else Between()
        decreases Remaining(iters), !terminate
      {
        Round();
        passes := passes + 1;
        IdsAreVids(pulls, rank);
        if !terminate {
          AfterPass(source, rank, k, termCondVal, searchLimit, passes - 1);
          if source == [] { NoColumns(passes); }
        }
        if consecutiveDrops >= termCondVal {
          terminate := true;
        } else if searchLimit >= 0 && |seen| >= searchLimit {
          terminate := true;
        }
      }
    }

    /** Empties the heap onto the stack, largest score first. */
    method Drain()
      requires Scanning() && terminate && k >= 1 && Ended()
      modifies this`pq, this`outputStk, this`ranked
      ensures Valid() && ranked == Reversed(outputStk)
    {
      hide Best, Sightings, Delivered, Remove;
      ghost var whole := pq;
      StartDrain(pq);
      while pq != []
        invariant Draining(pq, outputStk, whole)
        decreases |pq|
      {
        hide Draining;
        var j := Top(pq);
        DrainOne(pq, outputStk, whole, j);
        RemoveOne(pq, j);
        outputStk := outputStk + [pq[j]];
        pq := Remove(pq, j);
      }
      DrainEnds(outputStk, whole, dropped, Sightings(pulls, rank), k);
      ranked := Reversed(outputStk);
      assert emitted + Reversed(outputStk) == ranked;
    }

    /** Next: the first call scans and ranks; every call hands out the next result, and once
        all are out returns false for ever. */
    method Next() returns (found: bool, result: Scored)
      requires Valid()
      requires terminate || |source| >= 1 || Satisfied([], rank, k, termCondVal, searchLimit)
      modifies this
      ensures Valid() && terminate
      ensures EndsIn(source, rank, k, termCondVal, searchLimit, passes, pulls)
      ensures IsRanking(ranked, dropped, Sightings(pulls, rank), k)
      ensures old(terminate) ==> ranked == old(ranked) && pulls == old(pulls)
      ensures found <==> |old(emitted)| < |ranked|
      ensures found ==> emitted == old(emitted) + [result] && result == ranked[|old(emitted)|]
      ensures !found ==> emitted == old(emitted) == ranked
    {
      hide Best, IsRanking, Sightings, Delivered, EndsIn, Drops, NotYet, Passes, At, Ids, Reversed;
      NothingLeft(emitted);
      result := Scored(-1, 0.0);
      if !terminate {
        Scan();
        Drain();
      }
      if |outputStk| == 0 {
        return false, result;
      }
      result := outputStk[|outputStk| - 1];
      HandOut(emitted, outputStk);
      outputStk := outputStk[..|outputStk| - 1];
      emitted := emitted + [result];
      found := true;
    }
  }

  lemma HandOut(emitted: seq<Scored>, stack: seq<Scored>)
    requires stack != []
    ensures var n := |stack| - 1;
            && (emitted + [stack[n]]) + Reversed(stack[..n]) == emitted + Reversed(stack)
            && |emitted| < |emitted + Reversed(stack)| && (emitted + Reversed(stack))[|emitted|] == stack[n]
  {
    assert Reversed(stack) == [stack[|stack| - 1]] + Reversed(stack[..|stack| - 1]);
  }

  lemma NothingLeft(emitted: seq<Scored>)
    ensures emitted + Reversed([]) == emitted
  {
  }

  lemma StartDrain(heap: seq<Scored>)
    ensures Draining(heap, [], heap)
  {
  }

  lemma HeapSize(kept: seq<Scored>, dropped: multiset<Scored>, all: seq<Scored>, k: nat)
    requires Best(kept, dropped, all, k)
    ensures |kept| <= k && (|kept| < k ==> |all| < k)
  {
  }

  lemma IdsGrow(s: seq<Scored>, x: Scored)
    ensures Ids(s + [x]) == Ids(s) + {x.vid}
  {
    assert forall y :: y in s + [x] <==> y in s || y == x;
  }

  /** A ranking lists distinct ids, each with its first score, and nothing left out scores
      better than anything listed. */
  lemma RankingMeans(ranked: seq<Scored>, dropped: multiset<Scored>, pulls: seq<Pull>, rank: Rank, k: nat)
    requires IsRanking(ranked, dropped, Sightings(pulls, rank), k)
    ensures |ranked| == Min(k, |Sightings(pulls, rank)|) && Ascending(ranked)
    ensures forall x :: x in ranked ==> x in Sightings(pulls, rank)
    ensures DistinctIds(ranked)
    ensures forall x, y :: x in ranked && y in Sightings(pulls, rank) && y !in ranked ==> x.score <= y.score
  {
    hide Sightings;
    var all := Sightings(pulls, rank);
    SightingsDistinct(pulls, rank);
    forall x | x in ranked ensures x in all {
      assert x in multiset(ranked);
      assert x in multiset(all);
    }
    forall i, j | 0 <= i < j < |ranked| ensures ranked[i].vid != ranked[j].vid {
      if ranked[i].vid == ranked[j].vid {
        SameIdSameItem(all, ranked[i], ranked[j]);
        TwiceInside(ranked, i, j);
        OnceOnly(all, ranked[i]);
      }
    }
    forall x, y | x in ranked && y in all && y !in ranked ensures x.score <= y.score {
      assert y in multiset(all) && y !in multiset(ranked);
    }
  }

  lemma SameIdSameItem(all: seq<Scored>, x: Scored, y: Scored)
    requires DistinctIds(all) && x in all && y in all && x.vid == y.vid
    ensures x == y
  {
    var i :| 0 <= i < |all| && all[i] == x;
    var j :| 0 <= j < |all| && all[j] == y;
    assert i == j;
  }

  lemma TwiceInside(s: seq<Scored>, i: nat, j: nat)
    requires i < j < |s| && s[i] == s[j]
    ensures multiset(s)[s[i]] >= 2
  {
    assert s == s[..i] + [s[i]] + s[i + 1..j] + [s[j]] + s[j + 1..];
  }

  lemma {:induction false} OnceOnly(s: seq<Scored>, x: Scored)
    requires DistinctIds(s)
    ensures multiset(s)[x] <= 1
  {
    if s != [] {
      var rest, last := s[..|s| - 1], s[|s| - 1];
      OnceOnly(rest, x);
      assert s == rest + [last];
      assert last !in rest;
    }
  }
}
