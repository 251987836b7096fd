/** The recursive grouping pass of dynamic head selection: a node gathers the still
    open nodes below it and closes the group once it is large enough. */
module HeadGrouping {
  import opened Common
  import opened ClusterTree

  /** A child whose subtree left `size` nodes without a group. */
  datatype Child = Child(id: int, size: int)

  datatype Options = Options(selectThreshold: int, splitThreshold: int, splitFactor: int)

  /** The unstable library sort, as some fixed function of its input. */
  type Sorter = seq<Child> -> seq<Child>

  ghost predicate SortsDescending(sort: Sorter) {
    forall s :: multiset(sort(s)) == multiset(s) && Descending(sort(s))
  }

  ghost predicate Descending(s: seq<Child>) {
    forall i, j :: 0 <= i < j < |s| ==> s[i].size >= s[j].size
  }

  function Total(s: seq<Child>): int {
    if s == [] then 0 else Total(s[..|s| - 1]) + s[|s| - 1].size
  }

  lemma {:induction false} TotalExtend(s: seq<Child>, c: Child)
    ensures Total(s + [c]) == Total(s) + c.size
  {
    assert (s + [c])[..|s|] == s;
  }

  // ---- What the pass returns: it depends on the select threshold alone ----

  function CloseOrKeep(size: int, select: int): int {
    if size >= select then 0 else size
  }

  /** The members of `f` that are still open, with what they left open. */
  function Open(f: Forest, select: int): seq<Child> {
    match f
    case Nil => []
    case Add(rest, id, kids) =>
      var size := CloseOrKeep(1 + Total(Open(kids, select)), select);
      if size > 0 then Open(rest, select) + [Child(id, size)] else Open(rest, select)
  }

  function Residue(t: Tree, select: int, id: int): int
    requires WellFormed(t) && InTree(t, id)
  {
    CloseOrKeep(1 + Total(Open(Children(t, id), select)), select)
  }

  // ---- What the pass pushes ----

  /** Ceiling of `size / factor`. */
  function SelectCount(size: int, factor: int): (n: nat)
    requires size >= 0 && factor >= 1
    ensures factor * (n - 1) < size <= factor * n
  {
    (size + factor - 1) / factor
  }

  function CenterOf(t: Tree, id: int): int {
    if InTree(t, id) then t[id].center else -1
  }

  function Centers(t: Tree, s: seq<Child>): (r: seq<int>)
    ensures |r| == |s| && forall i :: 0 <= i < |s| ==> r[i] == CenterOf(t, s[i].id)
  {
    seq(|s|, i requires 0 <= i < |s| => CenterOf(t, s[i].id))
  }

  function Prefix(s: seq<Child>, n: int): (r: seq<Child>)
    ensures n >= 0 ==> |r| <= n
  {
    if n < 0 then [] else if n < |s| then s[..n] else s
  }

  /** What a node pushes for itself, given its open children. */
  ghost function OwnPushes(t: Tree, o: Options, sort: Sorter, id: int, open: seq<Child>): seq<int>
    requires o.splitFactor >= 1
  {
    var size := 1 + Total(open);
    if size < o.selectThreshold then []
    else
      (if CenterOf(t, id) < CenterOf(t, 0) then [CenterOf(t, id)] else [])
      + (if size > o.splitThreshold && size >= 1
         then Centers(t, Prefix(sort(open), SelectCount(size, o.splitFactor)))
         else [])
  }

  ghost function Pushes(t: Tree, o: Options, sort: Sorter, f: Forest): seq<int>
    requires o.splitFactor >= 1
  {
    match f
    case Nil => []
    case Add(rest, id, kids) =>
      Pushes(t, o, sort, rest) + Pushes(t, o, sort, kids)
      + OwnPushes(t, o, sort, id, Open(kids, o.selectThreshold))
  }

  /** Everything one pass over the subtree of `id` pushes. */
  ghost function PassPushes(t: Tree, o: Options, sort: Sorter, id: int): seq<int>
    requires WellFormed(t) && InTree(t, id) && o.splitFactor >= 1
  {
    Pushes(t, o, sort, View(t, id, id + 1))
  }

  lemma ViewExtends(t: Tree, lo: int, i: int)
    requires WellFormed(t) && 0 <= lo <= i < |t|
    ensures View(t, lo, lo) == Nil
    ensures View(t, lo, i + 1) == Add(View(t, lo, i), i, Children(t, i))
  {
  }

  lemma PushesAdd(t: Tree, o: Options, sort: Sorter, rest: Forest, id: int, kids: Forest)
    requires o.splitFactor >= 1
    ensures Pushes(t, o, sort, Nil) == []
    ensures Pushes(t, o, sort, Add(rest, id, kids))
         == Pushes(t, o, sort, rest) + (Pushes(t, o, sort, kids)
            + OwnPushes(t, o, sort, id, Open(kids, o.selectThreshold)))
  {
  }

  lemma PassPushesSplits(t: Tree, o: Options, sort: Sorter, id: int)
    requires WellFormed(t) && InTree(t, id) && o.splitFactor >= 1
    ensures PassPushes(t, o, sort, id)
         == Pushes(t, o, sort, Children(t, id)) + OwnPushes(t, o, sort, id, Open(Children(t, id), o.selectThreshold))
  {
    hide View, Children, Pushes, OwnPushes, Open;
    ViewExtends(t, id, id);
    PushesAdd(t, o, sort, Nil, id, Children(t, id));
  }

  lemma PassStarts(t: Tree, o: Options, sort: Sorter, lo: int)
    requires WellFormed(t) && 0 <= lo && o.splitFactor >= 1
    ensures Pushes(t, o, sort, View(t, lo, lo)) == []
    ensures Open(View(t, lo, lo), o.selectThreshold) == [] && Total([]) == 0
  {
  }

  lemma NoChildren(t: Tree, id: int)
    requires WellFormed(t) && InTree(t, id)
    ensures First(t, id) >= Last(t, id) ==> Children(t, id) == View(t, First(t, id), First(t, id))
  {
  }

  /** One more sibling: what the loop over children adds. */
  lemma PassExtends(t: Tree, o: Options, sort: Sorter, lo: int, i: int)
    requires WellFormed(t) && 0 <= lo <= i < |t| && o.splitFactor >= 1
    ensures Pushes(t, o, sort, View(t, lo, i + 1)) == Pushes(t, o, sort, View(t, lo, i)) + PassPushes(t, o, sort, i)
    ensures var open, cs := Open(View(t, lo, i), o.selectThreshold), Residue(t, o.selectThreshold, i);
            Open(View(t, lo, i + 1), o.selectThreshold) == if cs > 0 then open + [Child(i, cs)] else open
  {
    ViewExtends(t, lo, i);
    PassPushesSplits(t, o, sort, i);
    PushesAdd(t, o, sort, View(t, lo, i), i, Children(t, i));
  }

  lemma {:induction false} OpenInRange(t: Tree, select: int, lo: int, hi: int)
    requires WellFormed(t) && InRange(t, lo, hi)
    ensures forall c :: c in Open(View(t, lo, hi), select) ==> lo <= c.id < hi && c.size > 0
    decreases hi - lo
  {
    if lo < hi {
      OpenInRange(t, select, lo, hi - 1);
    }
  }

  lemma {:induction false} TotalNonNegative(s: seq<Child>)
    requires forall c :: c in s ==> c.size > 0
    ensures Total(s) >= |s|
  {
    if s != [] {
      TotalNonNegative(s[..|s| - 1]);
    }
  }

  lemma SortKeepsMembers(sort: Sorter, s: seq<Child>)
    requires SortsDescending(sort)
    ensures |sort(s)| == |s| && forall c :: c in sort(s) <==> c in s
  {
    assert multiset(sort(s)) == multiset(s);
    assert |multiset(sort(s))| == |multiset(s)|;
    forall c ensures c in sort(s) <==> c in s {
      assert c in sort(s) <==> c in multiset(sort(s));
      assert c in s <==> c in multiset(s);
    }
  }

  // ---- The pass itself ----

  class Selection {
    var ids: seq<int>

    constructor ()
      ensures ids == []
    {
      ids := [];
    }
  }

  /** The loop that pushes the centres of the first `selectCnt` sorted children. */
  method PushFirst(t: Tree, children: seq<Child>, selectCnt: nat, selected: Selection)
    requires forall c :: c in children ==> InTree(t, c.id)
    modifies selected
    ensures selected.ids == old(selected.ids) + Centers(t, Prefix(children, selectCnt))
  {
    ghost var split := Centers(t, Prefix(children, selectCnt));
    var i := 0;
    while i < selectCnt && i < |children|
      invariant 0 <= i <= |split|
      invariant selected.ids == old(selected.ids) + split[..i]
    {
      assert children[i] in children;
      assert split[..i + 1] == split[..i] + [split[i]];
      selected.ids := selected.ids + [t[children[i].id].center];
      i := i + 1;
    }
    assert split[..i] == split;
  }

  /** The loop over the children of `id`: recurse, and remember those left open. */
  method GatherChildren(t: Tree, id: int, o: Options, sort: Sorter, selected: Selection)
    returns (children: seq<Child>, childrenSize: int)
    requires WellFormed(t) && InTree(t, id) && o.splitFactor >= 1 && SortsDescending(sort)
    modifies selected
    ensures children == Open(Children(t, id), o.selectThreshold)
    ensures childrenSize == 1 + Total(children)
    ensures selected.ids == old(selected.ids) + Pushes(t, o, sort, Children(t, id))
    decreases |t| - id, 0
  {
    hide Pushes, PassPushes, Open, View, Total, SortsDescending, Residue;
    children, childrenSize := [], 1;
    PassStarts(t, o, sort, First(t, id));
    NoChildren(t, id);
    if t[id].childStart >= 0 {
      ghost var lo, hi := First(t, id), Last(t, id);
      ghost var pushed := Pushes(t, o, sort, View(t, lo, lo));
      var i := t[id].childStart;
      while i < t[id].childEnd
        invariant lo <= i && (lo < i ==> i <= hi)
        invariant children == Open(View(t, lo, i), o.selectThreshold)
        invariant childrenSize == 1 + Total(children)
        invariant pushed == Pushes(t, o, sort, View(t, lo, i))
        invariant selected.ids == old(selected.ids) + pushed
      {
        var cs := SelectInternal(t, i, o, sort, selected);
        PassExtends(t, o, sort, lo, i);
        ghost var more := PassPushes(t, o, sort, i);
        assert (old(selected.ids) + pushed) + more == old(selected.ids) + (pushed + more);
        pushed := pushed + more;
        if cs > 0 {
          TotalExtend(children, Child(i, cs));
          children := children + [Child(i, cs)];
          childrenSize := childrenSize + cs;
        }
        i := i + 1;
      }
    }
  }

  /** One recursive pass.  The value it returns does not mention the split threshold. */
  method SelectInternal(t: Tree, id: int, o: Options, sort: Sorter, selected: Selection)
    returns (size: int)
    requires WellFormed(t) && InTree(t, id) && o.splitFactor >= 1 && SortsDescending(sort)
    modifies selected
    ensures selected.ids == old(selected.ids) + PassPushes(t, o, sort, id)
    ensures size == Residue(t, o.selectThreshold, id)
    decreases |t| - id, 1
  {
    hide Pushes, PassPushes, Open, View, Total, SortsDescending, Centers, Prefix, SelectCount;
    var children, childrenSize := GatherChildren(t, id, o, sort, selected);
    OpenInRange(t, o.selectThreshold, First(t, id), Last(t, id));
    TotalNonNegative(children);
    PassPushesSplits(t, o, sort, id);
    if childrenSize >= o.selectThreshold {
      if t[id].center < t[0].center {
        selected.ids := selected.ids + [t[id].center];
      }
      if childrenSize > o.splitThreshold {
        SortKeepsMembers(sort, children);
        PushFirst(t, sort(children), SelectCount(childrenSize, o.splitFactor), selected);
      }
      return 0;
    }
    return childrenSize;
  }

  // ---- The selected set only shrinks as the split threshold grows ----

  lemma OwnPushesAntitone(t: Tree, o: Options, split: int, sort: Sorter, id: int, open: seq<Child>, x: int)
    requires o.splitFactor >= 1 && o.splitThreshold <= split
    requires x in OwnPushes(t, o.(splitThreshold := split), sort, id, open)
    ensures x in OwnPushes(t, o, sort, id, open)
  {
  }

  lemma {:induction false} PushesAntitone(t: Tree, o: Options, split: int, sort: Sorter, f: Forest, x: int)
    requires o.splitFactor >= 1 && o.splitThreshold <= split
    requires x in Pushes(t, o.(splitThreshold := split), sort, f)
    ensures x in Pushes(t, o, sort, f)
  {
    var p := o.(splitThreshold := split);
    match f
    case Add(rest, id, kids) =>
      if x in Pushes(t, p, sort, rest) {
        PushesAntitone(t, o, split, sort, rest, x);
      } else if x in Pushes(t, p, sort, kids) {
        PushesAntitone(t, o, split, sort, kids, x);
      } else {
        OwnPushesAntitone(t, o, split, sort, id, Open(kids, o.selectThreshold), x);
      }
  }

  /** A split pushes the children that hold the most open nodes. */
  lemma SplitPicksLargest(sort: Sorter, open: seq<Child>, n: nat)
    requires SortsDescending(sort) && n <= |open|
    ensures |sort(open)| == |open|
    ensures multiset(Prefix(sort(open), n)) + multiset(sort(open)[n..]) == multiset(open)
    ensures forall a, b :: a in Prefix(sort(open), n) && b in sort(open)[n..] ==> a.size >= b.size
  {
    SortKeepsMembers(sort, open);
    var all := sort(open);
    assert all[..n] + all[n..] == all;
    assert Prefix(all, n) == all[..n];
  }

  // ---- Conservation: closed groups and the loose rest partition the nodes ----

  ghost function Flatten(s: seq<seq<int>>): seq<int> {
    if s == [] then [] else Flatten(s[..|s| - 1]) + s[|s| - 1]
  }

  /** Nodes of `f` in no closed group. */
  ghost function Loose(f: Forest, select: int): seq<int> {
    match f
    case Nil => []
    case Add(rest, id, kids) =>
      var group := [id] + Loose(kids, select);
      Loose(rest, select) + (if |group| >= select then [] else group)
  }

  ghost function Closed(f: Forest, select: int): seq<seq<int>> {
    match f
    case Nil => []
    case Add(rest, id, kids) =>
      var group := [id] + Loose(kids, select);
      Closed(rest, select) + Closed(kids, select) + (if |group| >= select then [group] else [])
  }

  lemma {:induction false} FlattenConcat(a: seq<seq<int>>, b: seq<seq<int>>)
    ensures Flatten(a + b) == Flatten(a) + Flatten(b)
  {
    if b == [] {
      assert a + b == a;
    } else {
      FlattenConcat(a, b[..|b| - 1]);
      assert (a + b)[..|a + b| - 1] == a + b[..|b| - 1];
    }
  }

  lemma FlattenOne(g: seq<int>)
    ensures Flatten([g]) == g
  {
    assert [g][..0] == [];
    assert Flatten([g]) == Flatten([]) + g;
  }

  /** The sizes the pass adds up count the nodes it left open. */
  lemma {:induction false} LooseCounts(f: Forest, select: int)
    ensures Total(Open(f, select)) == |Loose(f, select)|
  {
    match f
    case Nil =>
    case Add(rest, id, kids) =>
      LooseCounts(rest, select);
      LooseCounts(kids, select);
      TotalExtend(Open(rest, select), Child(id, 1 + |Loose(kids, select)|));
  }

  /** Adding one node: its group either closes or joins the loose nodes. */
  lemma PartitionStep(a: seq<seq<int>>, b: seq<seq<int>>, x: seq<int>, y: seq<int>, m: seq<int>, n: seq<int>,
                      id: int, select: int)
    requires multiset(Flatten(a)) + multiset(x) == multiset(m)
    requires multiset(Flatten(b)) + multiset(y) == multiset(n)
    ensures var own := if |[id] + y| >= select then [[id] + y] else [];
            var left := if |[id] + y| >= select then [] else [id] + y;
            multiset(Flatten(a + b + own)) + multiset(x + left) == multiset(m + [id] + n)
  {
    FlattenConcat(a, b);
    FlattenConcat(a + b, [[id] + y]);
    FlattenOne([id] + y);
    assert a + b + [] == a + b;
  }

  lemma {:induction false} GroupsPartition(f: Forest, select: int)
    ensures multiset(Flatten(Closed(f, select))) + multiset(Loose(f, select)) == multiset(Nodes(f))
  {
    match f
    case Nil =>
    case Add(rest, id, kids) =>
      GroupsPartition(rest, select);
      GroupsPartition(kids, select);
      PartitionStep(Closed(rest, select), Closed(kids, select), Loose(rest, select), Loose(kids, select),
                    Nodes(rest), Nodes(kids), id, select);
  }

  ghost predicate AllAtLeast(s: seq<seq<int>>, n: int) {
    forall g :: g in s ==> |g| >= n
  }

  lemma {:induction false} ClosedAreLarge(f: Forest, select: int)
    ensures AllAtLeast(Closed(f, select), select)
  {
    match f
    case Nil =>
    case Add(rest, id, kids) =>
      ClosedAreLarge(rest, select);
      ClosedAreLarge(kids, select);
  }

  lemma {:induction false} LargeGroupsAreFew(s: seq<seq<int>>, n: nat)
    requires AllAtLeast(s, n)
    ensures n * |s| <= |Flatten(s)|
  {
    if s != [] {
      var rest, m := s[..|s| - 1], |s| - 1;
      LargeGroupsAreFew(rest, n);
      assert s[m] in s && |Flatten(s)| == |Flatten(rest)| + |s[m]|;
      assert n * (m + 1) == n * m + n;
    }
  }

  /** A closed group of `size` nodes pushes at most its centre and a ceiling's worth of children. */
  lemma OwnPushesBounded(t: Tree, o: Options, sort: Sorter, id: int, open: seq<Child>)
    requires o.splitFactor >= 1 && Total(open) >= 0
    ensures 1 + Total(open) < o.selectThreshold ==> OwnPushes(t, o, sort, id, open) == []
    ensures o.splitFactor * |OwnPushes(t, o, sort, id, open)| <= 2 * o.splitFactor + 1 + Total(open)
  {
    hide Centers, Prefix, SelectCount, Total;
    var n := SelectCount(1 + Total(open), o.splitFactor);
    CeilingBudget(o.splitFactor, 1 + Total(open), n, |OwnPushes(t, o, sort, id, open)|);
  }

  lemma CeilingBudget(f: nat, size: int, n: nat, own: nat)
    requires f * (n - 1) < size && own <= 1 + n
    ensures f * own <= 2 * f + size
  {
    assert f * own <= f * (1 + n);
    assert f * (1 + n) == f * (n - 1) + 2 * f;
  }

  ghost predicate WithinBudget(k: nat, pushed: nat, closed: seq<seq<int>>) {
    k * pushed <= 2 * k * |closed| + |Flatten(closed)|
  }

  lemma BoundStep(k: nat, select: int, a: seq<seq<int>>, b: seq<seq<int>>, group: seq<int>, x: nat, y: nat, z: nat)
    requires WithinBudget(k, x, a) && WithinBudget(k, y, b)
    requires k * z <= 2 * k + |group| && (|group| < select ==> z == 0)
    ensures var own := if |group| >= select then [group] else [];
            WithinBudget(k, x + y + z, a + b + own)
  {
    FlattenConcat(a, b);
    FlattenConcat(a + b, [group]);
    FlattenOne(group);
    assert a + b + [] == a + b;
    assert k * (x + y + z) == k * x + k * y + k * z;
    assert 2 * k * (|a| + |b|) == 2 * k * |a| + 2 * k * |b|;
    assert 2 * k * (|a| + |b| + 1) == 2 * k * |a| + 2 * k * |b| + 2 * k;
  }

  lemma {:induction false} PushesBounded(t: Tree, o: Options, sort: Sorter, f: Forest)
    requires o.splitFactor >= 1
    ensures WithinBudget(o.splitFactor, |Pushes(t, o, sort, f)|, Closed(f, o.selectThreshold))
  {
    match f
    case Nil =>
    case Add(rest, id, kids) =>
      var select := o.selectThreshold;
      PushesBounded(t, o, sort, rest);
      PushesBounded(t, o, sort, kids);
      LooseCounts(kids, select);
      OwnPushesBounded(t, o, sort, id, Open(kids, select));
      BoundStep(o.splitFactor, select, Closed(rest, select), Closed(kids, select), [id] + Loose(kids, select),
                |Pushes(t, o, sort, rest)|, |Pushes(t, o, sort, kids)|,
                |OwnPushes(t, o, sort, id, Open(kids, select))|);
  }

  lemma SizesAddUp(closed: seq<seq<int>>, loose: seq<int>, all: seq<int>, n: nat)
    requires AllAtLeast(closed, n)
    requires multiset(Flatten(closed)) + multiset(loose) == multiset(all)
    ensures |Flatten(closed)| <= |all|
    ensures n * |closed| + |loose| <= |all|
  {
    LargeGroupsAreFew(closed, n);
    assert |multiset(Flatten(closed)) + multiset(loose)| == |Flatten(closed)| + |loose|;
    assert |multiset(all)| == |all|;
  }

  /** The arithmetic behind `GroupConservation`. */
  lemma CombineBounds(f: nat, T: nat, N: nat, closed: nat, pushed: nat)
    requires T * closed <= N && f * pushed <= 2 * f * closed + N
    ensures f * T * pushed <= 2 * f * N + T * N
  {
    assert T * (f * pushed) <= T * (2 * f * closed + N);
    assert T * (2 * f * closed + N) == 2 * f * (T * closed) + T * N;
    assert 2 * f * (T * closed) <= 2 * f * N;
    assert T * (f * pushed) == f * T * pushed;
  }

  /** Group conservation: closed groups of at least T nodes plus a residue below T make
      up the subtree; so at most N/T groups close and at most 2N/T + N/splitFactor
      centres are pushed. */
  lemma GroupConservation(t: Tree, o: Options, sort: Sorter, id: int)
    requires WellFormed(t) && InTree(t, id) && o.splitFactor >= 1
    requires o.selectThreshold >= 1
    ensures var T, f, N := o.selectThreshold, View(t, id, id + 1), |Subtree(t, id)|;
            && multiset(Flatten(Closed(f, T))) + multiset(Loose(f, T)) == multiset(Subtree(t, id))
            && AllAtLeast(Closed(f, T), T)
            && |Loose(f, T)| == Residue(t, T, id) < T
            && T * |Closed(f, T)| + Residue(t, T, id) <= N
            && o.splitFactor * T * |PassPushes(t, o, sort, id)| <= 2 * o.splitFactor * N + T * N
  {
    var T, f, N := o.selectThreshold, View(t, id, id + 1), |Subtree(t, id)|;
    assert |Loose(f, T)| == Residue(t, T, id) by {
      LooseCounts(Children(t, id), T);
      assert View(t, id, id) == Nil && f == Add(Nil, id, Children(t, id));
      assert Loose(Nil, T) == [];
    }
    GroupsPartition(f, T);
    ClosedAreLarge(f, T);
    SizesAddUp(Closed(f, T), Loose(f, T), Subtree(t, id), T);
    PushesBounded(t, o, sort, f);
    CombineBounds(o.splitFactor, T, N, |Closed(f, T)|, |PassPushes(t, o, sort, id)|);
  }

  // ---- Exactly which centres a pass selects ----

  /** The nodes in the group of n: n itself and what its children leave open. */
  ghost function GroupSize(t: Tree, select: int, n: int): nat
    requires WellFormed(t) && InTree(t, n)
  {
    1 + |Loose(Children(t, n), select)|
  }

  /** What n leaves open for its parent: nothing when its group is large enough to close. */
  ghost function LeftOpen(t: Tree, select: int, n: int): nat
    requires WellFormed(t) && InTree(t, n)
  {
    if GroupSize(t, select, n) >= select then 0 else GroupSize(t, select, n)
  }

  ghost predicate OpenChild(t: Tree, select: int, n: int, c: int)
    requires WellFormed(t) && InTree(t, n)
  {
    IsChild(t, n, c) && LeftOpen(t, select, c) > 0
  }

  /** `pick` are as many of the largest open children of n as a split of its group selects, or all when there are fewer. */
  ghost predicate LargestOpen(t: Tree, o: Options, n: int, pick: seq<int>)
    requires WellFormed(t) && InTree(t, n) && o.splitFactor >= 1
  {
    var count := SelectCount(GroupSize(t, o.selectThreshold, n), o.splitFactor);
    && Distinct(pick) && |pick| <= count
    && (forall c :: c in pick ==> OpenChild(t, o.selectThreshold, n, c))
    && (forall c :: OpenChild(t, o.selectThreshold, n, c) && c !in pick ==> |pick| == count)
    && (forall a, c :: a in pick && OpenChild(t, o.selectThreshold, n, c) && c !in pick ==>
          LeftOpen(t, o.selectThreshold, a) >= LeftOpen(t, o.selectThreshold, c))
  }

  /** Node n selects centre x: its group closes, and x is its own centre below the root's, or the group is split and x is
      the centre of a child picked. */
  ghost predicate Selects(t: Tree, o: Options, n: int, pick: seq<int>, x: int)
    requires WellFormed(t) && InTree(t, n)
  {
    var g := GroupSize(t, o.selectThreshold, n);
    && g >= o.selectThreshold
    && (|| (x == t[n].center && t[n].center < t[0].center)
        || (g > o.splitThreshold && exists c :: c in pick && InTree(t, c) && x == t[c].center))
  }

  /** The open children of a node are those the pass collects, with what they left open. */
  lemma {:induction false} OpenAre(t: Tree, select: int, lo: int, hi: int, c: Child)
    requires WellFormed(t) && InRange(t, lo, hi)
    ensures c in Open(View(t, lo, hi), select) <==> lo <= c.id < hi && c.size == LeftOpen(t, select, c.id) > 0
    decreases hi - lo
  {
    if lo < hi {
      OpenAre(t, select, lo, hi - 1, c);
      LooseCounts(Children(t, hi - 1), select);
    }
  }

  ghost predicate IdsClimb(s: seq<Child>) {
    forall i, j :: 0 <= i < j < |s| ==> s[i].id < s[j].id
  }

  lemma {:induction false} OpenClimbs(t: Tree, select: int, lo: int, hi: int)
    requires WellFormed(t) && InRange(t, lo, hi)
    ensures IdsClimb(Open(View(t, lo, hi), select))
    decreases hi - lo
  {
    if lo < hi {
      OpenClimbs(t, select, lo, hi - 1);
      OpenInRange(t, select, lo, hi - 1);
    }
  }

  lemma TwoPlaces(s: seq<Child>, i: nat, j: nat)
    requires i < j < |s| && s[i] == s[j]
    ensures multiset(s)[s[i]] >= 2
  {
    assert s == s[..j] + s[j..];
    assert s[..j][i] == s[i] && s[j..][0] == s[j];
  }

  lemma {:induction false} OnePlace(s: seq<Child>, x: Child)
    requires IdsClimb(s)
    ensures multiset(s)[x] <= 1
  {
    if s != [] {
      var m := |s| - 1;
      OnePlace(s[..m], x);
      assert s == s[..m] + [s[m]];
      if x == s[m] { assert x !in s[..m]; }
    }
  }

  ghost function ChildIds(s: seq<Child>): (r: seq<int>)
    ensures |r| == |s| && forall i :: 0 <= i < |s| ==> r[i] == s[i].id
  {
    seq(|s|, i requires 0 <= i < |s| => s[i].id)
  }

  lemma SameIdSameChild(s: seq<Child>, a: Child, b: Child)
    requires IdsClimb(s) && a in s && b in s && a.id == b.id
    ensures a == b
  {
  }

  lemma SortKeepsIds(sort: Sorter, s: seq<Child>)
    requires SortsDescending(sort) && IdsClimb(s)
    ensures Distinct(ChildIds(sort(s)))
  {
    SortKeepsMembers(sort, s);
    var r := sort(s);
    assert multiset(r) == multiset(s);
    forall i, j | 0 <= i < j < |r| ensures r[i].id != r[j].id {
      if r[i].id == r[j].id {
        assert r[i] in r && r[j] in r;
        SameIdSameChild(s, r[i], r[j]);
        TwoPlaces(r, i, j);
        OnePlace(s, r[i]);
      }
    }
  }

  /** The children that the pass pushes at a split. */
  ghost function Picked(t: Tree, o: Options, sort: Sorter, n: int): seq<int>
    requires WellFormed(t) && InTree(t, n) && o.splitFactor >= 1
  {
    ChildIds(Prefix(sort(Open(Children(t, n), o.selectThreshold)), SelectCount(GroupSize(t, o.selectThreshold, n), o.splitFactor)))
  }

  lemma PrefixMembers(all: seq<Child>, count: nat, c: Child)
    ensures c in Prefix(all, count) ==> c in all
    ensures c in all && c !in Prefix(all, count) ==>
              |Prefix(all, count)| == count && exists j :: count <= j < |all| && all[j] == c
  {
    assert forall i :: 0 <= i < |Prefix(all, count)| ==> Prefix(all, count)[i] == all[i];
    if c in all && c !in Prefix(all, count) {
      var j :| 0 <= j < |all| && all[j] == c;
    }
  }

  lemma PrefixLargest(all: seq<Child>, count: nat, a: Child, c: Child)
    requires Descending(all) && a in Prefix(all, count) && c in all && c !in Prefix(all, count)
    ensures a.size >= c.size
  {
    PrefixMembers(all, count, c);
    var j :| count <= j < |all| && all[j] == c;
    var i :| 0 <= i < |Prefix(all, count)| && Prefix(all, count)[i] == a;
    assert all[i] == a;
  }

  ghost predicate Collected(t: Tree, select: int, n: int, all: seq<Child>)
    requires WellFormed(t) && InTree(t, n)
  {
    && (forall c :: c in all ==> OpenChild(t, select, n, c.id) && c.size == LeftOpen(t, select, c.id))
    && (forall c :: OpenChild(t, select, n, c) ==> Child(c, LeftOpen(t, select, c)) in all)
  }

  lemma SortedAreCollected(t: Tree, select: int, sort: Sorter, n: int)
    requires WellFormed(t) && InTree(t, n) && SortsDescending(sort)
    ensures Collected(t, select, n, sort(Open(Children(t, n), select)))
  {
    hide Open, LeftOpen, SortsDescending;
    SortKeepsMembers(sort, Open(Children(t, n), select));
    var all := sort(Open(Children(t, n), select));
    forall c | c in all ensures OpenChild(t, select, n, c.id) && c.size == LeftOpen(t, select, c.id) {
      OpenAre(t, select, First(t, n), Last(t, n), c);
    }
    forall c | OpenChild(t, select, n, c) ensures Child(c, LeftOpen(t, select, c)) in all {
      OpenAre(t, select, First(t, n), Last(t, n), Child(c, LeftOpen(t, select, c)));
    }
  }

  /** Exactly the largest ones. */
  lemma PickedAreLargest(t: Tree, o: Options, sort: Sorter, n: int)
    requires WellFormed(t) && InTree(t, n) && o.splitFactor >= 1 && SortsDescending(sort)
    ensures LargestOpen(t, o, n, Picked(t, o, sort, n))
  {
    var select := o.selectThreshold;
    var open := Open(Children(t, n), select);
    var all := sort(open);
    var count := SelectCount(GroupSize(t, select, n), o.splitFactor);
    assert Descending(all);
    OpenClimbs(t, select, First(t, n), Last(t, n));
    SortKeepsIds(sort, open);
    SortedAreCollected(t, select, sort, n);
    hide Open, LeftOpen, OpenChild, GroupSize, SelectCount, SortsDescending, View, Descending;
    PickLargest(t, o, n, all, count);
  }

  lemma PickLargest(t: Tree, o: Options, n: int, all: seq<Child>, count: nat)
    requires WellFormed(t) && InTree(t, n) && o.splitFactor >= 1
    requires count == SelectCount(GroupSize(t, o.selectThreshold, n), o.splitFactor)
    requires Descending(all) && Distinct(ChildIds(all)) && Collected(t, o.selectThreshold, n, all)
    ensures LargestOpen(t, o, n, ChildIds(Prefix(all, count)))
  {
    hide LeftOpen, GroupSize, SelectCount, Descending, Prefix;
    var select, first := o.selectThreshold, Prefix(all, count);
    var pick := ChildIds(first);
    PickedDistinct(all, count);
    forall c | c in pick ensures OpenChild(t, select, n, c) && Child(c, LeftOpen(t, select, c)) in first {
      var i :| 0 <= i < |pick| && pick[i] == c;
      assert first[i] in first;
      PrefixMembers(all, count, first[i]);
    }
    forall c | OpenChild(t, select, n, c) && c !in pick
      ensures |pick| == count && Child(c, LeftOpen(t, select, c)) in all && Child(c, LeftOpen(t, select, c)) !in first
    {
      var child := Child(c, LeftOpen(t, select, c));
      IdsHave(first, child);
      PrefixMembers(all, count, child);
    }
    forall a, c | a in pick && OpenChild(t, select, n, c) && c !in pick
      ensures LeftOpen(t, select, a) >= LeftOpen(t, select, c)
    {
      PrefixLargest(all, count, Child(a, LeftOpen(t, select, a)), Child(c, LeftOpen(t, select, c)));
    }
  }

  lemma IdsHave(s: seq<Child>, c: Child)
    ensures c in s ==> c.id in ChildIds(s)
  {
    if c in s {
      var i :| 0 <= i < |s| && s[i] == c;
      assert ChildIds(s)[i] == c.id;
    }
  }

  lemma PickedDistinct(all: seq<Child>, count: nat)
    requires Distinct(ChildIds(all))
    ensures Distinct(ChildIds(Prefix(all, count)))
  {
    var r := ChildIds(Prefix(all, count));
    forall i, j | 0 <= i < j < |r| ensures r[i] != r[j] {
      assert r[i] == ChildIds(all)[i] && r[j] == ChildIds(all)[j];
    }
  }

  /** What a node pushes for itself is what it selects. */
  lemma OwnSelects(t: Tree, o: Options, sort: Sorter, n: int, x: int)
    requires WellFormed(t) && InTree(t, n) && o.splitFactor >= 1 && SortsDescending(sort)
    ensures x in OwnPushes(t, o, sort, n, Open(Children(t, n), o.selectThreshold))
       <==> Selects(t, o, n, Picked(t, o, sort, n), x)
  {
    hide Open, Loose, View, SelectCount, SortsDescending, LeftOpen, Prefix, Total;
    var open, g := Open(Children(t, n), o.selectThreshold), GroupSize(t, o.selectThreshold, n);
    LooseCounts(Children(t, n), o.selectThreshold);
    var first := Prefix(sort(open), SelectCount(g, o.splitFactor));
    PickedAreLargest(t, o, sort, n);
    CentersOfIds(t, first, x);
  }

  lemma CentersOfIds(t: Tree, s: seq<Child>, x: int)
    requires forall c :: c in ChildIds(s) ==> InTree(t, c)
    ensures x in Centers(t, s) <==> exists c :: c in ChildIds(s) && InTree(t, c) && x == t[c].center
  {
    if x in Centers(t, s) {
      var i :| 0 <= i < |s| && Centers(t, s)[i] == x;
      assert ChildIds(s)[i] in ChildIds(s);
    }
    if c :| c in ChildIds(s) && InTree(t, c) && x == t[c].center {
      var i :| 0 <= i < |s| && ChildIds(s)[i] == c;
      assert Centers(t, s)[i] == x;
    }
  }

  lemma {:induction false} PushedByNode(t: Tree, o: Options, sort: Sorter, lo: int, hi: int, x: int)
    requires WellFormed(t) && InRange(t, lo, hi) && o.splitFactor >= 1
    ensures x in Pushes(t, o, sort, View(t, lo, hi))
       <==> exists n :: n in Nodes(View(t, lo, hi)) && InTree(t, n)
                        && x in OwnPushes(t, o, sort, n, Open(Children(t, n), o.selectThreshold))
    decreases |t| - lo, hi - lo
  {
    hide OwnPushes, Open;
    if lo < hi {
      PushedByNode(t, o, sort, lo, hi - 1, x);
      PushedByNode(t, o, sort, First(t, hi - 1), Last(t, hi - 1), x);
    }
  }

  /** The selection stated on nodes: a pass over the subtree of id selects a centre exactly when some node of the subtree
      does, where the children picked at a split are the largest open ones. */
  lemma SelectedExactly(t: Tree, o: Options, sort: Sorter, id: int) returns (pick: seq<seq<int>>)
    requires WellFormed(t) && InTree(t, id) && o.splitFactor >= 1 && SortsDescending(sort)
    ensures |pick| == |t| && forall n :: 0 <= n < |t| ==> LargestOpen(t, o, n, pick[n])
    ensures forall x :: x in PassPushes(t, o, sort, id)
              <==> exists n :: n in Subtree(t, id) && 0 <= n < |t| && Selects(t, o, n, pick[n], x)
  {
    hide OwnPushes, Open, LargestOpen, Selects, Picked, Pushes, View, SortsDescending;
    pick := seq(|t|, n requires 0 <= n < |t| => Picked(t, o, sort, n));
    forall n | 0 <= n < |t| ensures LargestOpen(t, o, n, pick[n]) {
      PickedAreLargest(t, o, sort, n);
    }
    forall x ensures x in PassPushes(t, o, sort, id)
                <==> exists n :: n in Subtree(t, id) && 0 <= n < |t| && Selects(t, o, n, pick[n], x)
    {
      PushedByNode(t, o, sort, id, id + 1, x);
      forall n | 0 <= n < |t|
        ensures x in OwnPushes(t, o, sort, n, Open(Children(t, n), o.selectThreshold)) <==> Selects(t, o, n, pick[n], x)
      {
        OwnSelects(t, o, sort, n, x);
      }
    }
  }
}
