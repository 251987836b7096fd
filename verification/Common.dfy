/** Vocabulary shared by the modules. */
module Common {

  datatype Option<T> = None | Some(value: T)

  /** The edge that assignment sorts and pruning stores; pruning leaves `tonode` alone. */
  datatype Edge = Edge(node: int, distance: real, tonode: int)

  type Byte = x: nat | x < 256

  type Bytes = seq<Byte>

  /** The number of values of a 32-bit and of a 64-bit word. */
  const WORD: nat := 0x1_0000_0000
  const LONG: nat := 0x1_0000_0000_0000_0000

  function Min(a: int, b: int): int {
    if a < b then a else b
  }

  function Max(a: int, b: int): int {
    if a > b then a else b
  }

  ghost predicate Distinct<T>(s: seq<T>) {
    forall i, j :: 0 <= i < j < |s| ==> s[i] != s[j]
  }

  ghost function Elements<T>(s: seq<T>): set<T> {
    set x | x in s
  }

  /** How many elements satisfy `p`. */
  ghost function Count<T>(s: seq<T>, p: T -> bool): nat {
    if s == [] then 0 else Count(s[..|s| - 1], p) + if p(s[|s| - 1]) then 1 else 0
  }

  lemma {:induction false} CountUpdate<T>(s: seq<T>, i: nat, x: T, p: T -> bool)
    requires i < |s|
    ensures Count(s[i := x], p) == Count(s, p) - (if p(s[i]) then 1 else 0) + (if p(x) then 1 else 0)
  {
    var n := |s| - 1;
    if i < n {
      CountUpdate(s[..n], i, x, p);
      assert s[i := x][..n] == s[..n][i := x];
    } else {
      assert s[i := x][..n] == s[..n];
    }
  }

  lemma CountAppend<T>(s: seq<T>, x: T, p: T -> bool)
    ensures Count(s + [x], p) == Count(s, p) + if p(x) then 1 else 0
  {
    assert (s + [x])[..|s|] == s;
  }

  lemma {:induction false} CountConcat<T>(a: seq<T>, b: seq<T>, p: T -> bool)
    ensures Count(a + b, p) == Count(a, p) + Count(b, p)
  {
    if b == [] {
      assert a + b == a;
    } else {
      var n := |b| - 1;
      CountConcat(a, b[..n], p);
      assert (a + b)[..|a + b| - 1] == a + b[..n];
    }
  }

  lemma {:induction false} CountBounds<T>(s: seq<T>, p: T -> bool)
    ensures Count(s, p) <= |s|
    ensures Count(s, p) == |s| <==> forall i :: 0 <= i < |s| ==> p(s[i])
    ensures Count(s, p) == 0 <==> forall i :: 0 <= i < |s| ==> !p(s[i])
  {
    if s != [] {
      var n := |s| - 1;
      CountBounds(s[..n], p);
      assert forall i :: 0 <= i < n ==> s[..n][i] == s[i];
      assert (forall i :: 0 <= i < |s| ==> p(s[i])) <==> (forall i :: 0 <= i < n ==> p(s[..n][i])) && p(s[n]);
      assert (forall i :: 0 <= i < |s| ==> !p(s[i])) <==> (forall i :: 0 <= i < n ==> !p(s[..n][i])) && !p(s[n]);
    }
  }

  lemma {:induction false} CountMonotone<T>(s: seq<T>, p: T -> bool, q: T -> bool)
    requires forall i :: 0 <= i < |s| && p(s[i]) ==> q(s[i])
    ensures Count(s, p) <= Count(s, q)
  {
    if s != [] {
      CountMonotone(s[..|s| - 1], p, q);
    }
  }

  /** The sum of `f` over a sequence. */
  ghost function SumBy<T>(s: seq<T>, f: T -> nat): nat {
    if s == [] then 0 else SumBy(s[..|s| - 1], f) + f(s[|s| - 1])
  }

  lemma {:induction false} SumByUpdate<T>(s: seq<T>, i: nat, x: T, f: T -> nat)
    requires i < |s|
    ensures SumBy(s[i := x], f) == SumBy(s, f) - f(s[i]) + f(x)
  {
    var n := |s| - 1;
    if i < n {
      SumByUpdate(s[..n], i, x, f);
      assert s[i := x][..n] == s[..n][i := x];
    } else {
      assert s[i := x][..n] == s[..n];
    }
  }
}
