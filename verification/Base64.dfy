/** The Base64 codec of Base64Encode.cpp (section 4 of RFC 4648).  Bytes and characters are numbers below 256.  The
    methods shift and mask as the code does; the specification divides and adds. */
module Base64 {
  import opened Common
  import opened Bits

  // ---- The tables ----

  const PAD: Byte := 61

  function Symbol(v: nat): (c: Byte)
    requires v < 64
  {
    if v < 26 then 65 + v          // A-Z
    else if v < 52 then 97 + v - 26  // a-z
    else if v < 62 then 48 + v - 52  // 0-9
    else if v == 62 then 43          // +
    else 47                          // /
  }

  /** 64 for a character outside the alphabet. */
  function Value(c: Byte): (v: nat)
    ensures v <= 64
  {
    if 65 <= c <= 90 then c - 65
    else if 97 <= c <= 122 then c - 97 + 26
    else if 48 <= c <= 57 then c - 48 + 52
    else if c == 43 then 62
    else if c == 47 then 63
    else 64
  }

  lemma TablesInvert(v: nat, c: Byte)
    ensures v < 64 ==> Value(Symbol(v)) == v && Symbol(v) != PAD
    ensures Value(c) < 64 ==> Symbol(Value(c)) == c
    ensures Value(PAD) == 64
  {
  }

  // ---- Encoding ----

  function Quad3(a: Byte, b: Byte, c: Byte): (q: seq<Byte>)
    ensures |q| == 4
  {
    [Symbol(a / 4), Symbol((a % 4) * 16 + b / 16), Symbol((b % 16) * 4 + c / 64), Symbol(c % 64)]
  }

  function Quad2(a: Byte, b: Byte): (q: seq<Byte>)
    ensures |q| == 4
  {
    [Symbol(a / 4), Symbol((a % 4) * 16 + b / 16), Symbol((b % 16) * 4), PAD]
  }

  function Quad1(a: Byte): (q: seq<Byte>)
    ensures |q| == 4
  {
    [Symbol(a / 4), Symbol((a % 4) * 16), PAD, PAD]
  }

  function Encoded(s: seq<Byte>): seq<Byte> {
    if |s| == 0 then []
    else if |s| == 1 then Quad1(s[0])
    else if |s| == 2 then Quad2(s[0], s[1])
    else Quad3(s[0], s[1], s[2]) + Encoded(s[3..])
  }

  function CapacityForEncode(n: nat): nat { ((n + 2) / 3) * 4 }

  function CapacityForDecode(n: nat): nat { (n / 4) * 3 + ((n % 4) * 2) / 3 }

  lemma {:induction false} EncodedSize(s: seq<Byte>)
    ensures |Encoded(s)| == CapacityForEncode(|s|)
  {
    if |s| >= 3 { EncodedSize(s[3..]); }
  }

  // ---- Shifts and masks ----

  lemma Masks(a: nat)
    ensures And(a, 0x3f) == a % 64 && And(a, 0x0f) == a % 16 && And(a, 0x03) == a % 4
  {
    hide And;
    Powers();
    MaskIsRemainder(a, 6);
    MaskIsRemainder(a, 4);
    MaskIsRemainder(a, 2);
  }

  lemma Powers()
    ensures Pow2(2) == 4 && Pow2(4) == 16 && Pow2(6) == 64
  {
    assert Pow2(3) == 8 && Pow2(5) == 32;
  }

  lemma Shifts(a: nat)
    ensures Shr(a, 2) == a / 4 && Shr(a, 4) == a / 16 && Shr(a, 6) == a / 64
    ensures Shl(a, 2) == a * 4 && Shl(a, 4) == a * 16 && Shl(a, 6) == a * 64
  {
    hide Shr, Shl;
    Powers();
    ShiftIsQuotient(a, 2);
    ShiftIsQuotient(a, 4);
    ShiftIsQuotient(a, 6);
    ShiftIsProduct(a, 2);
    ShiftIsProduct(a, 4);
    ShiftIsProduct(a, 6);
  }

  /** The high bits of a byte. */
  lemma HighMasks(b: Byte)
    ensures Shr(And(b, 0xf0), 4) == b / 16 && Shr(And(b, 0xc0), 6) == b / 64
  {
    hide Shr, Shl, And;
    Shifts(15);
    Shifts(3);
    Shifts(b);
    MaskShifted(b, 15, 4);
    MaskShifted(b, 3, 6);
    Masks(b / 16);
    Masks(b / 64);
    Shifts(b / 16);
    Shifts(b / 64);
    Shifts(b / 16 * 16);
    Shifts(b / 64 * 64);
  }

  lemma Joins(x: nat, y: nat)
    ensures y < 4 ==> Or(Shl(x, 2), y) == x * 4 + y
    ensures y < 16 ==> Or(Shl(x, 4), y) == x * 16 + y
    ensures y < 64 ==> Or(Shl(x, 6), y) == x * 64 + y
  {
    hide Shl, Or;
    Powers();
    Shifts(x);
    if y < 4 { OrIsSum(x, y, 2); }
    if y < 16 { OrIsSum(x, y, 4); }
    if y < 64 { OrIsSum(x, y, 6); }
  }

  /** The second symbol: two bits of one byte, four of the next. */
  function SecondBits(a: Byte, b: Byte): (v: nat)
    ensures v == (a % 4) * 16 + b / 16
  {
    Masks(a);
    HighMasks(b);
    Joins(a % 4, b / 16);
    Or(Shl(And(a, 0x03), 4), Shr(And(b, 0xf0), 4))
  }

  /** The third symbol: four bits of one byte, two of the next. */
  function ThirdBits(b: Byte, c: Byte): (v: nat)
    ensures v == (b % 16) * 4 + c / 64
  {
    Masks(b);
    HighMasks(c);
    Joins(b % 16, c / 64);
    Or(Shl(And(b, 0x0f), 2), Shr(And(c, 0xc0), 6))
  }

  method EncodeThree(a: Byte, b: Byte, c: Byte) returns (q: seq<Byte>)
    ensures q == Quad3(a, b, c)
  {
    hide Shr, And, Symbol, SecondBits, ThirdBits;
    Shifts(a);
    Masks(c);
    q := [Symbol(Shr(a, 2)), Symbol(SecondBits(a, b)), Symbol(ThirdBits(b, c)), Symbol(And(c, 0x3f))];
  }

  method EncodeTwo(a: Byte, b: Byte) returns (q: seq<Byte>)
    ensures q == Quad2(a, b)
  {
    hide Shr, Shl, And, Symbol, SecondBits;
    Shifts(a);
    Masks(b);
    Shifts(b % 16);
    q := [Symbol(Shr(a, 2)), Symbol(SecondBits(a, b)), Symbol(Shl(And(b, 0x0f), 2)), PAD];
  }

  method EncodeOne(a: Byte) returns (q: seq<Byte>)
    ensures q == Quad1(a)
  {
    hide Shr, Shl, And, Symbol;
    Shifts(a);
    Masks(a);
    Shifts(a % 4);
    q := [Symbol(Shr(a, 2)), Symbol(Shl(And(a, 0x03), 4)), PAD, PAD];
  }

  /** A byte put together from two symbols, cut to eight bits. */
  function JoinBits(u: nat, left: nat, v: nat, right: nat): Byte {
    Or(Shl(u, left), Shr(v, right)) % 256
  }

  lemma JoinBitsAre(u0: nat, u1: nat, u2: nat, u3: nat)
    ensures u0 < 64 && u1 < 64 ==> JoinBits(u0, 2, u1, 4) == Join0(u0, u1)
    ensures u1 < 64 && u2 < 64 ==> JoinBits(u1, 4, u2, 2) == Join1(u1, u2)
    ensures u2 < 64 && u3 < 64 ==> JoinBits(u2, 6, u3, 0) == Join2(u2, u3)
  {
    hide Shr, Shl, Or;
    Shifts(u1);
    Shifts(u2);
    assert Shr(u3, 0) == u3 by { NoShift(u3); }
    Joins(u0, u1 / 16);
    Joins(u1, u2 / 4);
    Joins(u2, u3);
    if u2 < 64 { SumBelow16(u1, u2 / 4); }
    if u3 < 64 { SumBelow64(u2, u3); }
  }

  lemma NoShift(x: nat)
    ensures Shr(x, 0) == x
  {
  }

  lemma SumBelow16(k: nat, y: nat)
    requires y < 16
    ensures (k * 16 + y) % 256 == (k * 16) % 256 + y
  {
    var q, r := k / 16, k % 16;
    assert k * 16 == 256 * q + 16 * r && 16 * r + y < 256;
  }

  lemma SumBelow64(k: nat, y: nat)
    requires y < 64
    ensures (k * 64 + y) % 256 == (k * 64) % 256 + y
  {
    var q, r := k / 4, k % 4;
    assert k * 64 == 256 * q + 64 * r && 64 * r + y < 256;
  }

  /** Encoding into a buffer. */
  method Encode(input: seq<Byte>, out: array<Byte>) returns (outLen: nat)
    requires out.Length >= CapacityForEncode(|input|)
    modifies out
    ensures outLen == CapacityForEncode(|input|) && out[..outLen] == Encoded(input)
    ensures out[outLen..] == old(out[outLen..])
  {
    EncodedSize(input);
    hide Symbol, Quad1, Quad2, Quad3, CapacityForEncode, Encoded;
    outLen := 0;
    var i := 0;
    assert input[0..] == input && out[..0] == [];
    while |input| - i >= 3
      invariant i <= |input| && outLen + |Encoded(input[i..])| == |Encoded(input)|
      invariant out[..outLen] + Encoded(input[i..]) == Encoded(input)
      invariant out[outLen..] == old(out[outLen..])
    {
      ghost var before := out[..outLen];
      EncodedFrom(input, i);
      var q := EncodeThree(input[i], input[i + 1], input[i + 2]);
      PutQuad(q, out, outLen);
      i := i + 3;
      outLen := outLen + 4;
      assert out[..outLen] == before + q;
    }
    EncodedTail(input, i);
    if |input| - i == 1 {
      var q := EncodeOne(input[i]);
      outLen := PutLast(q, out, outLen);
    } else if |input| - i == 2 {
      var q := EncodeTwo(input[i], input[i + 1]);
      outLen := PutLast(q, out, outLen);
    }
  }

  lemma EncodedFrom(input: seq<Byte>, i: nat)
    requires i + 3 <= |input|
    ensures Encoded(input[i..]) == Quad3(input[i], input[i + 1], input[i + 2]) + Encoded(input[i + 3..])
  {
    assert input[i..][3..] == input[i + 3..];
  }

  lemma EncodedTail(input: seq<Byte>, i: nat)
    requires |input| - 3 < i <= |input|
    ensures Encoded(input[i..])
         == if |input| - i == 0 then [] else if |input| - i == 1 then Quad1(input[i]) else Quad2(input[i], input[i + 1])
  {
  }

  method PutLast(q: seq<Byte>, out: array<Byte>, at: nat) returns (outLen: nat)
    requires |q| == 4 && at + 4 <= out.Length
    modifies out
    ensures outLen == at + 4 && out[..outLen] == old(out[..at]) + q && out[outLen..] == old(out[outLen..])
  {
    PutQuad(q, out, at);
    outLen := at + 4;
  }

  /** Four characters at the write position. */
  method PutQuad(q: seq<Byte>, out: array<Byte>, at: nat)
    requires |q| == 4 && at + 4 <= out.Length
    modifies out
    ensures out[..at] == old(out[..at]) && out[at..at + 4] == q && out[at + 4..] == old(out[at + 4..])
  {
    out[at] := q[0];
    out[at + 1] := q[1];
    out[at + 2] := q[2];
    out[at + 3] := q[3];
  }

  class Stream {
    var data: seq<Byte>

    constructor ()
      ensures data == []
    {
      data := [];
    }
  }

  /** Encoding onto a stream. */
  method EncodeStream(input: seq<Byte>, out: Stream) returns (outLen: nat)
    modifies out
    ensures out.data == old(out.data) + Encoded(input) && outLen == CapacityForEncode(|input|)
  {
    hide Symbol, Quad1, Quad2, Quad3;
    outLen := 0;
    var i := 0;
    EncodedSize(input);
    while |input| - i >= 3
      invariant i <= |input| && outLen + |Encoded(input[i..])| == |Encoded(input)|
      invariant out.data + Encoded(input[i..]) == old(out.data) + Encoded(input)
    {
      assert input[i..][3..] == input[i + 3..];
      ghost var before := out.data;
      var q := EncodeThree(input[i], input[i + 1], input[i + 2]);
      out.data := out.data + q;
      assert before + (q + Encoded(input[i + 3..])) == out.data + Encoded(input[i + 3..]);
      i := i + 3;
      outLen := outLen + 4;
    }
    if |input| - i == 1 {
      var q := EncodeOne(input[i]);
      out.data := out.data + q;
      outLen := outLen + 4;
    } else if |input| - i == 2 {
      var q := EncodeTwo(input[i], input[i + 1]);
      out.data := out.data + q;
      outLen := outLen + 4;
    }
  }

  // ---- Decoding ----

  function Join0(u0: nat, u1: nat): Byte
    requires u0 < 64 && u1 < 64
  {
    u0 * 4 + u1 / 16
  }

  function Join1(u1: nat, u2: nat): Byte
    requires u1 < 64 && u2 < 64
  {
    (u1 * 16) % 256 + u2 / 4
  }

  function Join2(u2: nat, u3: nat): Byte
    requires u2 < 64 && u3 < 64
  {
    (u2 * 64) % 256 + u3
  }

  predicate AllSymbols(e: seq<Byte>) {
    forall k :: 0 <= k < |e| ==> Value(e[k]) < 64
  }

  /** Three bytes of a quad of symbols. */
  function Triple(e: seq<Byte>): (s: seq<Byte>)
    requires |e| == 4 && AllSymbols(e)
    ensures |s| == 3
  {
    [Join0(Value(e[0]), Value(e[1])), Join1(Value(e[1]), Value(e[2])), Join2(Value(e[2]), Value(e[3]))]
  }

  /** The last quad, which may be padded.  With one pad the code looks for stray bits in the pad's own table entry
      (line 200), where there are none, instead of the symbol before it. */
  function Last(e: seq<Byte>): Option<seq<Byte>>
    requires |e| == 4
  {
    var u0, u1, u2, u3 := Value(e[0]), Value(e[1]), Value(e[2]), Value(e[3]);
    if u0 > 63 || u1 > 63 || (e[2] == PAD && e[3] != PAD) then None
    else if u2 > 63 && e[2] != PAD then None
    else if u3 > 63 && e[3] != PAD then None
    else if e[2] == PAD then
      if u1 % 16 != 0 then None else Some([Join0(u0, u1)])
    else if e[3] == PAD then
      if u3 % 4 != 0 then None else Some([Join0(u0, u1), Join1(u1, u2)])
    else Some(Triple(e))
  }

  /** None when the code returns false. */
  function Decoded(e: seq<Byte>): Option<seq<Byte>>
    requires e != []
    decreases |e|
  {
    if |e| % 4 != 0 then None
    else if |e| == 4 then Last(e)
    else if !AllSymbols(e[..4]) then None
    else
      var rest := Decoded(e[4..]);
      if rest.None? then None else Some(Triple(e[..4]) + rest.value)
  }

  // ---- What is accepted ----

  predicate OnePad(e: seq<Byte>) {
    |e| >= 4 && e[|e| - 1] == PAD && e[|e| - 2] != PAD
  }

  predicate TwoPads(e: seq<Byte>) {
    |e| >= 4 && e[|e| - 1] == PAD && e[|e| - 2] == PAD
  }

  function Pads(e: seq<Byte>): (n: nat)
    ensures n <= 2
  {
    if TwoPads(e) then 2 else if OnePad(e) then 1 else 0
  }

  /** The accepted texts: whole quads, symbols up to at most two final pads, and with two pads no stray bits. */
  predicate Acceptable(e: seq<Byte>) {
    |e| % 4 == 0 && |e| >= 4 && AllSymbols(e[..|e| - Pads(e)])
    && (TwoPads(e) ==> Value(e[|e| - 3]) % 16 == 0)
  }

  lemma LastAccepts(e: seq<Byte>)
    requires |e| == 4
    ensures Last(e).Some? <==> Acceptable(e)
    ensures Last(e).Some? ==> |Last(e).value| == 3 - Pads(e)
  {
    assert Value(PAD) == 64;
    var p := e[..4 - Pads(e)];
    assert AllSymbols(p) ==> Value(p[0]) < 64 && Value(p[1]) < 64;
    assert Pads(e) < 2 && AllSymbols(p) ==> Value(p[2]) < 64;
    assert Pads(e) < 1 && AllSymbols(p) ==> Value(p[3]) < 64;
  }

  lemma AcceptableTail(e: seq<Byte>)
    requires |e| > 4 && |e| % 4 == 0
    ensures Acceptable(e) <==> AllSymbols(e[..4]) && Acceptable(e[4..])
    ensures Pads(e[4..]) == Pads(e)
  {
    var t, n := e[4..], |e| - Pads(e);
    assert t[|t| - 1] == e[|e| - 1] && t[|t| - 2] == e[|e| - 2] && t[|t| - 3] == e[|e| - 3];
    assert Pads(t) == Pads(e);
    SliceSplit(e, n);
    SymbolsSplit(e[..4], t[..n - 4]);
  }

  lemma SliceSplit(e: seq<Byte>, n: nat)
    requires 4 <= n <= |e|
    ensures e[..n] == e[..4] + e[4..][..n - 4]
  {
  }

  lemma SymbolsSplit(a: seq<Byte>, b: seq<Byte>)
    ensures AllSymbols(a + b) <==> AllSymbols(a) && AllSymbols(b)
  {
    if AllSymbols(a + b) {
      forall k | 0 <= k < |a| ensures Value(a[k]) < 64 { assert (a + b)[k] == a[k]; }
      forall k | 0 <= k < |b| ensures Value(b[k]) < 64 { assert (a + b)[|a| + k] == b[k]; }
    }
  }

  lemma {:induction false} DecodedAccepts(e: seq<Byte>)
    requires e != []
    ensures Decoded(e).Some? <==> Acceptable(e)
    ensures Decoded(e).Some? ==> |Decoded(e).value| == CapacityForDecode(|e|) - Pads(e)
    decreases |e|
  {
    hide AllSymbols, Acceptable, Pads, Value, Last, Triple;
    if |e| == 4 {
      LastAccepts(e);
    } else if |e| % 4 == 0 {
      DecodedAccepts(e[4..]);
      AcceptableTail(e);
    } else {
      NotWhole(e);
    }
  }

  lemma NotWhole(e: seq<Byte>)
    requires |e| % 4 != 0
    ensures !Acceptable(e)
  {
  }

  // ---- What a quad says ----

  /** A quad spells its bytes' number in base 64; a padded one has two or four zero bits after it. */
  lemma QuadsSpellNumbers(a: Byte, b: Byte, c: Byte)
    ensures var q := Quad3(a, b, c);
      ((Value(q[0]) * 64 + Value(q[1])) * 64 + Value(q[2])) * 64 + Value(q[3]) == (a * 256 + b) * 256 + c
    ensures var q := Quad2(a, b); (Value(q[0]) * 64 + Value(q[1])) * 64 + Value(q[2]) == (a * 256 + b) * 4
    ensures var q := Quad1(a); Value(q[0]) * 64 + Value(q[1]) == a * 16
  {
    TablesInvert(a / 4, 0);
    TablesInvert((a % 4) * 16 + b / 16, 0);
    TablesInvert((b % 16) * 4 + c / 64, 0);
    TablesInvert((b % 16) * 4, 0);
    TablesInvert((a % 4) * 16, 0);
    TablesInvert(c % 64, 0);
    hide Symbol, Value;
  }

  // ---- Round trips ----

  /** Joining the parts a byte was split into gives the byte. */
  lemma SplitsJoin(a: Byte, b: Byte, c: Byte)
    ensures Join0(a / 4, (a % 4) * 16 + b / 16) == a
    ensures Join1((a % 4) * 16 + b / 16, (b % 16) * 4 + c / 64) == b
    ensures Join2((b % 16) * 4 + c / 64, c % 64) == c
  {
    var v1, v2 := (a % 4) * 16 + b / 16, (b % 16) * 4 + c / 64;
    assert v1 / 16 == a % 4 && v1 % 16 == b / 16 && v2 / 4 == b % 16 && v2 % 4 == c / 64;
    assert (v1 * 16) % 256 == (v1 % 16) * 16;
    assert (v2 * 64) % 256 == (v2 % 4) * 64;
  }

  lemma TripleOfQuad(a: Byte, b: Byte, c: Byte)
    ensures AllSymbols(Quad3(a, b, c)) && Triple(Quad3(a, b, c)) == [a, b, c]
  {
    var v0, v1, v2, v3 := a / 4, (a % 4) * 16 + b / 16, (b % 16) * 4 + c / 64, c % 64;
    TablesInvert(v0, 0);
    TablesInvert(v1, 0);
    TablesInvert(v2, 0);
    TablesInvert(v3, 0);
    hide Symbol, Value, Join0, Join1, Join2;
    SplitsJoin(a, b, c);
  }

  lemma LastOfQuad1(a: Byte)
    ensures Last(Quad1(a)) == Some([a])
  {
    TablesInvert(a / 4, PAD);
    TablesInvert((a % 4) * 16, PAD);
    SplitsJoin(a, 0, 0);
    hide Symbol, Value, Triple, Join0, Join1;
  }

  lemma LastOfQuad2(a: Byte, b: Byte)
    ensures Last(Quad2(a, b)) == Some([a, b])
  {
    TablesInvert(a / 4, PAD);
    TablesInvert((a % 4) * 16 + b / 16, PAD);
    TablesInvert((b % 16) * 4, PAD);
    SplitsJoin(a, b, 0);
    hide Symbol, Value, Triple, Join0, Join1;
  }

  lemma LastOfQuad3(a: Byte, b: Byte, c: Byte)
    ensures Last(Quad3(a, b, c)) == Some([a, b, c])
  {
    TripleOfQuad(a, b, c);
    var q := Quad3(a, b, c);
    hide Symbol, Triple, Join0, Join1, Join2, Quad3;
    assert forall k :: 0 <= k < 4 ==> Value(q[k]) < 64;
    assert Value(PAD) == 64;
  }

  /** Decoding undoes encoding. */
  lemma {:induction false} DecodeEncode(s: seq<Byte>)
    requires s != []
    ensures Encoded(s) != [] && Decoded(Encoded(s)) == Some(s)
  {
    hide Last, Triple, Quad1, Quad2, Quad3, AllSymbols;
    EncodedSize(s);
    if |s| <= 3 {
      if |s| == 1 {
        LastOfQuad1(s[0]);
        assert s == [s[0]];
      } else if |s| == 2 {
        LastOfQuad2(s[0], s[1]);
        assert s == [s[0], s[1]];
      } else {
        LastOfQuad3(s[0], s[1], s[2]);
        assert s == [s[0], s[1], s[2]] && Encoded(s) == Quad3(s[0], s[1], s[2]);
      }
    } else {
      var q, rest := Quad3(s[0], s[1], s[2]), s[3..];
      EncodedSize(rest);
      DecodeEncode(rest);
      TripleOfQuad(s[0], s[1], s[2]);
      assert Encoded(s)[..4] == q && Encoded(s)[4..] == Encoded(rest);
      assert [s[0], s[1], s[2]] + rest == s;
    }
  }

  /** The text with the unused bits before a single pad cleared. */
  function Canonical(e: seq<Byte>): (r: seq<Byte>)
    requires Acceptable(e)
    ensures |r| == |e|
  {
    if OnePad(e)
    then
      assert e[|e| - 2] == e[..|e| - 1][|e| - 2];
      e[|e| - 2 := Symbol(Value(e[|e| - 2]) / 4 * 4)]
    else e
  }

  /** Each joined byte splits back into the bits it was joined from. */
  lemma JoinsSplit(u0: nat, u1: nat, u2: nat, u3: nat)
    requires u0 < 64 && u1 < 64 && u2 < 64 && u3 < 64
    ensures Join0(u0, u1) / 4 == u0 && Join0(u0, u1) % 4 == u1 / 16
    ensures Join1(u1, u2) / 16 == u1 % 16 && Join1(u1, u2) % 16 == u2 / 4
    ensures Join2(u2, u3) / 64 == u2 % 4 && Join2(u2, u3) % 64 == u3
  {
    assert (u1 * 16) % 256 == (u1 % 16) * 16 && (u2 * 64) % 256 == (u2 % 4) * 64;
  }

  lemma QuadOfTriple(e: seq<Byte>)
    requires |e| == 4 && AllSymbols(e)
    ensures Quad3(Triple(e)[0], Triple(e)[1], Triple(e)[2]) == e
  {
    var u0, u1, u2, u3 := Value(e[0]), Value(e[1]), Value(e[2]), Value(e[3]);
    TablesInvert(0, e[0]);
    TablesInvert(0, e[1]);
    TablesInvert(0, e[2]);
    TablesInvert(0, e[3]);
    hide Symbol, Value, Join0, Join1, Join2;
    JoinsSplit(u0, u1, u2, u3);
  }

  lemma QuadOfPadded(e: seq<Byte>)
    requires |e| == 4 && Acceptable(e) && Pads(e) > 0
    ensures Last(e).Some? && Encoded(Last(e).value) == Canonical(e)
  {
    LastAccepts(e);
    var u0, u1 := Value(e[0]), Value(e[1]);
    TablesInvert(0, e[0]);
    TablesInvert(0, e[1]);
    if OnePad(e) {
      var u2 := Value(e[2]);
      hide Symbol, Value, Join0, Join1;
      JoinsSplit(u0, u1, u2, 0);
      assert Canonical(e) == [e[0], e[1], Symbol(u2 / 4 * 4), e[3]];
    } else {
      hide Symbol, Value, Join0;
      JoinsSplit(u0, u1, 0, 0);
    }
  }

  lemma CanonicalTail(e: seq<Byte>)
    requires |e| > 4 && Acceptable(e)
    ensures Acceptable(e[4..]) && Canonical(e) == e[..4] + Canonical(e[4..])
  {
    AcceptableTail(e);
    assert e == e[..4] + e[4..];
  }

  /** Encoding gives an accepted text back up to the bits before a single pad. */
  lemma {:induction false} EncodeDecode(e: seq<Byte>)
    requires Acceptable(e)
    ensures Decoded(e).Some? && Encoded(Decoded(e).value) == Canonical(e)
    decreases |e|
  {
    hide AllSymbols, Pads, Value, Last, Triple, Quad3, Canonical;
    if |e| == 4 {
      LastEncodes(e);
    } else {
      AcceptableTail(e);
      CanonicalTail(e);
      EncodeDecode(e[4..]);
      QuadOfTriple(e[..4]);
      var t, rest := Triple(e[..4]), Decoded(e[4..]).value;
      assert (t + rest)[3..] == rest;
    }
  }

  lemma LastEncodes(e: seq<Byte>)
    requires |e| == 4 && Acceptable(e)
    ensures Decoded(e).Some? && Encoded(Decoded(e).value) == Canonical(e)
  {
    if Pads(e) > 0 {
      QuadOfPadded(e);
    } else {
      LastAccepts(e);
      assert e[..4] == e;
      QuadOfTriple(e);
      hide Triple, Quad3, Value, Symbol;
      assert Encoded(Triple(e)) == Quad3(Triple(e)[0], Triple(e)[1], Triple(e)[2]);
    }
  }

  /** The exact texts on which the two are inverse: not those with one pad and stray bits before it. */
  lemma EncodeInvertsDecode(e: seq<Byte>)
    requires Acceptable(e)
    ensures Decoded(e).Some?
    ensures Encoded(Decoded(e).value) == e <==> !(OnePad(e) && Value(e[|e| - 2]) % 4 != 0)
  {
    EncodeDecode(e);
    if OnePad(e) {
      assert e[|e| - 2] == e[..|e| - 1][|e| - 2];
      var v := Value(e[|e| - 2]);
      TablesInvert(v / 4 * 4, e[|e| - 2]);
      assert v % 4 == 0 <==> v / 4 * 4 == v;
      assert Canonical(e)[|e| - 2] == Symbol(v / 4 * 4);
    }
  }

  /** Clearing the stray bits does not change what is decoded. */
  lemma StrayBitsIgnored(e: seq<Byte>)
    requires Acceptable(e)
    ensures Decoded(e).Some? && Decoded(Canonical(e)) == Decoded(e)
  {
    EncodeDecode(e);
    DecodedAccepts(e);
    DecodeEncode(Decoded(e).value);
  }

  /** AAC= is accepted, and does not come back. */
  lemma StrayBitsExample(e: seq<Byte>)
    requires e == [65, 65, 67, 61]
    ensures Acceptable(e) && Decoded(e).Some? && Encoded(Decoded(e).value) != e
  {
    hide Decoded, Encoded;
    assert OnePad(e) && Value(e[2]) == 2;
    EncodeInvertsDecode(e);
  }

  /** A test vector of section 10 of RFC 4648: "foob" is spelled "Zm9vYg==". */
  lemma RfcVector()
    ensures Encoded([102, 111, 111, 98]) == [90, 109, 57, 118, 89, 103, 61, 61]
  {
    var s := [102, 111, 111, 98];
    assert s[3..] == [98];
    assert Encoded(s) == Quad3(102, 111, 111) + Encoded([98]);
  }

  // ---- Decoding into a buffer ----

  /** Bytes written, then what the rest decodes to. */
  function After(done: seq<Byte>, rest: Option<seq<Byte>>): Option<seq<Byte>> {
    if rest.None? then None else Some(done + rest.value)
  }

  lemma AfterTwice(a: seq<Byte>, b: seq<Byte>, rest: Option<seq<Byte>>)
    ensures After(a, After(b, rest)) == After(a + b, rest)
  {
    if rest.Some? { assert a + (b + rest.value) == (a + b) + rest.value; }
  }

  /** The last quad: each byte is written before the bits left over are looked at. */
  method DecodeLast(e: seq<Byte>, out: array<Byte>, at: nat) returns (ok: bool, outLen: nat)
    requires |e| == 4 && at + 3 <= out.Length
    modifies out
    ensures out[..at] == old(out[..at]) && out[at + 3..] == old(out[at + 3..])
    ensures at <= outLen <= at + 3 && out[outLen..] == old(out[outLen..])
    ensures ok <==> Last(e).Some?
    ensures ok ==> Last(e) == Some(out[at..outLen])
  {
    hide Value, JoinBits, And, Join0, Join1, Join2;
    outLen := at;
    var u0, u1, u2, u3 := Value(e[0]), Value(e[1]), Value(e[2]), Value(e[3]);
    Masks(u1);
    Masks(u3);
    JoinBitsAre(u0, u1, u2, u3);
    if u0 > 63 || u1 > 63 || (PAD == e[2] && PAD != e[3]) { return false, outLen; }
    if u2 > 63 && PAD != e[2] { return false, outLen; }
    if u3 > 63 && PAD != e[3] { return false, outLen; }
    out[at] := JoinBits(u0, 2, u1, 4);
    outLen := outLen + 1;
    if PAD == e[2] {
      if And(u1, 0x0f) != 0 { return false, outLen; }
      assert out[at..outLen] == [Join0(u0, u1)];
    } else {
      out[at + 1] := JoinBits(u1, 4, u2, 2);
      outLen := outLen + 1;
      if PAD == e[3] {
        if And(u3, 0x03) != 0 { return false, outLen; }
        assert out[at..outLen] == [Join0(u0, u1), Join1(u1, u2)];
      } else {
        out[at + 2] := JoinBits(u2, 6, u3, 0);
        outLen := outLen + 1;
        assert out[at..outLen] == Triple(e);
      }
    }
    ok := true;
  }

  /** One quad before the last. */
  method DecodeQuad(q: seq<Byte>, out: array<Byte>, at: nat) returns (ok: bool)
    requires |q| == 4 && at + 3 <= out.Length
    modifies out
    ensures ok <==> AllSymbols(q)
    ensures ok ==> out[..at + 3] == old(out[..at]) + Triple(q) && out[at + 3..] == old(out[at + 3..])
    ensures !ok ==> out[..] == old(out[..])
  {
    var u0, u1, u2, u3 := Value(q[0]), Value(q[1]), Value(q[2]), Value(q[3]);
    hide Value, JoinBits, Join0, Join1, Join2;
    if u0 > 63 || u1 > 63 || u2 > 63 || u3 > 63 { return false; }
    JoinBitsAre(u0, u1, u2, u3);
    out[at] := JoinBits(u0, 2, u1, 4);
    out[at + 1] := JoinBits(u1, 4, u2, 2);
    out[at + 2] := JoinBits(u2, 6, u3, 0);
    ok := true;
  }

  lemma QuadStep(input: seq<Byte>, i: nat)
    requires |input| % 4 == 0 && i % 4 == 0 && i + 4 < |input|
    ensures var q := input[i..i + 4];
      Decoded(input[i..]) == if AllSymbols(q) then After(Triple(q), Decoded(input[i + 4..])) else None
  {
    hide Value, Triple, AllSymbols, Last;
    assert input[i..][..4] == input[i..i + 4] && input[i..][4..] == input[i + 4..];
  }

  lemma LastStep(input: seq<Byte>, i: nat)
    requires |input| % 4 == 0 && i + 4 == |input|
    ensures Decoded(input[i..]) == Last(input[i..])
  {
  }

  lemma TailKept(a: seq<Byte>, b: seq<Byte>, from: nat, to: nat)
    requires from <= to <= |a| == |b| && a[from..] == b[from..]
    ensures a[to..] == b[to..]
  {
    assert a[to..] == a[from..][to - from..] && b[to..] == b[from..][to - from..];
  }

  /** The decoding loop and the last quad, for a text of whole quads. */
  method DecodeQuads(input: seq<Byte>, out: array<Byte>, ghost quads: nat) returns (ok: bool, outLen: nat)
    requires |input| == 4 * quads && 0 < quads && 3 * quads <= out.Length
    modifies out
    ensures ok <==> Decoded(input).Some?
    ensures outLen <= 3 * quads && (ok ==> Decoded(input) == Some(out[..outLen]))
    ensures out[outLen..] == old(out[outLen..])
  {
    hide AllSymbols, Value, Last, Triple, Decoded;
    outLen := 0;
    var i := 0;
    ghost var k := 0;
    assert input[0..] == input && out[..0] == [];
    AfterNothing(Decoded(input));
    while |input| - i > 4
      invariant i == 4 * k && outLen == 3 * k && k < quads
      invariant out[outLen..] == old(out[outLen..])
      invariant Decoded(input) == After(out[..outLen], Decoded(input[i..]))
    {
      QuadStep(input, i);
      var q := input[i..i + 4];
      ghost var done := out[..outLen];
      var fine := DecodeQuad(q, out, outLen);
      if !fine { return false, outLen; }
      AfterTwice(done, Triple(q), Decoded(input[i + 4..]));
      i := i + 4;
      outLen := outLen + 3;
      k := k + 1;
    }
    ghost var before, at := out[..], outLen;
    LastStep(input, i);
    ok, outLen := DecodeLast(input[i..], out, outLen);
    TailKept(old(out[..]), before, at, outLen);
    assert ok ==> out[..outLen] == before[..at] + out[at..outLen];
  }

  /** Decoding.  `ok` is the code's answer and `was` the caller's length, kept when the text is not whole quads.
      Nothing past the reported length is written, on failure either. */
  method Decode(input: seq<Byte>, out: array<Byte>, was: nat) returns (ok: bool, outLen: nat)
    requires input != [] && out.Length >= CapacityForDecode(|input|)
    modifies out
    ensures ok <==> Decoded(input).Some?
    ensures ok ==> outLen <= out.Length && Decoded(input) == Some(out[..outLen])
    ensures if |input| % 4 != 0 then outLen == was && out[..] == old(out[..])
            else outLen <= CapacityForDecode(|input|) && out[outLen..] == old(out[outLen..])
  {
    if |input| % 4 != 0 { return false, was; }
    ok, outLen := DecodeQuads(input, out, |input| / 4);
  }

  lemma AfterNothing(rest: Option<seq<Byte>>)
    ensures After([], rest) == rest
  {
    assert rest.Some? ==> [] + rest.value == rest.value;
  }
}
