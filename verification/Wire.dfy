/** Little-endian integers and the response frame of the sidecar protocol. */
module Wire {
  import opened Common
  import Bits

  function Pow256(n: nat): (p: nat)
    ensures p >= 1
  {
    if n == 0 then 1 else 256 * Pow256(n - 1)
  }

  /** The low `n` bytes of `v`, least significant first: larger values are truncated. */
  function PutLE(v: nat, n: nat): (b: Bytes)
    ensures |b| == n
  {
    if n == 0 then [] else [v % 256] + PutLE(v / 256, n - 1)
  }

  function GetLE(b: Bytes): nat {
    if b == [] then 0 else b[0] + 256 * GetLE(b[1..])
  }

  lemma {:induction false} GetBound(b: Bytes)
    ensures GetLE(b) < Pow256(|b|)
  {
    if b != [] {
      GetBound(b[1..]);
    }
  }

  lemma {:induction false} PutGet(v: nat, n: nat)
    requires v < Pow256(n)
    ensures GetLE(PutLE(v, n)) == v
  {
    if n > 0 {
      PutGet(v / 256, n - 1);
      assert PutLE(v, n)[1..] == PutLE(v / 256, n - 1);
    }
  }

  lemma DivideTwice(v: nat, b: nat)
    requires b >= 1
    ensures v / 256 / b == v / (256 * b)
  {
    var q := v / 256;
    Regrouped(b, q / b);
    assert q == b * (q / b) + q % b;
    Bits.QuotientIs(v, 256 * b, q / b, 256 * (q % b) + v % 256);
  }

  lemma Regrouped(b: nat, q: nat)
    ensures q * (256 * b) == 256 * (b * q)
  {
  }

  /** Byte j of a field is digit j of the value in base 256. */
  lemma {:induction false} PutByte(v: nat, n: nat, j: nat)
    requires j < n
    ensures PutLE(v, n)[j] == v / Pow256(j) % 256
  {
    if j > 0 {
      PutByte(v / 256, n - 1, j - 1);
      DivideTwice(v, Pow256(j - 1));
    }
  }

  lemma Widths()
    ensures Pow256(4) == WORD && Pow256(8) == LONG
  {
    assert Pow256(1) == 256 && Pow256(2) == 65536 && Pow256(3) == 0x100_0000;
    assert Pow256(4) == WORD;
    assert Pow256(5) == 256 * WORD && Pow256(6) == 65536 * WORD && Pow256(7) == 0x100_0000 * WORD;
  }

  lemma PutGet32(v: nat)
    ensures v < WORD ==> GetLE(PutLE(v, 4)) == v
    ensures GetLE(PutLE(v, 4)) < WORD
  {
    Widths();
    GetBound(PutLE(v, 4));
    if v < WORD {
      PutGet(v, 4);
    }
  }

  lemma PutGet64(v: nat)
    ensures v < LONG ==> GetLE(PutLE(v, 8)) == v
  {
    Widths();
    if v < LONG {
      PutGet(v, 8);
    }
  }

  // ---- Response frames ----

  const MAGIC_RES: nat := 0x52535054

  const STATUS_OK: nat := 0
  const STATUS_TIMEOUT: nat := 2
  const STATUS_ERROR: nat := 3

  datatype Frame = Frame(reqId: nat, status: nat, payload: Bytes)

  ghost predicate Addressed(f: Frame) {
    f.reqId < LONG && f.status < WORD
  }

  function Header(f: Frame): (b: Bytes)
    ensures |b| == 16
  {
    PutLE(MAGIC_RES, 4) + PutLE(f.reqId, 8) + PutLE(f.status, 4)
  }

  function Encode(f: Frame): (b: Bytes)
    ensures |b| == 20 + |f.payload|
  {
    Header(f) + PutLE(|f.payload|, 4) + f.payload
  }

  /** A frame byte by byte: the magic number spelled TPSR, the request id in eight bytes, the status in four, the length in
      four, each least significant byte first, and the payload. */
  lemma FrameLayout(f: Frame)
    ensures Encode(f)[..4] == [0x54, 0x50, 0x53, 0x52] && Encode(f)[20..] == f.payload
    ensures forall j :: 0 <= j < 8 ==> Encode(f)[4 + j] == f.reqId / Pow256(j) % 256
    ensures forall j :: 0 <= j < 4 ==> Encode(f)[12 + j] == f.status / Pow256(j) % 256
    ensures forall j :: 0 <= j < 4 ==> Encode(f)[16 + j] == |f.payload| / Pow256(j) % 256
  {
    MagicBytes();
    hide PutLE, Pow256;
    var b := Encode(f);
    assert b[..4] == PutLE(MAGIC_RES, 4);
    forall j | 0 <= j < 8 ensures b[4 + j] == f.reqId / Pow256(j) % 256 {
      PutByte(f.reqId, 8, j);
    }
    forall j | 0 <= j < 4
      ensures b[12 + j] == f.status / Pow256(j) % 256 && b[16 + j] == |f.payload| / Pow256(j) % 256
    {
      PutByte(f.status, 4, j);
      PutByte(|f.payload|, 4, j);
    }
  }

  lemma MagicBytes()
    ensures PutLE(MAGIC_RES, 4) == [0x54, 0x50, 0x53, 0x52]
  {
    assert PutLE(0x52, 1) == [0x52];
    assert PutLE(0x5253, 2) == [0x53, 0x52];
    assert PutLE(0x525350, 3) == [0x50, 0x53, 0x52];
  }

  function Concat(frames: seq<Frame>): Bytes {
    if frames == [] then [] else Encode(frames[0]) + Concat(frames[1..])
  }

  datatype Parsed = Parsed(frame: Frame, rest: Bytes)

  /** A reader of the stream: one frame, or nothing when the bytes are not a whole frame. */
  function ParseOne(b: Bytes): (r: Option<Parsed>)
    ensures r.Some? ==> |r.value.rest| + 20 <= |b| && |r.value.frame.payload| < WORD
  {
    if |b| < 20 || GetLE(b[..4]) != MAGIC_RES then None
    else
      Widths();
      GetBound(b[16..20]);
      var length := GetLE(b[16..20]);
      if |b| < 20 + length then None
      else Some(Parsed(Frame(GetLE(b[4..12]), GetLE(b[12..16]), b[20..20 + length]), b[20 + length..]))
  }

  function ParseAll(b: Bytes): (r: Option<seq<Frame>>)
    ensures r.Some? ==> forall i :: 0 <= i < |r.value| ==> |r.value[i].payload| < WORD
    decreases |b|
  {
    if b == [] then Some([])
    else
      match ParseOne(b)
      case None => None
      case Some(p) =>
        match ParseAll(p.rest)
        case None => None
        case Some(frames) => Some([p.frame] + frames)
  }

  ghost predicate AllShort(frames: seq<Frame>) {
    forall i :: 0 <= i < |frames| ==> |frames[i].payload| < WORD
  }

  ghost predicate AllAddressed(frames: seq<Frame>) {
    forall i :: 0 <= i < |frames| ==> Addressed(frames[i])
  }

  lemma ParseEncoded(f: Frame, rest: Bytes)
    requires Addressed(f) && |f.payload| < WORD
    ensures ParseOne(Encode(f) + rest) == Some(Parsed(f, rest))
  {
    hide PutLE, GetLE;
    var b := Encode(f) + rest;
    PutGet32(MAGIC_RES);
    PutGet64(f.reqId);
    PutGet32(f.status);
    PutGet32(|f.payload|);
    assert b[..4] == PutLE(MAGIC_RES, 4);
    assert b[4..12] == PutLE(f.reqId, 8);
    assert b[12..16] == PutLE(f.status, 4);
    assert b[16..20] == PutLE(|f.payload|, 4);
    assert b[20..20 + |f.payload|] == f.payload;
    assert b[20 + |f.payload|..] == rest;
  }

  lemma {:induction false} ParseConcat(frames: seq<Frame>)
    requires AllAddressed(frames) && AllShort(frames)
    ensures ParseAll(Concat(frames)) == Some(frames)
  {
    hide Encode, ParseOne;
    if frames != [] {
      ParseConcat(frames[1..]);
      ParseEncoded(frames[0], Concat(frames[1..]));
      EncodeNonEmpty(frames[0]);
      assert [frames[0]] + frames[1..] == frames;
    }
  }

  lemma EncodeNonEmpty(f: Frame)
    ensures |Encode(f)| >= 20
  {
  }

  /** A concatenation of frames parses back to exactly those frames if and only if every
      payload is shorter than 2^32: the length field keeps only 32 bits. */
  lemma ParsesBack(frames: seq<Frame>)
    requires AllAddressed(frames)
    ensures ParseAll(Concat(frames)) == Some(frames) <==> AllShort(frames)
  {
    if AllShort(frames) {
      ParseConcat(frames);
    }
  }

  lemma {:induction false} ConcatExtend(frames: seq<Frame>, f: Frame)
    ensures Concat(frames + [f]) == Concat(frames) + Encode(f)
  {
    hide Encode;
    if frames == [] {
      assert [f][1..] == [] && frames + [f] == [f];
      assert Concat([f]) == Encode(f) + Concat([]);
    } else {
      ConcatExtend(frames[1..], f);
      assert (frames + [f])[1..] == frames[1..] + [f];
      assert Concat(frames + [f]) == Encode(frames[0]) + Concat(frames[1..] + [f]);
    }
  }
}
