/** The batched multi-get handler: results are collected batch by batch and packed into a
    payload whose size is computed beforehand. */
module MultiGet {
  import opened Common
  import opened Wire

  /** A fixed store: absent keys are None, which is not the same as an empty value. */
  type Store = Bytes -> Option<Bytes>

  datatype Failure = Deadline | Other(message: Bytes)

  /** What a batch call starting at a given key returns instead of values, if it fails. */
  type Failures = nat -> Option<Failure>

  datatype Outcome = Outcome(status: nat, payload: Bytes)

  const TIMEOUT_TEXT: Bytes := [116, 105, 109, 101, 111, 117, 116]

  // ---- Keys and lookups ----

  /** Key `i` of the request with the namespace in front. */
  function Key(namespace: Bytes, raw: Bytes, i: nat): Bytes
    requires 8 * (i + 1) <= |raw|
  {
    namespace + raw[8 * i..8 * (i + 1)]
  }

  function Lookups(store: Store, namespace: Bytes, raw: Bytes, n: nat): (r: seq<Option<Bytes>>)
    requires 8 * n <= |raw|
    ensures |r| == n && forall i :: 0 <= i < n ==> r[i] == store(namespace + raw[8 * i..8 * i + 8])
  {
    var r := seq(n, i requires 0 <= i < n => store(Key(namespace, raw, i)));
    assert forall i :: 0 <= i < n ==> r[i] == store(Key(namespace, raw, i));
    assert forall i :: 0 <= i < n ==> Key(namespace, raw, i) == namespace + raw[8 * i..8 * i + 8];
    r
  }

  // ---- The payload ----

  function EncodeEntry(v: Option<Bytes>): (b: Bytes)
    ensures |b| == 1 + if v.Some? then 4 + |v.value| else 0
  {
    match v
    case None => [0]
    case Some(value) => [1] + PutLE(|value|, 4) + value
  }

  function EncodeEntries(results: seq<Option<Bytes>>): Bytes {
    if results == [] then [] else EncodeEntries(results[..|results| - 1]) + EncodeEntry(results[|results| - 1])
  }

  function EncodeResults(results: seq<Option<Bytes>>): Bytes {
    PutLE(|results|, 4) + EncodeEntries(results)
  }

  datatype Entry = Entry(value: Option<Bytes>, rest: Bytes)

  function DecodeEntry(b: Bytes): (r: Option<Entry>)
    ensures r.Some? ==> |r.value.rest| < |b| && (r.value.value.Some? ==> |r.value.value.value| < WORD)
  {
    if b == [] then None
    else if b[0] == 0 then Some(Entry(None, b[1..]))
    else if b[0] != 1 || |b| < 5 then None
    else
      Widths();
      GetBound(b[1..5]);
      var length := GetLE(b[1..5]);
      if |b| < 5 + length then None else Some(Entry(Some(b[5..5 + length]), b[5 + length..]))
  }

  function DecodeEntries(b: Bytes, n: nat): (r: Option<seq<Option<Bytes>>>)
    ensures r.Some? ==> AllShort(r.value)
    decreases n
  {
    if n == 0 then (if b == [] then Some([]) else None)
    else
      match DecodeEntry(b)
      case None => None
      case Some(e) =>
        match DecodeEntries(e.rest, n - 1)
        case None => None
        case Some(values) => Some([e.value] + values)
  }

  /** How a client reads the payload: a count, then that many entries, then the end. */
  function DecodeResults(b: Bytes): Option<seq<Option<Bytes>>> {
    if |b| < 4 then None else DecodeEntries(b[4..], GetLE(b[..4]))
  }

  ghost predicate AllShort(results: seq<Option<Bytes>>) {
    forall i :: 0 <= i < |results| && results[i].Some? ==> |results[i].value| < WORD
  }

  lemma EntryRoundTrip(v: Option<Bytes>, rest: Bytes)
    requires v.Some? ==> |v.value| < WORD
    ensures DecodeEntry(EncodeEntry(v) + rest) == Some(Entry(v, rest))
  {
    hide PutLE, GetLE;
    var b := EncodeEntry(v) + rest;
    if v.Some? {
      PutGet32(|v.value|);
      assert b[1..5] == PutLE(|v.value|, 4);
      assert b[5..5 + |v.value|] == v.value;
      assert b[5 + |v.value|..] == rest;
    } else {
      assert b[1..] == rest;
    }
  }

  lemma {:induction false} EntriesSplit(a: seq<Option<Bytes>>, b: seq<Option<Bytes>>)
    ensures EncodeEntries(a + b) == EncodeEntries(a) + EncodeEntries(b)
  {
    hide EncodeEntry;
    if b == [] {
      assert a + b == a;
    } else {
      EntriesSplit(a, b[..|b| - 1]);
      assert (a + b)[..|a + b| - 1] == a + b[..|b| - 1];
    }
  }

  lemma {:induction false} EntriesRoundTrip(results: seq<Option<Bytes>>)
    requires AllShort(results)
    ensures DecodeEntries(EncodeEntries(results), |results|) == Some(results)
  {
    hide EncodeEntry, DecodeEntry;
    if results != [] {
      var first, rest := results[0], results[1..];
      EntriesRoundTrip(rest);
      assert [first] + rest == results;
      EntriesSplit([first], rest);
      OneEntry(first);
      EntryRoundTrip(first, EncodeEntries(rest));
    }
  }

  lemma OneEntry(v: Option<Bytes>)
    ensures EncodeEntries([v]) == EncodeEntry(v)
  {
    hide EncodeEntry;
    assert [v][..0] == [];
    assert EncodeEntries([v]) == EncodeEntries([]) + EncodeEntry(v);
  }

  /** A payload decodes to the results it was packed from if and only if every value is
      shorter than 2^32; absent and empty stay distinct. */
  lemma ResultsRoundTrip(results: seq<Option<Bytes>>)
    requires |results| < WORD
    ensures DecodeResults(EncodeResults(results)) == Some(results) <==> AllShort(results)
  {
    hide PutLE, GetLE, EncodeEntries, DecodeEntries;
    PutGet32(|results|);
    var b := EncodeResults(results);
    assert b[..4] == PutLE(|results|, 4);
    assert b[4..] == EncodeEntries(results);
    if AllShort(results) {
      EntriesRoundTrip(results);
    }
  }

  // ---- The payload byte by byte ----

  /** Where entry i starts: after the count, a flag for every entry before it, and a length and the bytes for those
      present. */
  ghost function Offset(results: seq<Option<Bytes>>, i: nat): nat
    requires i <= |results|
  {
    if i == 0 then 4
    else Offset(results, i - 1) + if results[i - 1].Some? then 5 + |results[i - 1].value| else 1
  }

  lemma {:induction false} OffsetIsSize(results: seq<Option<Bytes>>, i: nat)
    requires i <= |results|
    ensures Offset(results, i) == 4 + |EncodeEntries(results[..i])|
  {
    hide EncodeEntries, EncodeEntry;
    if i == 0 {
      assert results[..0] == [];
      NoEntries();
    } else {
      OffsetIsSize(results, i - 1);
      PrefixGrows(results, i - 1);
    }
  }

  ghost predicate EntryAt(b: Bytes, o: nat, v: Option<Bytes>) {
    match v
    case None => o < |b| && b[o] == 0
    case Some(value) =>
      && o + 5 + |value| <= |b| && b[o] == 1 && b[o + 5..o + 5 + |value|] == value
      && forall j :: 0 <= j < 4 ==> b[o + 1 + j] == |value| / Pow256(j) % 256
  }

  lemma EntryBytes(v: Option<Bytes>)
    ensures EntryAt(EncodeEntry(v), 0, v)
  {
    hide PutLE, Pow256;
    if v.Some? {
      forall j | 0 <= j < 4 ensures EncodeEntry(v)[1 + j] == |v.value| / Pow256(j) % 256 {
        PutByte(|v.value|, 4, j);
      }
    }
  }

  lemma EntryInside(a: Bytes, b: Bytes, c: Bytes, v: Option<Bytes>)
    requires EntryAt(b, 0, v)
    ensures EntryAt(a + b + c, |a|, v)
  {
    hide Pow256;
    var w := a + b + c;
    assert forall k :: 0 <= k < |b| ==> w[|a| + k] == b[k];
    if v.Some? {
      assert w[|a| + 5..|a| + 5 + |v.value|] == b[5..5 + |v.value|];
    }
  }

  /** The payload: the count in four bytes, then for every entry, at its own offset, one byte that tells absent from
      present, and for a present one four bytes of length and the value. */
  lemma PayloadLayout(results: seq<Option<Bytes>>, i: nat)
    ensures |EncodeResults(results)| == Offset(results, |results|)
    ensures forall j :: 0 <= j < 4 ==> EncodeResults(results)[j] == |results| / Pow256(j) % 256
    ensures i < |results| ==> EntryAt(EncodeResults(results), Offset(results, i), results[i])
  {
    hide EncodeEntries, EncodeEntry, PutLE, Pow256, EntryAt, Offset;
    assert results[..|results|] == results;
    OffsetIsSize(results, |results|);
    forall j | 0 <= j < 4 ensures EncodeResults(results)[j] == |results| / Pow256(j) % 256 {
      PutByte(|results|, 4, j);
    }
    if i < |results| {
      OffsetIsSize(results, i);
      PrefixGrows(results, i);
      assert results == results[..i + 1] + results[i + 1..];
      EntriesSplit(results[..i + 1], results[i + 1..]);
      EntryBytes(results[i]);
      var a, b, c := PutLE(|results|, 4) + EncodeEntries(results[..i]), EncodeEntry(results[i]), EncodeEntries(results[i + 1..]);
      EntryInside(a, b, c, results[i]);
      assert EncodeResults(results) == a + b + c;
    }
  }

  // ---- The handler ----

  /** copy / PutUint32 into the payload buffer. */
  method PutBytes(payload: array<Byte>, off: nat, bytes: Bytes)
    requires off + |bytes| <= payload.Length
    modifies payload
    ensures payload[..off + |bytes|] == old(payload[..off]) + bytes
  {
    var i := 0;
    while i < |bytes|
      invariant 0 <= i <= |bytes|
      invariant forall j :: 0 <= j < off ==> payload[j] == old(payload[j])
      invariant forall j :: 0 <= j < i ==> payload[off + j] == bytes[j]
    {
      payload[off + i] := bytes[i];
      i := i + 1;
    }
  }

  lemma PrefixGrows(results: seq<Option<Bytes>>, i: nat)
    requires i < |results|
    ensures EncodeEntries(results[..i + 1]) == EncodeEntries(results[..i]) + EncodeEntry(results[i])
  {
    assert results[..i + 1][..i] == results[..i];
  }

  lemma {:induction false} PrefixFits(results: seq<Option<Bytes>>, i: nat)
    requires i <= |results|
    ensures |EncodeEntries(results[..i])| <= |EncodeEntries(results)|
  {
    assert results[..i] + results[i..] == results;
    EntriesSplit(results[..i], results[i..]);
  }

  /** The size loop. */
  method PayloadSize(results: seq<Option<Bytes>>) returns (size: nat)
    ensures size == |EncodeResults(results)|
  {
    hide EncodeEntries, PutLE;
    NoEntries();
    size := 4;
    var i := 0;
    assert results[..0] == [];
    while i < |results|
      invariant 0 <= i <= |results| && size == 4 + |EncodeEntries(results[..i])|
    {
      PrefixGrows(results, i);
      size := size + 1;
      if results[i].Some? {
        size := size + 4 + |results[i].value|;
      }
      i := i + 1;
    }
    assert results[..i] == results;
  }

  lemma NoEntries()
    ensures EncodeEntries([]) == []
  {
  }

  /** Packing: the write offset starts after the count and ends exactly at the size. */
  method Pack(results: seq<Option<Bytes>>) returns (payload: array<Byte>, off: nat)
    ensures fresh(payload) && payload[..] == EncodeResults(results)
    ensures off == payload.Length
  {
    hide EncodeEntries, PutLE, EncodeEntry;
    NoEntries();
    var size := PayloadSize(results);
    payload := new Byte[size](_ => 0);
    PutBytes(payload, 0, PutLE(|results|, 4));
    off := 4;
    var i := 0;
    assert results[..0] == [];
    while i < |results|
      invariant 0 <= i <= |results| && payload.Length == size && fresh(payload)
      invariant off == 4 + |EncodeEntries(results[..i])| <= size
      invariant payload[..off] == PutLE(|results|, 4) + EncodeEntries(results[..i])
    {
      PrefixGrows(results, i);
      PrefixFits(results, i + 1);
      off := PackEntry(payload, off, results[i]);
      i := i + 1;
    }
    assert results[..i] == results;
    assert payload[..off] == payload[..];
  }

  /** One entry of the packing loop: flag, length, bytes. */
  method PackEntry(payload: array<Byte>, off: nat, v: Option<Bytes>) returns (end: nat)
    requires off + |EncodeEntry(v)| <= payload.Length
    modifies payload
    ensures end == off + |EncodeEntry(v)|
    ensures payload[..end] == old(payload[..off]) + EncodeEntry(v)
  {
    hide PutLE;
    ghost var before := payload[..off];
    end := off;
    if v.Some? {
      end := PutFlag(payload, end, 1);
      PutBytes(payload, end, PutLE(|v.value|, 4));
      end := end + 4;
      PutBytes(payload, end, v.value);
      end := end + |v.value|;
      Regroup(before, [1], PutLE(|v.value|, 4), v.value);
    } else {
      end := PutFlag(payload, end, 0);
    }
  }

  method PutFlag(payload: array<Byte>, off: nat, flag: Byte) returns (end: nat)
    requires off < payload.Length
    modifies payload
    ensures end == off + 1 && payload[..end] == old(payload[..off]) + [flag]
  {
    payload[off] := flag;
    end := off + 1;
  }

  lemma Regroup(a: Bytes, b: Bytes, c: Bytes, d: Bytes)
    ensures ((a + b) + c) + d == a + (b + c + d)
  {
  }

  function FailureOutcome(f: Failure): Outcome {
    match f
    case Deadline => Outcome(STATUS_TIMEOUT, TIMEOUT_TEXT)
    case Other(message) => Outcome(STATUS_ERROR, message)
  }

  /** The first failing batch from `start` on, in steps of `maxBatch`. */
  function FirstFailure(fails: Failures, start: nat, n: nat, maxBatch: nat): Option<Failure>
    requires maxBatch >= 1
    decreases n - start
  {
    if start >= n then None
    else if fails(start).Some? then fails(start)
    else FirstFailure(fails, start + maxBatch, n, maxBatch)
  }

  /** The key batch m starts with. */
  ghost function BatchStart(m: nat, maxBatch: nat): nat {
    m * maxBatch
  }

  ghost predicate FineUntil(fails: Failures, from: nat, m: nat, maxBatch: nat) {
    forall q: nat :: from <= q < m ==> fails(BatchStart(q, maxBatch)).None?
  }

  ghost predicate FailsFirst(fails: Failures, from: nat, m: nat, n: nat, maxBatch: nat, f: Failure) {
    from <= m && BatchStart(m, maxBatch) < n && fails(BatchStart(m, maxBatch)) == Some(f) && FineUntil(fails, from, m, maxBatch)
  }

  ghost predicate NoneFails(fails: Failures, from: nat, n: nat, maxBatch: nat) {
    forall q: nat :: from <= q && BatchStart(q, maxBatch) < n ==> fails(BatchStart(q, maxBatch)).None?
  }

  /** `first` is the failure of the first batch that fails. */
  ghost predicate IsFirst(fails: Failures, from: nat, n: nat, maxBatch: nat, first: Option<Failure>) {
    match first
    case None => NoneFails(fails, from, n, maxBatch)
    case Some(f) => exists m: nat :: FailsFirst(fails, from, m, n, maxBatch, f)
  }

  lemma FirstEarlier(fails: Failures, b: nat, n: nat, maxBatch: nat, first: Option<Failure>)
    requires fails(BatchStart(b, maxBatch)).None? && IsFirst(fails, b + 1, n, maxBatch, first)
    ensures IsFirst(fails, b, n, maxBatch, first)
  {
    hide BatchStart;
    if first.Some? {
      var m: nat :| FailsFirst(fails, b + 1, m, n, maxBatch, first.value);
      assert FailsFirst(fails, b, m, n, maxBatch, first.value);
    }
  }

  /** The failure reported is that of the first batch, by number, that fails. */
  lemma {:induction false} FirstFailureMeans(fails: Failures, b: nat, n: nat, maxBatch: nat)
    requires maxBatch >= 1
    ensures IsFirst(fails, b, n, maxBatch, FirstFailure(fails, BatchStart(b, maxBatch), n, maxBatch))
    decreases n - BatchStart(b, maxBatch)
  {
    var start := BatchStart(b, maxBatch);
    NextStart(b, maxBatch);
    if start >= n {
      forall q: nat | b <= q ensures BatchStart(q, maxBatch) >= n {
        LaterStart(b, q, maxBatch);
      }
    } else if fails(start).Some? {
      assert FailsFirst(fails, b, b, n, maxBatch, fails(start).value);
    } else {
      hide IsFirst;
      FirstFailureMeans(fails, b + 1, n, maxBatch);
      FirstEarlier(fails, b, n, maxBatch, FirstFailure(fails, start, n, maxBatch));
    }
  }

  lemma NextStart(b: nat, maxBatch: nat)
    ensures BatchStart(b + 1, maxBatch) == BatchStart(b, maxBatch) + maxBatch
  {
  }

  lemma LaterStart(b: nat, q: nat, maxBatch: nat)
    requires b <= q
    ensures BatchStart(b, maxBatch) <= BatchStart(q, maxBatch)
  {
  }

  /** The batch loop: collect values for keys `start` to `n`, or stop at a failing batch. */
  method Collect(store: Store, fails: Failures, namespace: Bytes, raw: Bytes, n: nat, maxBatch: nat)
    returns (results: seq<Option<Bytes>>, failure: Option<Failure>)
    requires maxBatch >= 1 && |raw| == 8 * n
    ensures failure == FirstFailure(fails, 0, n, maxBatch)
    ensures failure.None? ==> results == Lookups(store, namespace, raw, n)
  {
    results := seq(n, _ => None);
    failure := None;
    var start := 0;
    while start < n
      invariant 0 <= start && |results| == n
      invariant FirstFailure(fails, start, n, maxBatch) == FirstFailure(fails, 0, n, maxBatch)
      invariant forall i :: 0 <= i < n ==>
                  results[i] == if i < start then store(Key(namespace, raw, i)) else None
      decreases n - start
    {
      var end := if start + maxBatch > n then n else start + maxBatch;
      if fails(start).Some? {
        failure := fails(start);
        return;
      }
      var i := start;
      while i < end
        invariant start <= i <= end && |results| == n
        invariant forall j :: 0 <= j < n ==> results[j] == if j < i then store(Key(namespace, raw, j)) else None
      {
        var v := store(Key(namespace, raw, i));
        if v.Some? {
          results := results[i := v];
        }
        i := i + 1;
      }
      start := start + maxBatch;
    }
  }

  /** For every batch size, a successful reply is the packed pointwise lookup of the keys in
      request order; a failing reply is that of the first failing batch. */
  method HandleMultiGet(store: Store, fails: Failures, namespace: Bytes, raw: Bytes, n: nat, maxBatch: nat)
    returns (reply: Outcome)
    requires maxBatch >= 1 && |raw| == 8 * n && n <= 1_000_000
    ensures n > 0 && FirstFailure(fails, 0, n, maxBatch).Some? ==>
              reply == FailureOutcome(FirstFailure(fails, 0, n, maxBatch).value)
    ensures n == 0 || FirstFailure(fails, 0, n, maxBatch).None? ==>
              reply == Outcome(STATUS_OK, EncodeResults(Lookups(store, namespace, raw, n)))
    ensures n == 0 || FirstFailure(fails, 0, n, maxBatch).None? ==>
              (DecodeResults(reply.payload) == Some(Lookups(store, namespace, raw, n))
               <==> AllShort(Lookups(store, namespace, raw, n)))
  {
    hide EncodeEntries, PutLE, DecodeResults, FirstFailure, AllShort;
    ResultsRoundTrip(Lookups(store, namespace, raw, n));
    if n == 0 {
      NoEntries();
      var payload := PutLE(0, 4);
      return Outcome(STATUS_OK, payload);
    }
    var results, failure := Collect(store, fails, namespace, raw, n, maxBatch);
    if failure.Some? {
      return FailureOutcome(failure.value);
    }
    var payload, off := Pack(results);
    return Outcome(STATUS_OK, payload[..]);
  }
}
