/** Metadata stores: an offset table over byte buffers that must answer like a plain list
    of blobs. */
module Metadata {
  import opened Common
  import opened Bits
  import opened ChunkedVector

  // ---- Offsets over one buffer ----

  ghost predicate Ascending(offsets: seq<nat>) {
    forall i, j :: 0 <= i <= j < |offsets| ==> offsets[i] <= offsets[j]
  }

  /** `offsets` cuts `bytes` into |offsets| - 1 blobs. */
  ghost predicate Cuts(offsets: seq<nat>, bytes: Bytes) {
    && |offsets| >= 1 && offsets[0] == 0 && Ascending(offsets)
    && offsets[|offsets| - 1] == |bytes|
  }

  ghost function Cut(offsets: seq<nat>, bytes: Bytes): (blobs: seq<Bytes>)
    requires Cuts(offsets, bytes)
    ensures |blobs| == |offsets| - 1
    ensures forall i :: 0 <= i < |blobs| ==> blobs[i] == bytes[offsets[i]..offsets[i + 1]]
  {
    seq(|offsets| - 1, i requires 0 <= i < |offsets| - 1 => bytes[offsets[i]..offsets[i + 1]])
  }

  /** Appending a blob: its bytes go to the end, and one offset is added. */
  lemma CutExtends(offsets: seq<nat>, bytes: Bytes, blob: Bytes)
    requires Cuts(offsets, bytes)
    ensures var more := offsets + [offsets[|offsets| - 1] + |blob|];
            Cuts(more, bytes + blob) && Cut(more, bytes + blob) == Cut(offsets, bytes) + [blob]
  {
    var more := offsets + [offsets[|offsets| - 1] + |blob|];
    var now, was := Cut(more, bytes + blob), Cut(offsets, bytes);
    forall i | 0 <= i < |was| ensures now[i] == was[i] {
      assert (bytes + blob)[offsets[i]..offsets[i + 1]] == bytes[offsets[i]..offsets[i + 1]];
    }
    assert now[|was|] == blob;
  }

  ghost function Shift(offsets: seq<nat>, start: nat, count: nat): (r: seq<nat>)
    requires start + count < |offsets| && Ascending(offsets)
    ensures |r| == count + 1 && forall i :: 0 <= i <= count ==> r[i] == offsets[start + i] - offsets[start]
  {
    seq(count + 1, i requires 0 <= i <= count => offsets[start + i] - offsets[start])
  }

  lemma ShiftAscends(offsets: seq<nat>, start: nat, count: nat)
    requires start + count < |offsets| && Ascending(offsets)
    ensures Ascending(Shift(offsets, start, count))
  {
    var r := Shift(offsets, start, count);
    forall i, j | 0 <= i <= j < |r| ensures r[i] <= r[j] {
      assert offsets[start + i] <= offsets[start + j];
    }
  }

  lemma SliceOfSlice(bytes: Bytes, a: nat, c: nat, lo: nat, hi: nat)
    requires a <= lo <= hi <= c <= |bytes|
    ensures bytes[a..c][lo - a..hi - a] == bytes[lo..hi]
  {
    var inner, outer := bytes[a..c][lo - a..hi - a], bytes[lo..hi];
    forall k | 0 <= k < hi - lo ensures inner[k] == outer[k] {
      assert bytes[a..c][lo - a + k] == bytes[lo + k];
    }
  }

  lemma OffsetsWithin(offsets: seq<nat>, bytes: Bytes, i: nat)
    requires Cuts(offsets, bytes) && i < |offsets|
    ensures offsets[i] <= |bytes|
  {
    assert offsets[i] <= offsets[|offsets| - 1];
  }

  /** Splitting the buffer at a blob boundary: each blob lies wholly in one part. */
  lemma BlobInPart(offsets: seq<nat>, low: Bytes, high: Bytes, count: nat, i: nat)
    requires Cuts(offsets, low + high) && count < |offsets| && offsets[count] == |low| && i < |offsets| - 1
    ensures i < count ==> offsets[i] <= offsets[i + 1] <= |low|
                          && Cut(offsets, low + high)[i] == low[offsets[i]..offsets[i + 1]]
    ensures i >= count ==> |low| <= offsets[i] <= offsets[i + 1] <= |low| + |high|
                           && Cut(offsets, low + high)[i] == high[offsets[i] - |low|..offsets[i + 1] - |low|]
  {
    if i < count {
      assert offsets[i + 1] <= offsets[count];
    } else {
      assert offsets[count] <= offsets[i];
      assert offsets[i + 1] <= offsets[|offsets| - 1];
    }
  }

  // ---- Adding up to a capacity ----

  /** One Add on the plain list: the offset table holds one entry more than there are blobs. */
  ghost function AddTo(blobs: seq<Bytes>, data: Bytes, max: nat): seq<Bytes>
    requires max < LONG
  {
    if |blobs| + 1 <= Minus64(max, 1) then blobs + [data] else blobs
  }

  ghost function AddAll(adds: seq<Bytes>, max: nat): seq<Bytes>
    requires max < LONG
  {
    if adds == [] then [] else AddTo(AddAll(adds[..|adds| - 1], max), adds[|adds| - 1], max)
  }

  /** Over any sequence of Adds the set holds the first capacity - 1 blobs, in order: later
      ones are refused.  A capacity of zero wraps round and refuses nothing. */
  lemma {:induction false} AddsUpToCapacity(adds: seq<Bytes>, max: nat)
    requires max < LONG && |adds| + 1 < LONG - 1
    ensures AddAll(adds, max) == if max == 0 then adds else adds[..Min(|adds|, max - 1)]
  {
    if adds != [] {
      AddsUpToCapacity(adds[..|adds| - 1], max);
    }
  }

  /** Pending bytes and one offset more. */
  lemma BlobAdded(offsets: seq<nat>, holder: Bytes, newdata: Bytes, data: Bytes)
    requires Cuts(offsets, holder + newdata)
    ensures |offsets| >= 1 && offsets[|offsets| - 1] == |holder| + |newdata|
    ensures var more := offsets + [offsets[|offsets| - 1] + |data|];
            && Cuts(more, holder + (newdata + data))
            && Cut(more, holder + (newdata + data)) == Cut(offsets, holder + newdata) + [data]
  {
    hide Cut, Ascending;
    CutExtends(offsets, holder + newdata, data);
    assert holder + newdata + data == holder + (newdata + data);
  }

  lemma DropBack(a: Bytes, b: Bytes)
    ensures (a + b)[..|a + b| - |b|] == a
  {
  }

  // ---- In-memory set ----

  class MemMetadataSet {
    var count: nat                       // blobs held in `holder`
    var holder: Bytes
    var newdata: Bytes
    var offsets: LockFreeVector<nat>

    ghost predicate Valid()
      reads this, offsets
    {
      && offsets.Valid()
      && Cuts(offsets.Contents(), holder + newdata)
      && count < |offsets.Contents()|
      && offsets.Contents()[count] == |holder|
      && |holder| + |newdata| < LONG
    }

    /** The plain list this set stands for. */
    ghost function Blobs(): seq<Bytes>
      requires Valid()
      reads this, offsets
    {
      Cut(offsets.Contents(), holder + newdata)
    }

    /** An empty set: the offset table starts with a single zero, which takes one of the
        `capacity` places. */
    constructor (blocksize: nat, capacity: nat)
      requires 1 <= blocksize <= MAX_BLOCK && capacity < LONG
      ensures Valid() && Blobs() == [] && fresh(offsets) && offsets.maxSize == capacity && newdata == []
    {
      count, holder, newdata := 0, [], [];
      var table := new LockFreeVector<nat>(blocksize, capacity);
      var ok := table.PushBack(0);
      CapacityTest(0, capacity, 1);
      offsets := table;
    }

    method Count() returns (n: nat)
      requires Valid()
      ensures n == |Blobs()|
    {
      n := offsets.size - 1;
    }

    /** GetMetadata answers with the i-th accepted blob. */
    method GetMetadata(i: nat) returns (blob: Bytes)
      requires Valid() && i < |Blobs()|
      ensures blob == Blobs()[i]
    {
      hide Room, Pow2, Block, Pos, At, Table, Cut, Flat, Holds, Ascending, Cuts;
      ghost var table := offsets.Contents();
      BlobInPart(table, holder, newdata, count, i);
      var startoff := offsets.Get(i);
      var end := offsets.Get(i + 1);
      if i < count {
        assert startoff == table[i] && end == table[i + 1];
        blob := holder[startoff..end];
      } else {
        var base := offsets.Get(count);
        assert startoff == table[i] && end == table[i + 1] && base == |holder|;
        blob := newdata[startoff - base..end - base];
      }
    }

    /** Add appends the blob, or changes nothing when the offset table refuses it. */
    method Add(data: Bytes)
      requires Valid() && |holder| + |newdata| + |data| < LONG && offsets.size + 1 < LONG
      modifies this`newdata, offsets`blocks, offsets`size
      ensures Valid()
      ensures Blobs() == AddTo(old(Blobs()), data, offsets.maxSize)
      ensures offsets.maxSize == old(offsets.maxSize)
      ensures old(offsets.WithinReservation()) && offsets.maxSize >= 1 ==> offsets.WithinReservation()
    {
      hide Room, Pow2, Block, Pos, At, Cut, Cuts, Flat, Holds, Ascending, Minus64, Table;
      ghost var was, pending := offsets.Contents(), newdata;
      BlobAdded(was, holder, newdata, data);
      newdata := newdata + data;
      var last := offsets.Back();
      assert last == was[|was| - 1];
      var ok := offsets.PushBack(last + |data|);
      if ok {
        assert offsets.Contents() == was + [was[|was| - 1] + |data|];
      } else {
        DropBack(pending, data);
        newdata := newdata[..|newdata| - |data|];
        assert newdata == pending && offsets.Contents() == was;
      }
    }

    /** SaveMetadata to two streams: the count and every offset, then the two buffers. */
    method SaveMetadata() returns (index: seq<nat>, meta: Bytes)
      requires Valid()
      ensures |index| >= 1 && index[0] == |Blobs()| && |index| == |Blobs()| + 2
      ensures Cuts(index[1..], meta) && Cut(index[1..], meta) == Blobs()
      ensures |meta| == |holder| + |newdata|
    {
      hide Room, Pow2, Block, Pos, At, Cut, Flat, Holds, Ascending;
      var n := Count();
      index := [n];
      var i := 0;
      while i <= n
        invariant 0 <= i <= n + 1 && |index| == i + 1 && index[0] == n
        invariant index[1..] == offsets.Contents()[..i]
      {
        var off := offsets.Get(i);
        index := index + [off];
        i := i + 1;
      }
      assert index[1..] == offsets.Contents();
      var base := offsets.Get(count);
      meta := holder[..base];
      if |newdata| > 0 {
        var end := offsets.Get(n);
        meta := meta + newdata[..end - base];
      }
      assert meta == holder + newdata;
    }

    /** Init from two streams, taking `wanted` blobs from `start` on (all of them when `wanted` is negative or too
        large).  Of the index it reads the count and that many offsets and one, of the metadata only the slice; streams
        shorter than that are reported, longer ones are not looked at. */
    method Init(index: seq<nat>, meta: Bytes, blocksize: nat, capacity: nat, start: nat, wanted: int)
      returns (ok: bool)
      requires 1 <= blocksize <= MAX_BLOCK && capacity < LONG
      requires |index| < LONG && |meta| < LONG && forall i :: 0 <= i < |index| ==> index[i] < LONG
      modifies this
      ensures (index == [] || |index| < index[0] + 2) ==> !ok
      ensures index != [] && |index| >= index[0] + 2 ==>
                var first, taken := First(index[0], start), Taken(index[0], start, wanted);
                var window := Window(index, 1 + first, taken);
                Ascending(window) ==>
                  && (ok <==> window[taken] <= |meta|)
                  && (ok ==> && fresh(offsets) && offsets.Valid() && Cuts(offsets.Contents(), holder)
                             && Cut(offsets.Contents(), holder) == Pieces(window, meta)
                             && count == taken && newdata == old(newdata))
                  && (ok && newdata == [] ==> Valid() && Blobs() == Pieces(window, meta))
    {
      hide Room, Pow2, Block, Pos, At, Cut, Cuts, Flat, Holds, Ascending, Minus64, Shift, Pieces, First, Taken;
      if index != [] { FirstAndTaken(index[0], start, wanted); }
      if index == [] {
        return false;
      }
      var total := index[0];
      var first := if start > total then total else start;
      var taken := if wanted < 0 || wanted > total - first then total - first else wanted;
      if |index| < total + 2 {
        return false;
      }
      // The offsets follow the count, so the first one taken is index[1 + first].
      var fine, table, part := LoadSlice(index, meta, blocksize, capacity, 1 + first, taken);
      if !fine {
        return false;
      }
      offsets := table;
      holder := part;
      count := taken;
      assert newdata == [] ==> holder + newdata == holder;
      return true;
    }
  }

  /** Rebases `taken` + 1 offsets from `at` on into a new table and reads the bytes they span. */
  method LoadSlice(index: seq<nat>, meta: Bytes, blocksize: nat, capacity: nat, at: nat, taken: nat)
    returns (ok: bool, table: LockFreeVector<nat>, part: Bytes)
    requires 1 <= blocksize <= MAX_BLOCK && capacity < LONG && at + taken < |index| < LONG
    requires forall i :: 0 <= i < |index| ==> index[i] < LONG
    ensures fresh(table) && table.Valid() && |table.Contents()| == taken + 1 && |part| <= |meta|
    ensures var window := Window(index, at, taken);
            Ascending(window) ==>
              && (ok <==> window[taken] <= |meta|)
              && (ok ==> && Cuts(table.Contents(), part) && table.Contents()[taken] == |part|
                         && Cut(table.Contents(), part) == Pieces(window, meta))
  {
    hide Room, Pow2, Block, Pos, At, Cut, Cuts, Flat, Holds, Ascending, Minus64, Shift, Pieces;
    var sliced := SliceOffsets(index, at, taken);
    SliceFacts(Window(index, at, taken), meta, sliced);
    table := BuildTable(sliced, blocksize, capacity);
    var offset, length := index[at], sliced[taken];
    ok := offset + length <= |meta|;
    part := if ok then meta[offset..offset + length] else [];
  }

  /** The first blob taken and the number of blobs, clamped to the `n` there are. */
  function First(n: nat, start: nat): (first: nat)
    ensures first <= n
  {
    Min(start, n)
  }

  function Taken(n: nat, start: nat, wanted: int): (taken: nat)
    ensures First(n, start) + taken <= n
  {
    var left := n - First(n, start);
    if wanted < 0 || wanted > left then left else wanted
  }

  lemma FirstAndTaken(n: nat, start: nat, wanted: int)
    ensures First(n, start) == if start > n then n else start
    ensures Taken(n, start, wanted)
         == if wanted < 0 || wanted > n - First(n, start) then n - First(n, start) else wanted
  {
  }

  /** `count` + 1 entries of a table. */
  ghost function Window(table: seq<nat>, start: nat, count: nat): (w: seq<nat>)
    requires start + count < |table|
    ensures |w| == count + 1 && forall i :: 0 <= i <= count ==> w[i] == table[start + i]
  {
    table[start..start + count + 1]
  }

  /** What consecutive offsets cut out of a buffer. */
  ghost function Pieces(window: seq<nat>, bytes: Bytes): (blobs: seq<Bytes>)
    requires |window| >= 1 && Ascending(window) && window[|window| - 1] <= |bytes|
    ensures |blobs| == |window| - 1 && forall i :: 0 <= i < |blobs| ==> blobs[i] == bytes[window[i]..window[i + 1]]
  {
    seq(|window| - 1, i requires 0 <= i < |window| - 1 => bytes[window[i]..window[i + 1]])
  }

  lemma PiecesOfCut(offsets: seq<nat>, bytes: Bytes, first: nat, taken: nat)
    requires Cuts(offsets, bytes) && first + taken < |offsets|
    ensures var window := Window(offsets, first, taken);
            && Ascending(window) && window[taken] <= |bytes|
            && Pieces(window, bytes) == Cut(offsets, bytes)[first..first + taken]
  {
    hide Ascending;
    Rises(offsets, first + taken, |offsets| - 1);
    WindowRises(offsets, first, taken);
  }

  lemma WindowRises(offsets: seq<nat>, first: nat, taken: nat)
    requires Ascending(offsets) && first + taken < |offsets|
    ensures Ascending(Window(offsets, first, taken))
  {
  }

  /** Saving and loading a slice: the copy answers exactly like that slice of the original. */
  method SaveThenInit(original: MemMetadataSet, blocksize: nat, capacity: nat, start: nat, wanted: int)
    returns (copy: MemMetadataSet)
    requires original.Valid() && 1 <= blocksize <= MAX_BLOCK && capacity < LONG && original.offsets.size + 1 < LONG
    ensures fresh(copy) && copy.Valid()
    ensures var n := |original.Blobs()|;
            var first, taken := First(n, start), Taken(n, start, wanted);
            copy.Blobs() == original.Blobs()[first..first + taken]
  {
    hide Room, Pow2, Block, Pos, At, Cut, Flat, Holds, Cuts, Ascending, Pieces, Window;
    var index, meta := original.SaveMetadata();
    copy := new MemMetadataSet(blocksize, capacity);
    forall i | 0 <= i < |index| ensures index[i] < LONG {
      if i > 0 {
        OffsetsWithin(index[1..], meta, i - 1);
      }
    }
    ghost var first, taken := First(index[0], start), Taken(index[0], start, wanted);
    PiecesOfCut(index[1..], meta, first, taken);
    assert Window(index[1..], first, taken) == Window(index, 1 + first, taken);
    var ok := copy.Init(index, meta, blocksize, capacity, start, wanted);
  }

  /** A fresh table always accepts its first assign: a request longer than the maximum slips
      through the wrapped capacity test. */
  method BuildTable(sliced: seq<nat>, blocksize: nat, capacity: nat) returns (table: LockFreeVector<nat>)
    requires 1 <= blocksize <= MAX_BLOCK && capacity < LONG && |sliced| < LONG
    ensures fresh(table) && table.Valid() && table.Contents() == sliced && table.maxSize == capacity
  {
    hide Room, Pow2, Block, Pos, At, Flat, Holds;
    table := new LockFreeVector<nat>(blocksize, capacity);
    var filled := table.Assign(sliced);
    assert filled && [] + sliced == sliced;
  }

  lemma SliceFacts(window: seq<nat>, meta: Bytes, sliced: seq<nat>)
    requires |window| == |sliced| >= 1
    requires Ascending(window) ==> sliced == Shift(window, 0, |window| - 1)
    ensures Ascending(window) ==> window[0] + sliced[|sliced| - 1] == window[|window| - 1]
    ensures Ascending(window) && window[|window| - 1] <= |meta| ==>
              && window[0] <= window[|window| - 1]
              && var part := meta[window[0]..window[|window| - 1]];
                 Cuts(sliced, part) && sliced[|sliced| - 1] == |part| && Cut(sliced, part) == Pieces(window, meta)
  {
    hide Cut;
    var n := |window| - 1;
    if Ascending(window) {
      ShiftAscends(window, 0, n);
      assert window[0] <= window[n];
      if window[n] <= |meta| {
        var part := meta[window[0]..window[n]];
        forall i | 0 <= i < n ensures Cut(sliced, part)[i] == Pieces(window, meta)[i] {
          assert window[0] <= window[i] <= window[i + 1] <= window[n];
          assert sliced[i] == window[i] - window[0] && sliced[i + 1] == window[i + 1] - window[0];
          SliceOfSlice(meta, window[0], window[n], window[i], window[i + 1]);
        }
      }
    }
  }

  /** The rebasing loop, with 64-bit subtraction. */
  method SliceOffsets(tmp: seq<nat>, start: nat, count: nat) returns (r: seq<nat>)
    requires start + count < |tmp| && forall i :: 0 <= i < |tmp| ==> tmp[i] < LONG
    ensures |r| == count + 1
    ensures forall i :: 0 <= i <= count ==> r[i] == Minus64(tmp[start + i], tmp[start])
    ensures var window := Window(tmp, start, count); Ascending(window) ==> r == Shift(window, 0, count)
  {
    r := [];
    var i := 0;
    while i <= count
      invariant 0 <= i <= count + 1 && |r| == i
      invariant forall j :: 0 <= j < i ==> r[j] == Minus64(tmp[start + j], tmp[start])
    {
      r := r + [Minus64(tmp[start + i], tmp[start])];
      i := i + 1;
    }
    ghost var window := Window(tmp, start, count);
    if Ascending(window) {
      forall j | 0 <= j <= count ensures r[j] == window[j] - window[0] {
        assert window[0] <= window[j];
      }
    }
  }

  // ---- File-backed set ----

  /** What a file set's fields have to satisfy for its offsets to make sense. */
  ghost predicate Laid(offsets: seq<nat>, count: nat, newdata: Bytes) {
    && count < |offsets| && offsets[0] == 0 && Ascending(offsets)
    && offsets[|offsets| - 1] == offsets[count] + |newdata|
  }

  /** The answer to GetMetadata(i), from the file or from the pending bytes.  None: the file is too short, and what the
      answer's buffer holds is not determined. */
  ghost function AnswerAt(offsets: seq<nat>, count: nat, file: Bytes, newdata: Bytes, i: nat): Option<Bytes>
    requires Laid(offsets, count, newdata) && i < |offsets| - 1
  {
    var lo, hi := offsets[i], offsets[i + 1];
    if i < count then
      if lo == hi then Some([]) else if hi <= |file| then Some(file[lo..hi]) else None
    else Some(newdata[lo - offsets[count]..hi - offsets[count]])
  }

  class FileMetadataSet {
    var count: nat               // blobs answered from the file
    var file: Bytes
    var newdata: Bytes
    var offsets: seq<nat>

    ghost predicate Sound()
      reads this
    {
      Laid(offsets, count, newdata)
    }

    /** The file may be longer than its offsets say; that matters when it is compacted. */
    ghost predicate Valid()
      reads this
    {
      Sound() && offsets[count] <= |file|
    }

    ghost function Blobs(): seq<Bytes>
      requires Valid()
      reads this
    {
      Cut(offsets, file[..offsets[count]] + newdata)
    }

    /** Opening a file and its table; the file is not looked at, and may be too short. */
    constructor (file: Bytes, offsets: seq<nat>)
      requires |offsets| >= 1 && offsets[0] == 0 && Ascending(offsets)
      ensures Sound() && this.file == file && this.offsets == offsets && newdata == [] && count == |offsets| - 1
      ensures Valid() <==> offsets[|offsets| - 1] <= |file|
    {
      this.count, this.file, this.newdata, this.offsets := |offsets| - 1, file, [], offsets;
    }

    method GetMetadata(i: nat) returns (blob: Option<Bytes>)
      requires Sound() && i < |offsets| - 1
      ensures blob == AnswerAt(offsets, count, file, newdata, i)
      ensures Valid() ==> i < |Blobs()| && blob == Some(Blobs()[i])
    {
      hide Cut;
      if Valid() {
        var low := file[..offsets[count]];
        BlobInPart(offsets, low, newdata, count, i);
        assert i < count ==> low[offsets[i]..offsets[i + 1]] == file[offsets[i]..offsets[i + 1]];
      }
      assert offsets[i] <= offsets[i + 1] && (i >= count ==> offsets[count] <= offsets[i]);
      var bytes := offsets[i + 1] - offsets[i];
      if i < count {
        blob := if bytes == 0 then Some([]) else if offsets[i + 1] <= |file| then Some(file[offsets[i]..offsets[i + 1]]) else None;
      } else {
        blob := Some(newdata[offsets[i] - offsets[count]..offsets[i] - offsets[count] + bytes]);
      }
    }

    method Add(data: Bytes)
      requires Sound()
      modifies this`newdata, this`offsets
      ensures Sound() && newdata == old(newdata) + data && offsets == old(offsets) + [old(offsets[|offsets| - 1]) + |data|]
      ensures old(Valid()) ==> Valid() && Blobs() == old(Blobs()) + [data]
    {
      hide Cut;
      if Valid() {
        ghost var bytes := file[..offsets[count]] + newdata;
        CutExtends(offsets, bytes, data);
        assert file[..offsets[count]] + (newdata + data) == bytes + data;
      }
      newdata := newdata + data;
      offsets := offsets + [offsets[|offsets| - 1] + |data|];
    }

    /** Saving, under the shared lock: nothing changes. */
    method Save() returns (index: seq<nat>, meta: Bytes)
      requires Sound()
      ensures index == [|offsets| - 1] + offsets && meta == file + newdata
    {
      index := [|offsets| - 1] + offsets;
      meta := file;
      if |newdata| > 0 {
        meta := meta + newdata;
      }
    }

    /** Compacting, under the unique lock: the saved file takes the place of the old one, and everything counts as saved. */
    method Compact(saved: Bytes)
      requires Sound()
      modifies this
      ensures Sound() && newdata == [] && count == |offsets| - 1 && offsets == old(offsets) && file == saved
    {
      file := saved;
      count := |offsets| - 1;
      newdata := [];
    }

    /** Save and compact, with the blobs that other threads add between the two locks.  Every answer is kept if and only
        if the bytes pending at the end are the first ones behind the last offset of the new file. */
    method SaveAndCompact(between: seq<Bytes>)
      requires Valid()
      modifies this
      ensures Sound() && newdata == [] && offsets == Extended(old(offsets), between, |between|) && count == |offsets| - 1
      ensures file == old(file) + old(newdata)
      ensures KeepsAnswers(old(offsets), old(count), old(file), old(newdata), between)
         <==> old(newdata) + Joined(between, |between|) <= old(file[offsets[count]..]) + old(newdata)
      ensures between == [] && old(|file| == offsets[count] || newdata == []) ==> Valid() && Blobs() == old(Blobs())
    {
      hide Cut, KeepsAnswers, Ascending;
      ghost var bytes := file[..offsets[count]] + newdata;
      var index, meta := Save();
      var i := 0;
      while i < |between|
        invariant 0 <= i <= |between| && Sound() && file == old(file)
        invariant offsets == Extended(old(offsets), between, i)
      {
        Add(between[i]);
        i := i + 1;
      }
      Compact(meta);
      KeptExactlyWhenPrefix(old(offsets), old(count), old(file), old(newdata), between);
      if between == [] && old(|file| == offsets[count] || newdata == []) {
        assert offsets == old(offsets);
        assert file[..offsets[count]] + newdata == bytes;
      }
    }
  }

  // ---- What compaction keeps ----

  /** The offset table after adding the first `n` blobs. */
  ghost function Extended(offsets: seq<nat>, blobs: seq<Bytes>, n: nat): (r: seq<nat>)
    requires |offsets| >= 1 && n <= |blobs|
    ensures |r| == |offsets| + n && forall k :: 0 <= k < |offsets| ==> r[k] == offsets[k]
  {
    if n == 0 then offsets
    else
      var before := Extended(offsets, blobs, n - 1);
      before + [before[|before| - 1] + |blobs[n - 1]|]
  }

  ghost function Joined(blobs: seq<Bytes>, n: nat): Bytes
    requires n <= |blobs|
  {
    if n == 0 then [] else Joined(blobs, n - 1) + blobs[n - 1]
  }

  ghost predicate AllEmpty(blobs: seq<Bytes>) {
    forall i :: 0 <= i < |blobs| ==> blobs[i] == []
  }

  lemma {:induction false} ExtendedLaid(offsets: seq<nat>, count: nat, newdata: Bytes, blobs: seq<Bytes>, n: nat)
    requires Laid(offsets, count, newdata) && n <= |blobs|
    ensures var more := Extended(offsets, blobs, n);
            && Laid(more, count, newdata + Joined(blobs, n)) && Laid(more, |more| - 1, [])
            && more[|more| - 1] == offsets[|offsets| - 1] + |Joined(blobs, n)|
  {
    if n > 0 {
      ExtendedLaid(offsets, count, newdata, blobs, n - 1);
    }
  }

  /** Saving, adding `between`, and compacting answers as if nothing had been compacted. */
  ghost predicate KeepsAnswers(offsets: seq<nat>, count: nat, file: Bytes, newdata: Bytes, between: seq<Bytes>)
    requires Laid(offsets, count, newdata)
  {
    ExtendedLaid(offsets, count, newdata, between, |between|);
    SameAnswers(Extended(offsets, between, |between|), count, file, newdata, newdata + Joined(between, |between|))
  }

  /** With `pending` bytes behind a file, and with the file compacted before the later ones came. */
  ghost predicate SameAnswers(offsets: seq<nat>, count: nat, file: Bytes, newdata: Bytes, pending: Bytes)
    requires Laid(offsets, count, pending) && Laid(offsets, |offsets| - 1, [])
  {
    forall i :: 0 <= i < |offsets| - 1 ==>
      AnswerAt(offsets, |offsets| - 1, file + newdata, [], i) == AnswerAt(offsets, count, file, pending, i)
  }

  /** A blob added between the locks: its offsets lie past everything saved. */
  lemma {:induction false} OffsetOfAdded(offsets: seq<nat>, count: nat, newdata: Bytes, between: seq<Bytes>, j: nat, n: nat)
    requires Laid(offsets, count, newdata) && j < n <= |between|
    ensures var more, at := Extended(offsets, between, n), |offsets| - 1 + j;
            more[at + 1] == more[at] + |between[j]| && more[at] >= offsets[|offsets| - 1]
  {
    ExtendedLaid(offsets, count, newdata, between, n - 1);
    if j < n - 1 {
      OffsetOfAdded(offsets, count, newdata, between, j, n - 1);
    }
  }

  /** Its answer is lost if it holds anything. */
  lemma AddedIsLost(offsets: seq<nat>, count: nat, file: Bytes, newdata: Bytes, between: seq<Bytes>, j: nat)
    requires Laid(offsets, count, newdata) && |file| == offsets[count] && j < |between| && between[j] != []
    ensures var more := Extended(offsets, between, |between|);
            && Laid(more, |more| - 1, []) && AnswerAt(more, |more| - 1, file + newdata, [], |offsets| - 1 + j) == None
            && Laid(more, count, newdata + Joined(between, |between|))
            && AnswerAt(more, count, file, newdata + Joined(between, |between|), |offsets| - 1 + j).Some?
            && !KeepsAnswers(offsets, count, file, newdata, between)
  {
    hide Ascending;
    ExtendedLaid(offsets, count, newdata, between, |between|);
    OffsetOfAdded(offsets, count, newdata, between, j, |between|);
  }

  /** An answer from the file stays in its place. */
  lemma FiledIsKept(offsets: seq<nat>, count: nat, file: Bytes, newdata: Bytes, pending: Bytes, i: nat)
    requires Laid(offsets, count, pending) && Laid(offsets, |offsets| - 1, []) && offsets[count] <= |file| && i < count
    ensures AnswerAt(offsets, |offsets| - 1, file + newdata, [], i) == AnswerAt(offsets, count, file, pending, i)
  {
    hide Ascending;
    Rises(offsets, i, i + 1);
    Rises(offsets, i + 1, count);
    assert (file + newdata)[offsets[i]..offsets[i + 1]] == file[offsets[i]..offsets[i + 1]];
  }

  /** A pending answer, before and after: a stretch of the pending bytes, and the same stretch of what follows the last
      offset in the new file, if it is that long. */
  lemma PendingAnswer(offsets: seq<nat>, count: nat, file: Bytes, newdata: Bytes, pending: Bytes, i: nat)
    requires Laid(offsets, count, pending) && Laid(offsets, |offsets| - 1, []) && offsets[count] <= |file|
    requires count <= i < |offsets| - 1
    ensures var lo, hi, tail := offsets[i] - offsets[count], offsets[i + 1] - offsets[count], file[offsets[count]..] + newdata;
            && 0 <= lo <= hi <= |pending| && AnswerAt(offsets, count, file, pending, i) == Some(pending[lo..hi])
            && AnswerAt(offsets, |offsets| - 1, file + newdata, [], i)
               == if lo == hi then Some([]) else if hi <= |tail| then Some(tail[lo..hi]) else None
  {
    hide Ascending;
    Rises(offsets, count, i);
    Rises(offsets, i, i + 1);
    Rises(offsets, i + 1, |offsets| - 1);
    var base := offsets[count];
    assert file + newdata == file[..base] + (file[base..] + newdata);
    Behind(file[..base], file[base..] + newdata, offsets[i], offsets[i + 1]);
  }

  lemma Behind(low: Bytes, high: Bytes, lo: nat, hi: nat)
    requires |low| <= lo <= hi
    ensures hi <= |low| + |high| ==> (low + high)[lo..hi] == high[lo - |low|..hi - |low|]
  {
  }

  /** Every pending byte belongs to a blob. */
  lemma {:induction false} BlobOfByte(offsets: seq<nat>, count: nat, k: nat, n: nat) returns (i: nat)
    requires count <= n < |offsets| && offsets[count] <= k < offsets[n]
    ensures count <= i < n && offsets[i] <= k < offsets[i + 1]
    decreases n
  {
    i := n - 1;
    if k < offsets[n - 1] { i := BlobOfByte(offsets, count, k, n - 1); }
  }

  lemma ByteMatches(pending: Bytes, tail: Bytes, lo: nat, hi: nat, k: nat)
    requires lo <= k < hi <= |pending| && hi <= |tail| && pending[lo..hi] == tail[lo..hi]
    ensures pending[k] == tail[k]
  {
    assert pending[lo..hi][k - lo] == tail[lo..hi][k - lo];
  }

  /** All answers of a table are kept exactly when the pending bytes begin what follows the last offset. */
  lemma TableKept(offsets: seq<nat>, count: nat, file: Bytes, newdata: Bytes, pending: Bytes)
    requires Laid(offsets, count, pending) && Laid(offsets, |offsets| - 1, []) && offsets[count] <= |file|
    ensures SameAnswers(offsets, count, file, newdata, pending) <==> pending <= file[offsets[count]..] + newdata
  {
    hide Ascending, AnswerAt;
    var tail := file[offsets[count]..] + newdata;
    if pending <= tail {
      forall i: nat | i < |offsets| - 1
        ensures AnswerAt(offsets, |offsets| - 1, file + newdata, [], i) == AnswerAt(offsets, count, file, pending, i)
      {
        if i < count {
          FiledIsKept(offsets, count, file, newdata, pending, i);
        } else {
          PendingAnswer(offsets, count, file, newdata, pending, i);
          PrefixSlices(pending, tail, offsets[i] - offsets[count], offsets[i + 1] - offsets[count]);
        }
      }
    } else {
      var k :| 0 <= k < |pending| && (k < |tail| ==> pending[k] != tail[k]);
      var i := BlobOfByte(offsets, count, offsets[count] + k, |offsets| - 1);
      PendingAnswer(offsets, count, file, newdata, pending, i);
      if AnswerAt(offsets, |offsets| - 1, file + newdata, [], i) == AnswerAt(offsets, count, file, pending, i) {
        ByteMatches(pending, tail, offsets[i] - offsets[count], offsets[i + 1] - offsets[count], k);
      }
    }
  }

  lemma PrefixSlices(pending: Bytes, tail: Bytes, lo: nat, hi: nat)
    requires pending <= tail && lo <= hi <= |pending|
    ensures hi <= |tail| && pending[lo..hi] == tail[lo..hi] && (lo == hi ==> pending[lo..hi] == [])
  {
  }

  /** Exactly when compaction keeps every answer, whatever the file holds beyond its last offset, is pending, or is added
      between the locks. */
  lemma KeptExactlyWhenPrefix(offsets: seq<nat>, count: nat, file: Bytes, newdata: Bytes, between: seq<Bytes>)
    requires Laid(offsets, count, newdata) && offsets[count] <= |file|
    ensures KeepsAnswers(offsets, count, file, newdata, between)
       <==> newdata + Joined(between, |between|) <= file[offsets[count]..] + newdata
  {
    ExtendedLaid(offsets, count, newdata, between, |between|);
    assert Extended(offsets, between, |between|)[count] == offsets[count];
    hide Ascending, SameAnswers, Extended, Joined, Laid;
    TableKept(Extended(offsets, between, |between|), count, file, newdata, newdata + Joined(between, |between|));
  }

  lemma {:induction false} JoinedEmpty(blobs: seq<Bytes>, n: nat)
    requires n <= |blobs|
    ensures Joined(blobs, n) == [] <==> forall i :: 0 <= i < n ==> blobs[i] == []
  {
    if n > 0 { JoinedEmpty(blobs, n - 1); }
  }

  /** So, with the file ending at its last offset, when nothing but empty blobs is added between the locks. */
  lemma KeptExactlyWhenEmpty(offsets: seq<nat>, count: nat, file: Bytes, newdata: Bytes, between: seq<Bytes>)
    requires Laid(offsets, count, newdata) && |file| == offsets[count]
    ensures KeepsAnswers(offsets, count, file, newdata, between) <==> AllEmpty(between)
  {
    hide KeepsAnswers, Ascending, Joined;
    KeptExactlyWhenPrefix(offsets, count, file, newdata, between);
    JoinedEmpty(between, |between|);
    assert file[offsets[count]..] + newdata == newdata;
  }

  lemma Rises(offsets: seq<nat>, i: nat, j: nat)
    requires Ascending(offsets) && i <= j < |offsets|
    ensures offsets[i] <= offsets[j]
  {
  }

  function Other(b: Byte): Byte {
    if b == 0 then 1 else 0
  }

  /** And for every blob that may be pending, when the file ends at its last offset. */
  lemma CompactionCondition(offsets: seq<nat>, file: Bytes)
    requires |offsets| >= 1 && offsets[0] == 0 && Ascending(offsets) && offsets[|offsets| - 1] <= |file|
    ensures (forall blob: Bytes :: PendingKept(offsets, file, blob)) <==> |file| == offsets[|offsets| - 1]
  {
    hide Ascending;
    var last := offsets[|offsets| - 1];
    if |file| > last {
      var blob: Bytes := [Other(file[last])];
      CompactionBreaks(offsets, file, blob);
      assert !PendingKept(offsets, file, blob);
    } else {
      forall blob: Bytes ensures PendingKept(offsets, file, blob) {
        KeptExactlyWhenEmpty(WithOne(offsets, blob), |offsets| - 1, file, blob, []);
      }
    }
  }

  /** The table with one blob pending. */
  ghost function WithOne(offsets: seq<nat>, blob: Bytes): (more: seq<nat>)
    requires |offsets| >= 1 && offsets[0] == 0 && Ascending(offsets)
    ensures Laid(more, |offsets| - 1, blob)
  {
    offsets + [offsets[|offsets| - 1] + |blob|]
  }

  /** One blob pending, nothing added between the locks. */
  ghost predicate PendingKept(offsets: seq<nat>, file: Bytes, blob: Bytes)
    requires |offsets| >= 1 && offsets[0] == 0 && Ascending(offsets)
  {
    KeepsAnswers(WithOne(offsets, blob), |offsets| - 1, file, blob, [])
  }

  lemma CompactionBreaks(offsets: seq<nat>, file: Bytes, blob: Bytes)
    requires |offsets| >= 1 && offsets[0] == 0 && Ascending(offsets) && offsets[|offsets| - 1] < |file|
    requires blob == [Other(file[offsets[|offsets| - 1]])]
    ensures !PendingKept(offsets, file, blob)
  {
    hide Ascending, KeepsAnswers;
    var last := offsets[|offsets| - 1];
    KeptExactlyWhenPrefix(WithOne(offsets, blob), |offsets| - 1, file, blob, []);
    assert blob + Joined([], 0) == blob;
    assert (file[last..] + blob)[0] == file[last];
  }
}
