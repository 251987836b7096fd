/** The lock-free vector's block table: elements live in blocks of a power-of-two size, and
    an index is split into a block number and a position by shift and mask. */
module ChunkedVector {
  import opened Common
  import opened Bits

  /** The block size is a 32-bit shift of one. */
  const MAX_BLOCK: nat := 0x4000_0000

  // ---- Index arithmetic ----

  /** The block of index i and its position there, for blocks of `b` elements. */
  function Block(i: nat, b: nat): nat
    requires b >= 1
  {
    i / b
  }

  function Pos(i: nat, b: nat): (p: nat)
    requires b >= 1
    ensures p < b
  {
    i % b
  }

  lemma Split(i: nat, b: nat)
    requires b >= 1
    ensures Block(i, b) * b + Pos(i, b) == i
  {
  }

  lemma NextMultiple(a: nat, c: nat, b: nat)
    requires a < c
    ensures a * b + b <= c * b
  {
    assert (c - a - 1) * b >= 0;
    assert c * b == a * b + b + (c - a - 1) * b;
  }

  lemma SplitUnique(i: nat, b: nat, q: nat, r: nat)
    requires b >= 1 && r < b && q * b + r == i
    ensures Block(i, b) == q && Pos(i, b) == r
  {
    hide Block, Pos;
    Split(i, b);
    if Block(i, b) < q {
      NextMultiple(Block(i, b), q, b);
    } else if q < Block(i, b) {
      NextMultiple(q, Block(i, b), b);
    }
  }

  /** Within a block, indices move with positions. */
  lemma SameBlock(i: nat, j: nat, b: nat)
    requires b >= 1 && Pos(i, b) + j < b
    ensures Block(i + j, b) == Block(i, b) && Pos(i + j, b) == Pos(i, b) + j
  {
    Split(i, b);
    SplitUnique(i + j, b, Block(i, b), Pos(i, b) + j);
  }

  lemma BlockBelow(i: nat, n: nat, b: nat)
    requires b >= 1
    ensures i < n * b <==> Block(i, b) < n
  {
    hide Block, Pos;
    Split(i, b);
    if Block(i, b) < n {
      NextMultiple(Block(i, b), n, b);
    } else if n < Block(i, b) {
      NextMultiple(n, Block(i, b), b);
    }
  }

  /** The shift and the mask by which the code splits an index. */
  lemma ShiftAndMask(i: nat, e: nat)
    ensures Shr(i, e) == Block(i, Pow2(e)) && And(i, Pow2(e) - 1) == Pos(i, Pow2(e))
  {
    ShiftIsQuotient(i, e);
    MaskIsRemainder(i, e);
  }

  /** ceil(log2(n)): the smallest exponent whose power reaches `n`. */
  method CeilLog2(n: nat) returns (e: nat)
    requires n >= 1
    ensures n <= Pow2(e) && (e > 0 ==> Pow2(e - 1) < n)
  {
    e := 0;
    while Pow2(e) < n
      invariant e > 0 ==> Pow2(e - 1) < n
      decreases n - Pow2(e)
    {
      e := e + 1;
    }
  }

  // ---- A block table read as one sequence ----

  ghost predicate Table<T>(blocks: seq<seq<T>>, b: nat) {
    b >= 1 && forall k :: 0 <= k < |blocks| ==> |blocks[k]| == b
  }

  ghost predicate Holds<T>(blocks: seq<seq<T>>, b: nat, n: nat) {
    Table(blocks, b) && n <= |blocks| * b
  }

  ghost function At<T>(blocks: seq<seq<T>>, b: nat, n: nat, i: nat): T
    requires Holds(blocks, b, n) && i < n
  {
    BlockBelow(i, |blocks|, b);
    blocks[Block(i, b)][Pos(i, b)]
  }

  ghost function Flat<T>(blocks: seq<seq<T>>, b: nat, n: nat): (s: seq<T>)
    requires Holds(blocks, b, n)
    ensures |s| == n && forall i :: 0 <= i < n ==> s[i] == At(blocks, b, n, i)
  {
    seq(n, i requires 0 <= i < n => At(blocks, b, n, i))
  }

  /** memcpy into one block. */
  function Patch<T>(block: seq<T>, pos: nat, data: seq<T>): (r: seq<T>)
    requires pos + |data| <= |block|
    ensures |r| == |block|
    ensures forall p :: 0 <= p < |r| ==> r[p] == if pos <= p < pos + |data| then data[p - pos] else block[p]
  {
    block[..pos] + data + block[pos + |data|..]
  }

  /** Writing a run that stays inside the block of index `n` appends it to the sequence. */
  lemma AppendRun<T>(blocks: seq<seq<T>>, b: nat, n: nat, data: seq<T>)
    requires Holds(blocks, b, n) && Block(n, b) < |blocks| && Pos(n, b) + |data| <= b
    ensures var k := Block(n, b);
            var now := blocks[k := Patch(blocks[k], Pos(n, b), data)];
            && Holds(now, b, n + |data|)
            && Flat(now, b, n + |data|) == Flat(blocks, b, n) + data
  {
    hide Pow2, Shr, And, Block, Pos, Patch;
    var k, p := Block(n, b), Pos(n, b);
    var now := blocks[k := Patch(blocks[k], p, data)];
    Split(n, b);
    NextMultiple(k, |blocks|, b);
    assert Holds(now, b, n + |data|);
    forall i | 0 <= i < n ensures At(now, b, n + |data|, i) == At(blocks, b, n, i) {
      BlockBelow(i, |blocks|, b);
      BeforeRun(i, n, b);
    }
    forall j | 0 <= j < |data| ensures At(now, b, n + |data|, n + j) == data[j] {
      SameBlock(n, j, b);
    }
    var flat, joined := Flat(now, b, n + |data|), Flat(blocks, b, n) + data;
    forall i | 0 <= i < |flat| ensures flat[i] == joined[i] {
      if i >= n {
        assert At(now, b, n + |data|, n + (i - n)) == data[i - n];
      }
    }
  }

  /** Earlier indices of the same block have earlier positions. */
  lemma BeforeRun(i: nat, n: nat, b: nat)
    requires b >= 1 && i < n
    ensures Block(i, b) == Block(n, b) ==> Pos(i, b) < Pos(n, b)
  {
    Split(i, b);
    Split(n, b);
  }

  /** A fresh block at the end changes nothing that is read. */
  lemma AddBlock<T>(blocks: seq<seq<T>>, b: nat, n: nat, block: seq<T>)
    requires Holds(blocks, b, n) && |block| == b
    ensures Holds(blocks + [block], b, n) && Flat(blocks + [block], b, n) == Flat(blocks, b, n)
  {
    hide Block, Pos;
    assert (|blocks| + 1) * b == |blocks| * b + b;
    forall i | 0 <= i < n ensures At(blocks + [block], b, n, i) == At(blocks, b, n, i) {
      BlockBelow(i, |blocks|, b);
    }
  }

  lemma Shorten<T>(blocks: seq<seq<T>>, b: nat, n: nat, m: nat)
    requires Holds(blocks, b, n) && m <= n
    ensures Holds(blocks, b, m) && Flat(blocks, b, m) == Flat(blocks, b, n)[..m]
  {
  }

  /** Reading a run inside one block reads the sequence. */
  lemma ReadRun<T>(blocks: seq<seq<T>>, b: nat, n: nat, i: nat, count: nat)
    requires Holds(blocks, b, n) && i + count <= n && Pos(i, b) + count <= b && count > 0
    ensures Block(i, b) < |blocks|
    ensures blocks[Block(i, b)][Pos(i, b)..Pos(i, b) + count] == Flat(blocks, b, n)[i..i + count]
  {
    hide Block, Pos;
    BlockBelow(i, |blocks|, b);
    var run, flat := blocks[Block(i, b)][Pos(i, b)..Pos(i, b) + count], Flat(blocks, b, n);
    forall j | 0 <= j < count ensures run[j] == flat[i + j] {
      SameBlock(i, j, b);
      assert flat[i + j] == At(blocks, b, n, i + j);
    }
  }

  /** A full block is a slice of the sequence. */
  lemma ReadBlock<T>(blocks: seq<seq<T>>, b: nat, n: nat, i: nat)
    requires Holds(blocks, b, n) && i * b + b <= n
    ensures (i + 1) * b == i * b + b && i < |blocks| && blocks[i] == Flat(blocks, b, n)[i * b..i * b + b]
  {
    hide Block, Pos, Flat;
    SplitUnique(i * b, b, i, 0);
    ReadRun(blocks, b, n, i * b, b);
    assert blocks[i][0..b] == blocks[i];
  }

  /** Unsigned 64-bit subtraction. */
  function Minus64(a: nat, b: nat): (r: nat)
    requires a < LONG && b < LONG
    ensures b <= a ==> r == a - b
    ensures b > a ==> r == a - b + LONG
  {
    (a - b) % LONG
  }

  /** The capacity test `size > max - length`, with its wrap-around.  A request longer than
      the maximum passes it, and passes it wrongly, exactly when the wrapped bound is met. */
  lemma CapacityTest(size: nat, max: nat, length: nat)
    requires size < LONG && max < LONG && length < LONG
    ensures length <= max ==> (size <= Minus64(max, length) <==> size + length <= max)
    ensures length > max ==> (size <= Minus64(max, length) <==> size + length <= max + LONG)
  {
  }

  /** `reserved` blocks of `b` elements have room for n. */
  ghost predicate Room(n: nat, reserved: nat, b: nat) {
    n <= reserved * b
  }

  // ---- The vector ----

  class LockFreeVector<T(0)> {
    var size: nat
    var maxSize: nat
    var blockSizeEx: nat
    var blockSize: nat          // the mask: elements per block minus one
    var blocks: seq<seq<T>>
    var reserved: nat           // capacity reserved for the block table

    ghost predicate Valid()
      reads this
    {
      && Masked()
      && Holds(blocks, blockSize + 1, size)
      && maxSize < LONG && size < LONG
    }

    /** Blocks have a power-of-two size, as the mask needs. */
    ghost predicate Masked()
      reads this
    {
      blockSize + 1 == Pow2(blockSizeEx)
    }

    ghost function Contents(): (s: seq<T>)
      requires Valid()
      reads this
      ensures |s| == size
    {
      Flat(blocks, blockSize + 1, size)
    }

    /** The table was reserved for the maximum size and has not outgrown it, so adding a block
        never moves it under a reader. */
    ghost predicate WithinReservation()
      reads this
    {
      |blocks| <= reserved && Room(size, reserved, blockSize + 1) && Room(maxSize, reserved, blockSize + 1)
    }

    /** Construction followed by reserve.  The number of blocks is computed in a 64-bit word: the table is reserved for the
        maximum size if and only if the sum does not wrap. */
    constructor (blocksize: nat, maxsize: nat)
      requires 1 <= blocksize <= MAX_BLOCK && maxsize < LONG
      ensures Valid() && Contents() == [] && maxSize == maxsize && blocks == []
      ensures blocksize <= blockSize + 1 < 2 * blocksize + 1
      ensures WithinReservation() <==> maxsize + blockSize < LONG
    {
      size := 0;
      maxSize := maxsize;
      blocks := [];
      var ex := CeilLog2(blocksize);
      var b := Pow2(ex);
      blockSizeEx := ex;
      blockSize := b - 1;
      var sum := (maxsize + (b - 1)) % LONG;
      ShiftAndMask(sum, ex);
      reserved := Shr(sum, ex);
      new;
      Reservation(maxsize, b);
    }

    /** assign: refused when the wrapped capacity test fails, else appended as a whole. */
    method Assign(data: seq<T>) returns (ok: bool)
      requires Valid() && size + |data| < LONG
      modifies this`blocks, this`size
      ensures Valid()
      ensures ok <==> old(size) <= Minus64(maxSize, |data|)
      ensures Contents() == if ok then old(Contents()) + data else old(Contents())
      ensures !ok ==> blocks == old(blocks)
      ensures old(WithinReservation()) && |data| <= maxSize ==> WithinReservation()
    {
      hide Pow2, Shr, And, Block, Pos, Patch, Flat, Holds;
      if size > Minus64(maxSize, |data|) {
        return false;
      }
      CapacityTest(size, maxSize, |data|);
      var b := blockSize + 1;
      var written := 0;
      ghost var was := Contents();
      assert was + data[..0] == was;
      while written < |data|
        invariant 0 <= written <= |data|
        invariant Holds(blocks, b, size + written)
        invariant Flat(blocks, b, size + written) == was + data[..written]
        invariant old(WithinReservation()) && size + |data| <= reserved * b ==> |blocks| <= reserved
      {
        var currBlock := EnsureBlock(size + written, size + |data|);
        ShiftAndMask(size + written, blockSizeEx);
        var curBlockPos := And(size + written, blockSize);
        var toWrite := Min(b - curBlockPos, |data| - written);
        AppendRun(blocks, b, size + written, data[written..written + toWrite]);
        blocks := blocks[currBlock := Patch(blocks[currBlock], curBlockPos, data[written..written + toWrite])];
        assert data[..written] + data[written..written + toWrite] == data[..written + toWrite];
        written := written + toWrite;
      }
      size := size + written;
      return true;
    }

    /** Finds the block for index `n`, adding one when the table ends just before it. */
    method EnsureBlock(n: nat, limit: nat) returns (currBlock: nat)
      requires Masked() && Holds(blocks, blockSize + 1, n)
      modifies this`blocks
      ensures Holds(blocks, blockSize + 1, n) && currBlock == Block(n, blockSize + 1) < |blocks|
      ensures |blocks[currBlock]| == blockSize + 1
      ensures Flat(blocks, blockSize + 1, n) == old(Flat(blocks, blockSize + 1, n))
      ensures n < limit <= reserved * (blockSize + 1) && |old(blocks)| <= reserved ==> |blocks| <= reserved
    {
      hide Pow2, Shr, Block, Flat;
      var b := blockSize + 1;
      ShiftAndMask(n, blockSizeEx);
      currBlock := Shr(n, blockSizeEx);
      CurrentBlock(blocks, b, n, reserved, limit);
      if currBlock >= |blocks| {
        var storage := new T[b];
        AddBlock(blocks, b, n, storage[..]);
        blocks := blocks + [storage[..]];
      }
    }

    /** push_back: one element, refused when full. */
    method PushBack(data: T) returns (ok: bool)
      requires Valid() && size + 1 < LONG
      modifies this`blocks, this`size
      ensures Valid()
      ensures ok <==> old(size) <= Minus64(maxSize, 1)
      ensures Contents() == if ok then old(Contents()) + [data] else old(Contents())
      ensures !ok ==> blocks == old(blocks)
      ensures old(WithinReservation()) && 1 <= maxSize ==> WithinReservation()
    {
      hide Pow2, Shr, And, Block, Pos, Patch, Flat, Holds;
      if size > Minus64(maxSize, 1) {
        return false;
      }
      CapacityTest(size, maxSize, 1);
      var b := blockSize + 1;
      var currBlock := EnsureBlock(size, size + 1);
      AppendRun(blocks, b, size, [data]);
      ShiftAndMask(size, blockSizeEx);
      blocks := blocks[currBlock := Patch(blocks[currBlock], And(size, blockSize), [data])];
      size := size + 1;
      return true;
    }

    /** clear: forgets the elements and keeps the blocks for reuse. */
    method Clear()
      requires Valid()
      modifies this`size
      ensures Valid() && Contents() == []
      ensures old(WithinReservation()) ==> WithinReservation()
    {
      size := 0;
    }

    method Get(i: nat) returns (x: T)
      requires Valid() && i < size
      ensures x == Contents()[i]
    {
      hide Pow2, Shr, And;
      BlockBelow(i, |blocks|, blockSize + 1);
      ShiftAndMask(i, blockSizeEx);
      x := blocks[Shr(i, blockSizeEx)][And(i, blockSize)];
    }

    method Back() returns (x: T)
      requires Valid() && size > 0
      ensures x == Contents()[|Contents()| - 1]
    {
      x := Get(size - 1);
    }

    /** copy: a range gathered block by block. */
    method Copy(offset: nat, length: nat) returns (r: seq<T>)
      requires Valid() && offset + length <= size
      ensures r == Contents()[offset..offset + length]
    {
      hide Pow2, Shr, And, Block, Pos, Flat, Holds;
      var b := blockSize + 1;
      r := [];
      var copied := 0;
      while copied < length
        invariant 0 <= copied <= length
        invariant r == Contents()[offset..offset + copied]
      {
        ShiftAndMask(offset + copied, blockSizeEx);
        var blockOffset := And(offset + copied, blockSize);
        var toCopy := Min(b - blockOffset, length - copied);
        ReadRun(blocks, b, size, offset + copied, toCopy);
        TableOf(blocks, b, size);
        r := r + blocks[Shr(offset + copied, blockSizeEx)][blockOffset..blockOffset + toCopy];
        assert Contents()[offset..offset + copied] + Contents()[offset + copied..offset + copied + toCopy]
            == Contents()[offset..offset + copied + toCopy];
        copied := copied + toCopy;
      }
    }

    /** save: the full blocks, then what remains of the last one. */
    method Save() returns (out: seq<T>)
      requires Valid()
      ensures out == Contents()
    {
      hide Room, Pow2, Shr, And, Block, Pos, Flat, Holds;
      var b := blockSize + 1;
      ShiftAndMask(size, blockSizeEx);
      var blockNum := Shr(size, blockSizeEx);
      Split(size, b);
      TableOf(blocks, b, size);
      out := [];
      var i := 0;
      while i < blockNum
        invariant 0 <= i <= blockNum && i * b <= size
        invariant out == Contents()[..i * b]
      {
        NextMultiple(i, blockNum, b);
        ReadBlock(blocks, b, size, i);
        out := out + blocks[i];
        assert Contents()[..i * b] + Contents()[i * b..i * b + b] == Contents()[..(i + 1) * b];
        i := i + 1;
      }
      var remainNum := And(size, blockSize);
      if remainNum > 0 {
        SplitUnique(blockNum * b, b, blockNum, 0);
        ReadRun(blocks, b, size, blockNum * b, remainNum);
        out := out + blocks[blockNum][..remainNum];
        assert Contents()[..blockNum * b] + Contents()[blockNum * b..size] == Contents();
      }
    }

    /** load: checked against the reserved table, not against maxSize; a short read leaves
        the elements as they were. */
    method Load(input: seq<T>, length: nat) returns (ok: bool)
      requires Valid() && size + length < LONG
      modifies this`blocks, this`size
      ensures Valid()
      ensures ok <==> old(size) + length <= (blockSize + 1) * reserved && length <= |input|
      ensures Contents() == if ok then old(Contents()) + input[..length] else old(Contents())
      ensures old(WithinReservation()) ==> WithinReservation()
    {
      hide Pow2, Shr, And, Block, Pos, Patch, Flat, Holds;
      if size + length > (blockSize + 1) * reserved {
        return false;
      }
      var b := blockSize + 1;
      assert b * reserved == reserved * b;
      var written := 0;
      ghost var was := Contents();
      assert was + input[..0] == was;
      while written < length
        invariant 0 <= written <= length && written <= |input|
        invariant Holds(blocks, b, size + written)
        invariant Flat(blocks, b, size + written) == was + input[..written]
        invariant old(WithinReservation()) ==> |blocks| <= reserved
      {
        var currBlock := EnsureBlock(size + written, size + length);
        ShiftAndMask(size + written, blockSizeEx);
        var curBlockPos := And(size + written, blockSize);
        var toWrite := Min(b - curBlockPos, length - written);
        if |input| - written < toWrite {
          // A short read: part of the block is overwritten, past the elements.
          var got := input[written..];
          AppendRun(blocks, b, size + written, got);
          blocks := blocks[currBlock := Patch(blocks[currBlock], curBlockPos, got)];
          Shorten(blocks, b, size + written + |got|, size);
          assert (was + input[..written] + got)[..size] == was;
          return false;
        }
        AppendRun(blocks, b, size + written, input[written..written + toWrite]);
        blocks := blocks[currBlock := Patch(blocks[currBlock], curBlockPos, input[written..written + toWrite])];
        assert input[..written] + input[written..written + toWrite] == input[..written + toWrite];
        written := written + toWrite;
      }
      size := size + written;
      return true;
    }
  }

  lemma TableOf<T>(blocks: seq<seq<T>>, b: nat, n: nat)
    requires Holds(blocks, b, n)
    ensures forall k :: 0 <= k < |blocks| ==> |blocks[k]| == b
    ensures Block(n, b) <= |blocks|
  {
    hide Block;
    CurrentBlock(blocks, b, n, 0, 0);
  }

  lemma Reservation(maxsize: nat, b: nat)
    requires 1 <= b < LONG && maxsize < LONG
    ensures Room(maxsize, Block((maxsize + (b - 1)) % LONG, b), b) <==> maxsize + b - 1 < LONG
  {
    var sum := (maxsize + (b - 1)) % LONG;
    Split(sum, b);
    if maxsize + b - 1 < LONG {
      assert sum == maxsize + b - 1;
    } else {
      assert sum == maxsize + b - 1 - LONG && sum < b;
      SplitUnique(sum, b, 0, sum);
    }
  }

  lemma CurrentBlock<T>(blocks: seq<seq<T>>, b: nat, n: nat, reserved: nat, limit: nat)
    requires Holds(blocks, b, n)
    ensures Block(n, b) <= |blocks|
    ensures n < limit <= reserved * b ==> Block(n, b) < reserved
    ensures forall k :: 0 <= k < |blocks| ==> |blocks[k]| == b
  {
    hide Block;
    BlockBelow(n, |blocks| + 1, b);
    BlockBelow(n, reserved, b);
    assert (|blocks| + 1) * b == |blocks| * b + b;
  }
}
