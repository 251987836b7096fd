/** The size estimates of VectorIndex.cpp: how many vectors fit a memory budget, and how much memory a number of
    vectors takes.  Both work in unsigned 64-bit arithmetic, written out here. */
module Estimates {
  import opened Common

  const INT: nat := 0x8000_0000

  datatype ValueType = Int8 | UInt8 | Int16 | Float | Undefined

  datatype Algorithm = BKT | KDT | Other

  /** What both estimates are told of the index: element type, dimension, vectors in a block, metadata bytes per
      vector, algorithm, number of trees, neighbourhood size. */
  datatype Layout = Layout(
    valueType: ValueType, dimension: nat, block: nat, maxMeta: nat, algorithm: Algorithm, trees: nat, neighbours: nat)

  /** The arguments are signed 32-bit integers in the code, meant to be non-negative; a block is not empty. */
  predicate Sane(l: Layout) {
    l.dimension < INT && 0 < l.block < INT && l.maxMeta < INT && l.trees < INT && l.neighbours < INT
  }

  function Add(a: nat, b: nat): (r: nat)
    ensures r < LONG
  {
    (a + b) % LONG
  }

  function Mul(a: nat, b: nat): (r: nat)
    ensures r < LONG
  {
    (a * b) % LONG
  }

  lemma SmallAdd(a: nat, b: nat)
    requires a + b < LONG
    ensures Add(a, b) == a + b
  {
  }

  lemma SmallMul(a: nat, b: nat)
    requires a * b < LONG
    ensures Mul(a, b) == a * b
  {
  }

  function TreeNodeSize(a: Algorithm): nat {
    match a
    case BKT => 4 * 3
    case KDT => 4 * 2 + 4 + 4
    case Other => 0
  }

  function ValueSize(t: ValueType): nat {
    match t
    case Int8 => 1
    case UInt8 => 1
    case Int16 => 2
    case Float => 4
    case Undefined => 0
  }

  /** Bytes one vector takes, term by term in machine words. */
  function WordUnit(l: Layout): nat {
    Add(Add(Add(Add(Add(Mul(ValueSize(l.valueType), l.dimension), l.maxMeta), 8), Mul(4, l.neighbours)), 1),
        Mul(TreeNodeSize(l.algorithm), l.trees))
  }

  function WholeBlocks(memory: nat, unit: nat, block: nat): nat
    requires unit > 0 && block > 0
  {
    Mul((memory / unit) / block, block)
  }

  function EstimatedVectorCount(memory: nat, l: Layout): nat
    requires Sane(l)
  {
    if l.algorithm.Other? then 0
    else
      WordUnitExact(l);
      WholeBlocks(memory, WordUnit(l), l.block)
  }

  function EstimatedMemoryUsage(vectorCount: nat, l: Layout): nat
    requires Sane(l)
  {
    var n := Mul(Add(vectorCount, l.block - 1) / l.block, l.block);
    if l.algorithm.Other? then 0
    else
      var vectors := Mul(Mul(ValueSize(l.valueType), l.dimension), n);
      var withMeta := Add(vectors, Mul(l.maxMeta, n));
      var withIndex := Add(withMeta, Mul(8, n));
      var withGraph := Add(withIndex, Mul(Mul(4, l.neighbours), n));
      var withFlags := Add(withGraph, n);
      Add(withFlags, Mul(Mul(TreeNodeSize(l.algorithm), l.trees), n))
  }

  // ---- The same without a word size ----

  function Unit(l: Layout): (u: nat)
    ensures u >= 9
  {
    ValueSize(l.valueType) * l.dimension + l.maxMeta + 8 + 4 * l.neighbours + 1 + TreeNodeSize(l.algorithm) * l.trees
  }

  /** The least number of whole blocks, in vectors, that holds n vectors. */
  function Padded(n: nat, l: Layout): nat
    requires Sane(l)
  {
    ((n + l.block - 1) / l.block) * l.block
  }

  function Bytes(n: nat, l: Layout): nat
    requires Sane(l)
  {
    Padded(n, l) * Unit(l)
  }

  lemma WordUnitExact(l: Layout)
    requires Sane(l)
    ensures WordUnit(l) == Unit(l)
  {
    hide Add, Mul;
    UnitBound(l);
    var v, g, t := ValueSize(l.valueType) * l.dimension, 4 * l.neighbours, TreeNodeSize(l.algorithm) * l.trees;
    SmallMul(ValueSize(l.valueType), l.dimension);
    SmallMul(4, l.neighbours);
    SmallMul(TreeNodeSize(l.algorithm), l.trees);
    SmallAdd(v, l.maxMeta);
    SmallAdd(v + l.maxMeta, 8);
    SmallAdd(v + l.maxMeta + 8, g);
    SmallAdd(v + l.maxMeta + 8 + g, 1);
    SmallAdd(v + l.maxMeta + 8 + g + 1, t);
  }

  lemma ProductBound(a: nat, b: nat, m: nat, n: nat)
    requires a <= m && b <= n
    ensures a * b <= m * n
  {
    assert a * b <= m * b <= m * n;
  }

  lemma UnitBound(l: Layout)
    requires Sane(l)
    ensures Unit(l) <= 29 * INT
    ensures ValueSize(l.valueType) * l.dimension <= 8 * INT && TreeNodeSize(l.algorithm) * l.trees <= 16 * INT
  {
    ProductBound(ValueSize(l.valueType), l.dimension, 8, INT - 1);
    ProductBound(TreeNodeSize(l.algorithm), l.trees, 16, INT - 1);
  }

  lemma ModAdd(a: nat, b: nat)
    ensures (a % LONG + b % LONG) % LONG == (a + b) % LONG
  {
  }

  /** Adding one more share of every vector's bytes. */
  lemma Accumulates(x: nat, y: nat, n: nat)
    ensures Add(Mul(x, n), Mul(y, n)) == Mul(x + y, n)
  {
    ModAdd(x * n, y * n);
    assert (x + y) * n == x * n + y * n;
  }

  lemma UsageInWords(n: nat, l: Layout)
    requires Sane(l) && !l.algorithm.Other?
    ensures EstimatedMemoryUsage(n, l) == Mul(Unit(l), Mul(Add(n, l.block - 1) / l.block, l.block))
  {
    hide Add, Mul;
    UnitBound(l);
    var p := Mul(Add(n, l.block - 1) / l.block, l.block);
    var v, g, t := ValueSize(l.valueType) * l.dimension, 4 * l.neighbours, TreeNodeSize(l.algorithm) * l.trees;
    SmallMul(ValueSize(l.valueType), l.dimension);
    SmallMul(4, l.neighbours);
    SmallMul(TreeNodeSize(l.algorithm), l.trees);
    Accumulates(v, l.maxMeta, p);
    Accumulates(v + l.maxMeta, 8, p);
    Accumulates(v + l.maxMeta + 8, g, p);
    Accumulates(v + l.maxMeta + 8 + g, 1, p);
    SmallMul(1, p);
    Accumulates(v + l.maxMeta + 8 + g + 1, t, p);
  }

  lemma Scale(x: nat, y: nat, b: nat)
    ensures x <= y ==> x * b <= y * b
    ensures x < y ==> x * b + b <= y * b
  {
    if x < y { assert (x + 1) * b <= y * b; }
  }

  lemma Between(x: nat, b: nat)
    requires b > 0
    ensures (x / b) * b <= x < (x / b) * b + b
  {
  }

  lemma Blocks(n: nat, q: nat, b: nat)
    requires b > 0
    ensures n <= q * b <==> (n + b - 1) / b <= q
  {
    var c := (n + b - 1) / b;
    Between(n + b - 1, b);
    Scale(c, q, b);
    Scale(q, c, b);
  }

  lemma Quotients(k: nat, m: nat, u: nat)
    requires u > 0
    ensures k <= m / u <==> k * u <= m
  {
    var q := m / u;
    assert q * u <= m < q * u + u;
    if k <= q { assert k * u <= q * u; } else { assert (q + 1) * u <= k * u; }
  }

  lemma Multiple(k: nat, b: nat)
    requires b > 0
    ensures (k / b) * b <= k
  {
  }

  lemma WholeBlocksFit(m: nat, u: nat, b: nat)
    requires u > 0 && b > 0 && m < LONG
    ensures WholeBlocks(m, u, b) == ((m / u) / b) * b
  {
    hide Mul;
    var k := m / u;
    Quotients(k, m, u);
    Multiple(k, b);
    Grows(k, u);
    SmallMul(k / b, b);
  }

  lemma CountInWords(m: nat, l: Layout)
    requires Sane(l) && !l.algorithm.Other? && m < LONG
    ensures EstimatedVectorCount(m, l) == ((m / Unit(l)) / l.block) * l.block
  {
    hide WordUnit, Unit, WholeBlocks;
    WordUnitExact(l);
    WholeBlocksFit(m, Unit(l), l.block);
  }

  lemma Grows(k: nat, u: nat)
    requires u > 0
    ensures k <= k * u
  {
  }

  /** Without a word size the two estimates are a Galois connection. */
  lemma CountIsLargest(n: nat, m: nat, l: Layout)
    requires Sane(l)
    ensures n <= ((m / Unit(l)) / l.block) * l.block <==> Bytes(n, l) <= m
  {
    hide Unit;
    var b, u := l.block, Unit(l);
    Connection(n, m, b, u);
  }

  lemma Connection(n: nat, m: nat, b: nat, u: nat)
    requires b > 0 && u > 0
    ensures n <= ((m / u) / b) * b <==> (((n + b - 1) / b) * b) * u <= m
  {
    var k, c := m / u, (n + b - 1) / b;
    Blocks(n, k / b, b);
    Quotients(c, k, b);
    Quotients(c * b, m, u);
  }

  lemma PaddedHolds(n: nat, l: Layout)
    requires Sane(l)
    ensures n <= Padded(n, l) && Bytes(n, l) >= 9 * n && Bytes(n, l) >= Padded(n, l)
  {
    hide Unit;
    Blocks(n, (n + l.block - 1) / l.block, l.block);
    AtLeast(Padded(n, l), Unit(l));
  }

  lemma AtLeast(p: nat, u: nat)
    requires u >= 9
    ensures p * u >= 9 * p
  {
  }

  lemma PaddedFits(n: nat, l: Layout)
    requires Sane(l) && 9 * n < LONG && Padded(n, l) < LONG
    ensures Mul(Add(n, l.block - 1) / l.block, l.block) == Padded(n, l)
  {
    hide Mul, Add;
    SmallAdd(n, l.block - 1);
    SmallMul((n + l.block - 1) / l.block, l.block);
  }

  lemma ProductFits(p: nat, u: nat)
    requires p * u < LONG
    ensures Mul(u, p) == p * u
  {
  }

  lemma UsageIsBytes(n: nat, l: Layout)
    requires Sane(l) && !l.algorithm.Other? && Bytes(n, l) < LONG
    ensures EstimatedMemoryUsage(n, l) == Bytes(n, l)
  {
    hide Unit, Mul, Add, EstimatedMemoryUsage, Padded;
    PaddedHolds(n, l);
    UsageInWords(n, l);
    PaddedFits(n, l);
    ProductFits(Padded(n, l), Unit(l));
  }

  /** For the tree indexes the memory estimate of n vectors answers every budget as the count estimate does, exactly
      when the true number of bytes fits a 64-bit word. */
  lemma EstimatesAgree(n: nat, l: Layout)
    requires Sane(l) && n < LONG && !l.algorithm.Other?
    ensures (forall m: nat :: m < LONG ==> (EstimatedMemoryUsage(n, l) <= m <==> n <= EstimatedVectorCount(m, l)))
       <==> Bytes(n, l) < LONG
  {
    hide EstimatedMemoryUsage, EstimatedVectorCount, Unit, Bytes;
    forall m: nat | m < LONG ensures n <= EstimatedVectorCount(m, l) <==> Bytes(n, l) <= m {
      CountInWords(m, l);
      CountIsLargest(n, m, l);
    }
    if Bytes(n, l) < LONG {
      UsageIsBytes(n, l);
    } else {
      UsageInWords(n, l);
      var top: nat := LONG - 1;
      assert EstimatedMemoryUsage(n, l) <= top && !(n <= EstimatedVectorCount(top, l));
    }
  }

  /** They do disagree: for every layout of a tree index the bytes of 2^64 - 1 vectors do not fit a word, and some budget
      is said to hold them that does not. */
  lemma EstimatesDisagree(l: Layout)
    requires Sane(l) && !l.algorithm.Other?
    ensures Bytes(LONG - 1, l) >= LONG
    ensures !forall m: nat :: m < LONG ==>
              (EstimatedMemoryUsage(LONG - 1, l) <= m <==> LONG - 1 <= EstimatedVectorCount(m, l))
  {
    hide EstimatedMemoryUsage, EstimatedVectorCount, Unit, Bytes;
    PaddedHolds(LONG - 1, l);
    EstimatesAgree(LONG - 1, l);
  }

  /** For any other algorithm both estimates are 0, so they agree only on no vectors. */
  lemma OthersAgreeOnNothing(n: nat, m: nat, l: Layout)
    requires Sane(l) && l.algorithm.Other?
    ensures (EstimatedMemoryUsage(n, l) <= m <==> n <= EstimatedVectorCount(m, l)) <==> n == 0
  {
  }
}
