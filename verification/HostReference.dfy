/** The host side: the plain triple loop of compare2.c, and the decoder of the result bytes. */
module HostReference {
  import opened Words
  import opened Timeline
  import opened DataFlow
  import opened MatrixMultiply
  import opened AcceleratorRun

  /** A C array of rows as a matrix. */
  function Rows(a: seq<seq<int>>): Matrix {
    (i: nat, k: nat) => if i < |a| && k < |a[i]| then a[i][k] else 0
  }

  ghost predicate Square(a: seq<seq<int>>, n: nat) {
    |a| == n && forall i :: 0 <= i < n ==> |a[i]| == n
  }

  /** Element (i, j) of the product of two square matrices, as an int16_t. */
  function Product(a: seq<seq<int>>, b: seq<seq<int>>, i: nat, j: nat): int {
    Wrap16(Dot(Rows(a), Rows(b), i, j, |a|))
  }

  /** The reference multiplication: every element is accumulated in place in a 16-bit cell. */
  method MatrixMultiplyLoop(a: seq<seq<int>>, b: seq<seq<int>>, c: array2<int>)
    requires Square(a, c.Length0) && Square(b, c.Length0) && c.Length1 == c.Length0
    modifies c
    ensures forall i, j :: 0 <= i < c.Length0 && 0 <= j < c.Length1 ==> c[i, j] == Product(a, b, i, j)
  {
    var n := c.Length0;
    for i := 0 to n
      invariant forall i', j' :: 0 <= i' < i && 0 <= j' < n ==> c[i', j'] == Product(a, b, i', j')
    {
      for j := 0 to n
        invariant forall i', j' :: 0 <= i' < i && 0 <= j' < n ==> c[i', j'] == Product(a, b, i', j')
        invariant forall j' :: 0 <= j' < j ==> c[i, j'] == Product(a, b, i, j')
      {
        c[i, j] := 0;
        for k := 0 to n
          invariant forall i', j' :: 0 <= i' < i && 0 <= j' < n ==> c[i', j'] == Product(a, b, i', j')
          invariant forall j' :: 0 <= j' < j ==> c[i, j'] == Product(a, b, i, j')
          invariant c[i, j] == Wrap16(Dot(Rows(a), Rows(b), i, j, k))
        {
          Wrap16Add(Dot(Rows(a), Rows(b), i, j, k), a[i][k] * b[k][j]);
          c[i, j] := Wrap16(c[i, j] + a[i][k] * b[k][j]);
        }
      }
    }
  }

  /** The bytes an int16_t occupies in memory, each as an int8_t. */
  function LowByte(v: int): int {
    (v + 128) % 256 - 128
  }

  function HighByte(v: int): int {
    v / 256
  }

  /** (hi << 8) | (lo & 0xFF) on sign-extended bytes. */
  function FromBytes(lo: int, hi: int): int {
    hi * 256 + lo % 256
  }

  lemma BytesRoundTrip(v: int)
    requires -32768 <= v < 32768
    ensures FromBytes(LowByte(v), HighByte(v)) == v
    ensures -128 <= LowByte(v) < 128 && -128 <= HighByte(v) < 128
    ensures LowByte(v) % 256 == v % 256 && 256 * HighByte(v) + v % 256 == v
  {
    assert LowByte(v) % 256 == v % 256;
  }

  method ConvertToInt16Array(input: array<int>, output: array<int>)
    requires input.Length == 2 * output.Length && input != output
    modifies output
    ensures forall i :: 0 <= i < output.Length ==> output[i] == FromBytes(input[2 * i], input[2 * i + 1])
    ensures forall i :: 0 <= i < output.Length ==> output[i] % 256 == input[2 * i] % 256 && output[i] / 256 == input[2 * i + 1]
    ensures input[..] == old(input[..])
  {
    for i := 0 to output.Length
      invariant forall k :: 0 <= k < i ==> output[k] == FromBytes(input[2 * k], input[2 * k + 1])
      invariant input[..] == old(input[..])
    {
      var index := i * 2;
      output[i] := FromBytes(input[index], input[index + 1]);
    }
  }

  /** Byte k of the result region: 32 bytes to a BRAM C word, two to a lane, low byte first. */
  function ResultByte(mem: ResultBram, k: nat): int {
    var v := if k / 32 < 256 then mem[k / 32][k % 32 / 2] else 0;
    if k % 2 == 0 then LowByte(v) else HighByte(v)
  }

  /** What the host decodes for row i, column j from the bytes it reads back. */
  function DecodedAt(r: nat, mem: ResultBram, i: nat, j: nat): int {
    var e := i * (16 * r) + j;
    FromBytes(ResultByte(mem, 2 * e), ResultByte(mem, 2 * e + 1))
  }

  /** Both bytes of element e come from lane e % 16 of word e / 16. */
  lemma ElementBytes(mem: ResultBram, e: nat)
    requires e < 4096
    ensures ResultByte(mem, 2 * e) == LowByte(mem[e / 16][e % 16])
    ensures ResultByte(mem, 2 * e + 1) == HighByte(mem[e / 16][e % 16])
  {
    var w, l := e / 16, e % 16;
    assert (2 * e) / 32 == w && (2 * e + 1) / 32 == w;
    assert (2 * e) % 32 / 2 == l && (2 * e + 1) % 32 / 2 == l;
  }

  lemma DecodedIsStored(r: nat, mem: ResultBram, i: nat, j: nat)
    requires Fits(r) && i < 16 * r && j < 16 * r
    requires -32768 <= ResultAt(r, mem, i, j) < 32768
    ensures DecodedAt(r, mem, i, j) == ResultAt(r, mem, i, j)
  {
    var e := i * (16 * r) + j;
    var w := i * r + j / 16;
    WordIndexBound(r, i, j / 16);
    assert e == 16 * w + j % 16 by {
      assert i * (16 * r) == 16 * (i * r);
    }
    hide FromBytes, LowByte, HighByte, ResultByte, Fits;
    assert e / 16 == w && e % 16 == j % 16;
    ElementBytes(mem, e);
    BytesRoundTrip(ResultAt(r, mem, i, j));
  }

  /** An operand BRAM into which the host wrote the rows of a matrix. */
  ghost predicate HoldsRows(r: nat, mem: OperandBram, a: seq<seq<int>>) {
    Square(a, 16 * r) && forall i: nat, k: nat | i < 16 * r && k < 16 * r :: a[i][k] == OperandMatrix(r, mem)(i, k)
  }

  lemma {:induction false} DotAgrees(a: Matrix, b: Matrix, a': Matrix, b': Matrix, i: nat, j: nat, n: nat)
    requires forall k: nat | k < n :: a(i, k) == a'(i, k) && b(k, j) == b'(k, j)
    ensures Dot(a, b, i, j, n) == Dot(a', b', i, j, n)
  {
    if n > 0 {
      DotAgrees(a, b, a', b', i, j, n - 1);
      assert a(i, n - 1) == a'(i, n - 1) && b(n - 1, j) == b'(n - 1, j);
    }
  }

  /** The operand BRAMs and the host's arrays have the same dot products. */
  lemma ProductOfOperands(r: nat, memA: OperandBram, memB: OperandBram, a: seq<seq<int>>, b: seq<seq<int>>, i: nat, j: nat)
    requires HoldsRows(r, memA, a) && HoldsRows(r, memB, b) && i < 16 * r && j < 16 * r
    ensures Wrap16(Dot(OperandMatrix(r, memA), OperandMatrix(r, memB), i, j, 16 * r)) == Product(a, b, i, j)
  {
    var ma, mb := OperandMatrix(r, memA), OperandMatrix(r, memB);
    forall k: nat | k < 16 * r ensures ma(i, k) == Rows(a)(i, k) && mb(k, j) == Rows(b)(k, j) {
      assert a[i][k] == ma(i, k) && b[k][j] == mb(k, j);
    }
    DotAgrees(ma, mb, Rows(a), Rows(b), i, j, 16 * r);
  }

  lemma MirroredProductDecodes(r: nat, memA: OperandBram, memB: OperandBram, memC: ResultBram,
                               a: seq<seq<int>>, b: seq<seq<int>>, i: nat, j: nat)
    requires Fits(r) && HoldsRows(r, memA, a) && HoldsRows(r, memB, b) && i < 16 * r && j < 16 * r
    requires HoldsMirroredProduct(r, OperandMatrix(r, memA), OperandMatrix(r, memB), memC)
    ensures DecodedAt(r, memC, i, j) == Product(a, b, i, Mirror(j))
  {
    ProductOfOperands(r, memA, memB, a, b, i, Mirror(j));
    assert ResultAt(r, memC, i, j) == Product(a, b, i, Mirror(j));
    DecodedIsStored(r, memC, i, j);
  }

  /** The accelerator against the reference: RunLength(r) cycles after start, every element the host
      decodes equals matrix_multiply's element in the mirrored column of the same tile. */
  lemma HostReadsMirroredProduct(r: nat, m: Machine, start: nat -> bool, a: seq<seq<int>>, b: seq<seq<int>>, i: nat, j: nat)
    requires Fits(r) && Ready(r, m) && start(0) && HoldsRows(r, m.bramA, a) && HoldsRows(r, m.bramB, b)
    requires i < 16 * r && j < 16 * r
    ensures DecodedAt(r, StateAt(r, m, start, RunLength(r)).bramC, i, j) == Product(a, b, i, Mirror(j))
  {
    RunComputesProduct(r, m, start);
    MirroredProductDecodes(r, m.bramA, m.bramB, StateAt(r, m, start, RunLength(r)).bramC, a, b, i, j);
  }

  /** The word of an operand BRAM in which the host puts elements 16 * (w % r) .. of row w / r. */
  function StoredWord(r: nat, a: seq<seq<int>>, w: nat): Lanes
    requires r > 0
  {
    seq(16, l requires 0 <= l < 16 => Rows(a)(w / r, w % r * 16 + l))
  }

  /** An operand BRAM after the host wrote a matrix row by row. */
  function Store(r: nat, a: seq<seq<int>>): OperandBram
    requires r > 0
  {
    seq<Lanes>(512, w requires 0 <= w < 512 => StoredWord(r, a, w))
  }

  lemma StoredIsHeld(r: nat, a: seq<seq<int>>)
    requires Fits(r) && Square(a, 16 * r)
    ensures HoldsRows(r, Store(r, a), a)
  {
    forall i: nat, k: nat | i < 16 * r && k < 16 * r ensures a[i][k] == OperandMatrix(r, Store(r, a))(i, k) {
      var c, l := k / 16, k % 16;
      WordIndexBound(r, i, c);
      WordParts(r, i, c);
      var w := i * r + c;
      assert w / r == i && w % r * 16 + l == k;
      assert StoredWord(r, a, w)[l] == Rows(a)(i, k) == a[i][k];
      assert Store(r, a)[w] == StoredWord(r, a, w);
    }
  }

  lemma WordParts(r: nat, i: nat, c: nat)
    requires Fits(r) && c < r
    ensures (i * r + c) / r == i && (i * r + c) % r == c
  {
    if r == 1 {} else if r == 2 {} else if r == 3 {} else {}
  }

  /** A ready machine whose operand BRAMs the host has filled. */
  function Loaded(r: nat, m: Machine, a: seq<seq<int>>, b: seq<seq<int>>): Machine
    requires r > 0
  {
    m.(bramA := Store(r, a), bramB := Store(r, b))
  }

  ghost predicate Int8(a: seq<seq<int>>) {
    forall i, k :: 0 <= i < |a| && 0 <= k < |a[i]| ==> -128 <= a[i][k] < 128
  }

  /** After a run on a and b the host decodes the reference product itself. */
  ghost predicate DecodesPlainly(r: nat, m: Machine, start: nat -> bool, a: seq<seq<int>>, b: seq<seq<int>>)
    requires Fits(r)
  {
    var mem := StateAt(r, Loaded(r, m, a, b), start, RunLength(r)).bramC;
    forall i: nat, j: nat | i < 16 * r && j < 16 * r :: DecodedAt(r, mem, i, j) == Product(a, b, i, j)
  }

  /** Every tile of b is the same read from either side. */
  ghost predicate SameMirrored(r: nat, b: seq<seq<int>>)
    requires Square(b, 16 * r)
  {
    forall k: nat, j: nat | k < 16 * r && j < 16 * r :: b[k][Mirror(j)] == b[k][j]
  }

  /** What the host decodes for one pair of operands. */
  lemma LoadedDecodes(r: nat, m: Machine, start: nat -> bool, a: seq<seq<int>>, b: seq<seq<int>>, i: nat, j: nat)
    requires Fits(r) && Ready(r, m) && start(0) && Square(a, 16 * r) && Square(b, 16 * r) && i < 16 * r && j < 16 * r
    ensures DecodedAt(r, StateAt(r, Loaded(r, m, a, b), start, RunLength(r)).bramC, i, j) == Product(a, b, i, Mirror(j))
  {
    StoredIsHeld(r, a);
    StoredIsHeld(r, b);
    HostReadsMirroredProduct(r, Loaded(r, m, a, b), start, a, b, i, j);
  }

  /** Equal columns have equal dot products. */
  lemma {:induction false} DotColumns(a: Matrix, b: Matrix, i: nat, j: nat, j': nat, n: nat)
    requires forall k: nat | k < n :: b(k, j) == b(k, j')
    ensures Dot(a, b, i, j, n) == Dot(a, b, i, j', n)
  {
    if n > 0 {
      DotColumns(a, b, i, j, j', n - 1);
      assert b(n - 1, j) == b(n - 1, j');
    }
  }

  /** The matrix whose rows all select row t of the other operand. */
  function Selector(n: nat, t: nat): seq<seq<int>> {
    seq(n, i => seq(n, k => if k == t then 1 else 0))
  }

  /** A row with a single 1 selects a row of the other operand. */
  lemma {:induction false} SelectorDot(a: Matrix, t: nat, b: Matrix, i: nat, j: nat, n: nat)
    requires forall k: nat | k < n :: a(i, k) == if k == t then 1 else 0
    ensures Dot(a, b, i, j, n) == if t < n then b(t, j) else 0
  {
    if n > 0 {
      SelectorDot(a, t, b, i, j, n - 1);
      assert a(i, n - 1) == if n - 1 == t then 1 else 0;
    }
  }

  lemma SelectorProduct(n: nat, t: nat, b: seq<seq<int>>, i: nat, j: nat)
    requires i < n && t < n && j < n && Square(b, n) && Int8(b)
    ensures Square(Selector(n, t), n) && Int8(Selector(n, t))
    ensures Product(Selector(n, t), b, i, j) == b[t][j]
  {
    SelectorDot(Rows(Selector(n, t)), t, Rows(b), i, j, n);
  }

  /** For an int8 operand b, the host decodes the reference product for every int8 operand a if and only
      if every tile of b is the same read from either side. Data that are constant along rows, as the
      repository's own are, are such a case. */
  lemma PlainProductIff(r: nat, m: Machine, start: nat -> bool, b: seq<seq<int>>)
    requires Fits(r) && Ready(r, m) && start(0) && Square(b, 16 * r) && Int8(b)
    ensures
      (forall a: seq<seq<int>> | Square(a, 16 * r) && Int8(a) :: DecodesPlainly(r, m, start, a, b)) <==> SameMirrored(r, b)
  {
    hide Ready, DecodedAt, Product, StateAt, RunLength, Loaded, Selector;
    if SameMirrored(r, b) {
      forall a: seq<seq<int>> | Square(a, 16 * r) && Int8(a) ensures DecodesPlainly(r, m, start, a, b) {
        forall i: nat, j: nat | i < 16 * r && j < 16 * r
          ensures DecodedAt(r, StateAt(r, Loaded(r, m, a, b), start, RunLength(r)).bramC, i, j) == Product(a, b, i, j)
        {
          LoadedDecodes(r, m, start, a, b, i, j);
          SymmetricProduct(r, a, b, i, j);
        }
      }
    } else {
      var k: nat, j: nat :| k < 16 * r && j < 16 * r && b[k][Mirror(j)] != b[k][j];
      MirrorTells(r, m, start, b, k, j);
    }
  }

  lemma SymmetricProduct(r: nat, a: seq<seq<int>>, b: seq<seq<int>>, i: nat, j: nat)
    requires Square(a, 16 * r) && Square(b, 16 * r) && SameMirrored(r, b) && i < 16 * r && j < 16 * r
    ensures Product(a, b, i, Mirror(j)) == Product(a, b, i, j)
  {
    DotColumns(Rows(a), Rows(b), i, Mirror(j), j, 16 * r);
  }

  /** Where b differs from its mirror image, selecting that row shows it. */
  lemma MirrorTells(r: nat, m: Machine, start: nat -> bool, b: seq<seq<int>>, k: nat, j: nat)
    requires Fits(r) && Ready(r, m) && start(0) && Square(b, 16 * r) && Int8(b)
    requires k < 16 * r && j < 16 * r && b[k][Mirror(j)] != b[k][j]
    ensures Square(Selector(16 * r, k), 16 * r) && Int8(Selector(16 * r, k))
    ensures !DecodesPlainly(r, m, start, Selector(16 * r, k), b)
  {
    hide Ready, DecodedAt, Product, StateAt, RunLength, Loaded, Selector;
    SelectorProduct(16 * r, k, b, 0, j);
    SelectorProduct(16 * r, k, b, 0, Mirror(j));
    LoadedDecodes(r, m, start, Selector(16 * r, k), b, 0, j);
  }

  /** The matrix with a single 1 in its corner. */
  function Corner(n: nat): seq<seq<int>> {
    seq(n, i => seq(n, k => if i == 0 && k == 0 then 1 else 0))
  }

  /** For every size, int8 operands on which the host decodes 0 where the reference has 1. */
  lemma ReversalShows(r: nat, m: Machine, start: nat -> bool)
    requires Fits(r) && Ready(r, m) && start(0)
    ensures
      var a, b := Selector(16 * r, 0), Corner(16 * r);
      && Square(a, 16 * r) && Square(b, 16 * r) && Int8(a) && Int8(b)
      && DecodedAt(r, StateAt(r, Loaded(r, m, a, b), start, RunLength(r)).bramC, 0, 0) == 0
      && Product(a, b, 0, 0) == 1
  {
    hide Ready, DecodedAt, Product, StateAt, RunLength, Loaded, Selector;
    SelectorProduct(16 * r, 0, Corner(16 * r), 0, 0);
    SelectorProduct(16 * r, 0, Corner(16 * r), 0, 15);
    LoadedDecodes(r, m, start, Selector(16 * r, 0), Corner(16 * r), 0, 0);
  }
}
