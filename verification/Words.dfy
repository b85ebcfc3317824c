/** 16-bit words, vectors of 16 lanes, and the integer dot product they approximate. */
module Words {

  /** A vector of N = 16 lanes: one BRAM word, one tile row, one row of PE registers. */
  type Lanes = s: seq<int> | |s| == 16 witness [0, 0, 0, 0, 0, 0, 0, 0, 0, 0, 0, 0, 0, 0, 0, 0]

  /** A 16 x 16 arrangement of values: a tile of B, or the registers of the PE array. */
  type Tile = t: seq<Lanes> | |t| == 16 witness ZeroRows(16)

  const ZERO_LANES: Lanes := [0, 0, 0, 0, 0, 0, 0, 0, 0, 0, 0, 0, 0, 0, 0, 0]

  /** n rows of zeros. */
  function ZeroRows(n: nat): (z: seq<Lanes>)
    ensures |z| == n && forall i :: 0 <= i < n ==> z[i] == ZERO_LANES
  {
    seq(n, _ => ZERO_LANES)
  }

  /** A matrix seen as a total function of (row, column). */
  type Matrix = (nat, nat) -> int

  /** Truncation to a signed 16-bit word, as both the RTL and an int16_t assignment do it. */
  function Wrap16(x: int): (w: int)
    ensures -32768 <= w < 32768 && (x - w) % 65536 == 0
  {
    (x + 32768) % 65536 - 32768
  }

  /** Sum over k < n of a[i][k] * b[k][j], in unbounded integers. */
  function Dot(a: Matrix, b: Matrix, i: nat, j: nat, n: nat): int {
    if n == 0 then 0 else Dot(a, b, i, j, n - 1) + a(i, n - 1) * b(n - 1, j)
  }

  /** The sixteen lane products. */
  function Products(x: Lanes, y: Lanes): Lanes {
    seq(16, k requires 0 <= k < 16 => x[k] * y[k])
  }

  /** Sum of the first n lanes. */
  function LaneSum(t: seq<int>, n: nat): int
    requires n <= |t|
  {
    if n == 0 then 0 else LaneSum(t, n - 1) + t[n - 1]
  }

  /** Whole multiples of 2^16 do not matter. */
  lemma Wrap16Shift(x: int, k: int)
    ensures Wrap16(x + 65536 * k) == Wrap16(x)
  {
  }

  /** Wrapping operands before an addition does not change the wrapped sum. */
  lemma Wrap16Add(x: int, y: int)
    ensures Wrap16(Wrap16(x) + y) == Wrap16(x + y)
    ensures Wrap16(Wrap16(x) + Wrap16(y)) == Wrap16(x + y)
  {
    var k, l := (x - Wrap16(x)) / 65536, (y - Wrap16(y)) / 65536;
    assert x == Wrap16(x) + 65536 * k && y == Wrap16(y) + 65536 * l;
    hide Wrap16;
    Wrap16Shift(Wrap16(x) + y, k);
    Wrap16Shift(Wrap16(x) + Wrap16(y), k + l);
  }

  /** A dot product grows by the lane products of one aligned slice of 16. */
  lemma {:induction false} DotSlice(a: Matrix, b: Matrix, i: nat, j: nat, base: nat, x: Lanes, y: Lanes, n: nat)
    requires n <= 16
    requires forall k: nat | k < n :: a(i, base + k) == x[k] && b(base + k, j) == y[k]
    ensures Dot(a, b, i, j, base + n) == Dot(a, b, i, j, base) + LaneSum(Products(x, y), n)
  {
    if n > 0 {
      DotSlice(a, b, i, j, base, x, y, n - 1);
      assert base + n - 1 == base + (n - 1);
      assert a(i, base + (n - 1)) == x[n - 1] && b(base + (n - 1), j) == y[n - 1];
    }
  }
}
