/** PE and PE_array: stationary registers chained into a shift column, and the adder tree per row. */
module ProcessingArray {
  import opened Words

  /** Next value of one stationary register. */
  function RegisterNext(held: int, rst: bool, stationaryCtrl: bool, aIn: int): int {
    if rst then 0 else if stationaryCtrl then aIn else held
  }

  /** The register of one processing element. */
  class PE {
    var rAInput: int

    method Clock(rst: bool, stationaryCtrl: bool, aIn: int)
      modifies this
      ensures rAInput == RegisterNext(old(rAInput), rst, stationaryCtrl, aIn)
      ensures rst ==> rAInput == 0
    {
      if rst {
        rAInput := 0;
      } else if stationaryCtrl {
        rAInput := aIn;
      }
    }
  }

  /** The 16-bit product of a stationary operand with the one broadcast. */
  function PeProduct(held: int, bIn: int): int {
    Wrap16(held * bIn)
  }

  /** All 256 registers after one clock: row 0 takes aIn, row m takes what row m-1 held. */
  function ArrayNext(pe: Tile, rst: bool, stationaryCtrl: bool, aIn: Lanes): Tile {
    seq<Lanes>(16, m requires 0 <= m < 16 =>
      seq(16, j requires 0 <= j < 16 =>
        RegisterNext(pe[m][j], rst, stationaryCtrl, if m == 0 then aIn[j] else pe[m - 1][j])))
  }

  /** A reset clears the array. */
  lemma ResetClears(pe: Tile, stationaryCtrl: bool, aIn: Lanes)
    ensures forall m, j :: 0 <= m < 16 && 0 <= j < 16 ==> ArrayNext(pe, true, stationaryCtrl, aIn)[m][j] == 0
  {
  }

  /** One level of the adder tree; every node is a 16-bit signal. */
  function TreeLevel(p: seq<int>): seq<int> {
    seq(|p| / 2, k requires 0 <= k < |p| / 2 => Wrap16(p[2 * k] + p[2 * k + 1]))
  }

  /** The four-level pairwise adder tree. */
  function AdderTree(p: Lanes): int {
    TreeLevel(TreeLevel(TreeLevel(TreeLevel(p))))[0]
  }

  /** The c_out vector: for each PE row, the tree over its sixteen products with bIn. */
  function ArrayOut(pe: Tile, bIn: Lanes): Lanes {
    seq(16, m requires 0 <= m < 16 =>
      AdderTree(seq(16, j requires 0 <= j < 16 => PeProduct(pe[m][j], bIn[j]))))
  }

  /** The registers after a burst of shifts. */
  function Shifted(pe: Tile, ins: seq<Lanes>): Tile {
    if |ins| == 0 then pe else ArrayNext(Shifted(pe, ins[..|ins| - 1]), false, true, ins[|ins| - 1])
  }

  /** One clock of the chain, as one row sees it. */
  lemma ArrayRow(pe: Tile, stationaryCtrl: bool, aIn: Lanes, m: nat)
    requires m < 16
    ensures ArrayNext(pe, false, stationaryCtrl, aIn)[m] ==
      if !stationaryCtrl then pe[m] else if m == 0 then aIn else pe[m - 1]
  {
  }

  /** The chain is a delay line: row m holds the vector that entered m shifts before the last one. */
  lemma {:induction false} ShiftChain(pe: Tile, ins: seq<Lanes>, m: nat)
    requires m < 16
    ensures Shifted(pe, ins)[m] == if m < |ins| then ins[|ins| - 1 - m] else pe[m - |ins|]
  {
    hide ArrayNext;
    if |ins| > 0 {
      ArrayRow(Shifted(pe, ins[..|ins| - 1]), true, ins[|ins| - 1], m);
      if m > 0 {
        ShiftChain(pe, ins[..|ins| - 1], m - 1);
      }
    }
  }

  /** A load phase shifts in one zero vector and then the sixteen columns of a tile: row m ends up
      with column 15 - m, so the tile stands reversed in the array whatever it held before. */
  lemma LoadPhaseReversesColumns(pe: Tile, columns: Tile, m: nat)
    requires m < 16
    ensures Shifted(pe, [ZERO_LANES] + columns)[m] == columns[15 - m]
  {
    ShiftChain(pe, [ZERO_LANES] + columns, m);
  }

  /** A level of unbounded pairwise sums. */
  function PairSums(t: seq<int>): seq<int> {
    seq(|t| / 2, k requires 0 <= k < |t| / 2 => t[2 * k] + t[2 * k + 1])
  }

  /** Adding up pairs first does not change a sum. */
  lemma {:induction false} PairSumsKeepSum(t: seq<int>, n: nat)
    requires 2 * n <= |t|
    ensures LaneSum(PairSums(t), n) == LaneSum(t, 2 * n)
  {
    if n > 0 {
      PairSumsKeepSum(t, n - 1);
      assert LaneSum(t, 2 * n) == LaneSum(t, 2 * n - 1) + t[2 * n - 1];
    }
  }

  /** A tree level over the wrapped images of t holds the wrapped images of the pairwise sums of t. */
  lemma TreeLevelWraps(p: seq<int>, t: seq<int>)
    requires |p| == |t| && forall k :: 0 <= k < |p| ==> p[k] == Wrap16(t[k])
    ensures |TreeLevel(p)| == |PairSums(t)|
    ensures forall k :: 0 <= k < |TreeLevel(p)| ==> TreeLevel(p)[k] == Wrap16(PairSums(t)[k])
  {
    forall k | 0 <= k < |TreeLevel(p)| ensures TreeLevel(p)[k] == Wrap16(PairSums(t)[k]) {
      Wrap16Add(t[2 * k], t[2 * k + 1]);
    }
  }

  /** The tree over wrapped lanes is the wrapped plain sum of the lanes. */
  lemma AdderTreeIsSum(p: Lanes, t: Lanes)
    requires forall j :: 0 <= j < 16 ==> p[j] == Wrap16(t[j])
    ensures AdderTree(p) == Wrap16(LaneSum(t, 16))
  {
    var t1 := PairSums(t);
    var t2 := PairSums(t1);
    var t3 := PairSums(t2);
    TreeLevelWraps(p, t);
    TreeLevelWraps(TreeLevel(p), t1);
    TreeLevelWraps(TreeLevel(TreeLevel(p)), t2);
    TreeLevelWraps(TreeLevel(TreeLevel(TreeLevel(p))), t3);
    PairSumsKeepSum(t, 8);
    PairSumsKeepSum(t1, 4);
    PairSumsKeepSum(t2, 2);
    PairSumsKeepSum(t3, 1);
    assert LaneSum(PairSums(t3), 1) == LaneSum(PairSums(t3), 0) + PairSums(t3)[0];
  }

  /** Every c_out lane is the wrapped dot product of the broadcast slice with its PE row. */
  lemma ArrayOutIsDot(pe: Tile, bIn: Lanes, m: nat)
    requires m < 16
    ensures ArrayOut(pe, bIn)[m] == Wrap16(LaneSum(Products(bIn, pe[m]), 16))
  {
    var p: Lanes := seq(16, j requires 0 <= j < 16 => PeProduct(pe[m][j], bIn[j]));
    forall j | 0 <= j < 16 ensures p[j] == Wrap16(Products(bIn, pe[m])[j]) {
      assert pe[m][j] * bIn[j] == bIn[j] * pe[m][j];
    }
    AdderTreeIsSum(p, Products(bIn, pe[m]));
  }
}
