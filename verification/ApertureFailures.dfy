/** Aperture requests that the driver gets wrong. */
module ApertureFailures {
  import opened Extents
  import opened Powers
  import opened Walker
  import opened Ring
  import opened Request
  import opened ApertureCut
  import opened Aperture
  import opened ApertureRun

  /** a bytes from 0 on, then b bytes from 10 on. */
  function Two(a: nat, b: nat): seq<Extent> {
    [Extent(0, a), Extent(10, b)]
  }

  lemma TwoStream(a: nat, b: nat)
    ensures Stream(Two(a, b)) == Span(0, a) + Span(10, b) && TotalLen(Two(a, b)[..1]) == a && TotalLen(Two(a, b)) == a + b
  {
    var sgl := Two(a, b);
    assert sgl[..0] == [] && sgl[..1] == [Extent(0, a)] && sgl[..2] == sgl;
    TakeOne(sgl, 0);
    TakeOne(sgl, 1);
  }

  lemma TwoEntries(a: nat, b: nat)
    requires 0 < a <= 10 && 0 < b <= 10
    ensures Mapped(Two(a, b)) && Distinct(Stream(Two(a, b)))
    ensures Reads(Two(a, b), START) == Two(a, b)
  {
    TwoStream(a, b);
    hide Stream, TotalLen;
    assert [Two(a, b)[0]] + Two(a, b)[1..2] == Two(a, b);
  }

  /** One byte is one descriptor. */
  lemma CutOne(v: Window, addr: nat, w: nat)
    requires w < v.aperture
    ensures Cut(v, addr, 1, w) == [Piece(addr, v.ep + w, 1)] && Bytes([Piece(addr, v.ep + w, 1)]) == 1
  {
    CutStep(v, addr, 1, w);
    CutNothing(v, addr + 1, On(v, w, Fit(v, 1, w)));
    OneBytes(Piece(addr, v.ep + w, 1));
  }

  lemma CutAllTwo(v: Window, a: nat, b: nat)
    requires 0 < a < v.aperture
    ensures CutAll(v, Two(a, b), 0) == Cut(v, 0, a, 0) + Cut(v, 10, b, a)
  {
    var sgl := Two(a, b);
    PlaceIsOn(v, 0, a);
    hide Cut, Place;
    CutAllStep(v, sgl, 0, 0);
    CutAllStep(v, sgl, 1, a);
    assert sgl[0..] == sgl && sgl[1 + 1..] == [];
    assert Cut(v, 10, b, a) + [] == Cut(v, 10, b, a);
  }

  lemma WhereTwo(v: Window, a: nat, b: nat, cap: nat)
    requires 0 < a < v.aperture && b > 0
    requires
      var n := |Cut(v, 0, a, 0)|;
      n <= cap < n + |Cut(v, 10, b, a)|
    ensures
      var n := |Cut(v, 0, a, 0)|;
      Where(v, Two(a, b), 0, cap) == (1, Bytes(Cut(v, 10, b, a)[..cap - n]))
  {
    var sgl := Two(a, b);
    PlaceIsOn(v, 0, a);
    hide Cut, Place, Bytes;
    WhereHead(v, sgl, 0, cap);
    if cap > |Cut(v, 0, a, 0)| {
      WhereHead(v, sgl[1..], a, cap - |Cut(v, 0, a, 0)|);
    } else {
      NoBytes(Cut(v, 10, b, a));
    }
  }

  lemma NoBytes(ps: seq<Piece>)
    ensures Bytes(ps[..0]) == 0
  {
  }

  lemma MadeIs(v: Window, sgl: seq<Extent>, c: Cursor, cap: nat, all: seq<Piece>)
    requires CutAll(v, Reads(sgl, c), StartPlace(v, c)) == all
    ensures Made(v, sgl, c, cap) == all[..if cap < |all| then cap else |all|]
  {
  }

  lemma StartIsZero(v: Window)
    ensures StartPlace(v, START) == 0
  {
  }

  /** The turn that begins again with the first entry. */
  lemma ReadsAgain(v: Window, cap: nat)
    requires v == WindowFields(0, 16, 16) && cap > 0
    ensures Made(v, Two(1, 1), Cursor(1, 1, 0), cap) == [Piece(0, 1, 1)]
  {
    var c := Cursor(1, 1, 0);
    var again := Reads(Two(1, 1), c);
    assert again == [Extent(0, 1)] && StartPlace(v, c) == 1;
    hide Cut, Reads, StartPlace;
    CutOne(v, 0, 1);
    CutAllStep(v, again, 0, 1);
    assert again[0..] == again && again[0 + 1..] == [];
    assert [Piece(0, 1, 1)] + [] == [Piece(0, 1, 1)];
    MadeIs(v, Two(1, 1), c, cap, [Piece(0, 1, 1)]);
  }

  /** The two descriptors of two one-byte entries. */
  lemma CutBoth(v: Window)
    requires v == WindowFields(0, 16, 16)
    ensures CutAll(v, Two(1, 1), 0) == [Piece(0, 0, 1)] + [Piece(10, 1, 1)]
    ensures |Cut(v, 0, 1, 0)| == 1 && Where(v, Two(1, 1), 0, 1) == (1, 0)
    ensures |CutAll(v, Two(1, 1), 0)| == 2 && CutAll(v, Two(1, 1), 0)[..1] == [Piece(0, 0, 1)]
  {
    hide *;
    CutOne(v, 0, 0);
    CutOne(v, 10, 1);
    CutAllTwo(v, 1, 1);
    WhereTwo(v, 1, 1, 1);
    NoBytes(Cut(v, 10, 1, 1));
  }

  /** The turn that ends with the ring and the first entry. */
  lemma EndsWithFirst(v: Window)
    requires v == WindowFields(0, 16, 16)
    ensures Made(v, Two(1, 1), START, 1) == [Piece(0, 0, 1)]
    ensures NextCursor(v, Two(1, 1), START, 1) == Cursor(1, 1, 0)
  {
    SmallWrap32(1);
    SmallWrap32(0);
    hide *;
    TwoEntries(1, 1);
    StartIsZero(v);
    FirstStands(1, 1);
    CutBoth(v);
    MadeCut(v, Two(1, 1), START, 1);
    OneBytes(Piece(0, 0, 1));
    CursorOf(v, Two(1, 1), START, 1, 1, 0);
  }

  /** In every ring that stands at its last slot, a request of two one-byte entries reads the first
      entry twice and never the second. */
  lemma SecondEntryIsLost(descMax: nat)
    requires descMax > 0
    ensures
      var v, sgl, s := WindowFields(0, 16, 16), Two(1, 1), Progress(START, descMax - 1, []);
      && Mapped(sgl) && !Completes(ToDevice, v, sgl, descMax, s)
      && Made(v, sgl, START, 1) == [Piece(0, 0, 1)] && NextCursor(v, sgl, START, 1) == Cursor(1, 1, 0)
      && Made(v, sgl, Cursor(1, 1, 0), descMax) == [Piece(0, 1, 1)]
  {
    hide *;
    var v: Window := WindowFields(0, 16, 16);
    TwoEntries(1, 1);
    FirstStands(1, 1);
    CutBoth(v);
    EndsWithFirst(v);
    ReadsAgain(v, descMax);
    RequestIff(ToDevice, v, Two(1, 1), descMax, descMax - 1);
    NotSafe(v, Piece(0, 0, 1), Piece(10, 1, 1), descMax);
  }

  /** The ring ends with the first of two descriptors, and so does the first entry. */
  lemma NotSafe(v: Window, p: Piece, q: Piece, descMax: nat)
    requires descMax > 0
    ensures !Safe(v, [p] + [q], 1, 1, descMax, 0)
  {
  }

  /** With one byte to a descriptor there are as many descriptors as bytes. */
  lemma {:induction false} OneByteEach(v: Window, ps: seq<Piece>)
    requires v.maxlen == 1 && AllInWindow(ps, v)
    ensures Bytes(ps) == |ps|
  {
    if ps != [] {
      OneByteEach(v, ps[..|ps| - 1]);
      assert InWindow(ps[|ps| - 1], v);
    }
  }

  lemma {:induction false} AsManyAsBytes(v: Window, es: seq<Extent>, w: nat, n: nat)
    requires v.maxlen == 1 && w < v.aperture && n <= TotalLen(es)
    ensures |CutAll(v, es, w)| == TotalLen(es) && Bytes(CutAll(v, es, w)[..n]) == n
  {
    var all := CutAll(v, es, w);
    CutAllMoves(ToDevice, v, es, w);
    BytesAreMoves(ToDevice, all);
    hide CutAll, Bytes, MovesFrom;
    OneByteEach(v, all);
    OneByteEach(v, all[..n]);
  }

  /** In a ring with two slots left, a request of one and two bytes, one byte to a descriptor, comes to
      a turn that makes no descriptor while a byte is still to be moved. */
  lemma NothingIsMade(cap: nat)
    requires cap > 0
    ensures
      var v, sgl := WindowFields(0, 16, 1), Two(1, 2);
      && Mapped(sgl) && TotalLen(sgl) == 3 && NextCursor(v, sgl, START, 2) == Cursor(2, 1, 1)
      && Made(v, sgl, Cursor(2, 1, 1), cap) == []
  {
    hide *;
    var v: Window, sgl := WindowFields(0, 16, 1), Two(1, 2);
    TwoEntries(1, 2);
    TwoStream(1, 2);
    StartIsZero(v);
    FirstStands(1, 2);
    AsManyAsBytes(v, sgl, 0, 2);
    MadeCut(v, sgl, START, 2);
    NextStands(v, sgl, START, 2);
    ThirdByte(NextCursor(v, sgl, START, 2));
    MakesNothingIff(v, sgl, Cursor(2, 1, 1), cap);
  }

  lemma FirstStands(a: nat, b: nat)
    requires a > 0
    ensures Standing(Two(a, b), START) && START.sgIdx == 0 && START.offset == 0 && START.sgOffset == 0
    ensures |Two(a, b)| == 2 && Two(a, b)[0] == Extent(0, a)
  {
  }

  lemma ThirdByte(c: Cursor)
    requires Standing(Two(1, 2), c) && c.offset == 2
    ensures c == Cursor(2, 1, 1)
  {
    TwoStream(1, 2);
    assert Two(1, 2)[..0] == [];
  }

  /** Six bytes around a window of three. */
  lemma CutSix(v: Window)
    requires v == WindowFields(0, 3, 3)
    ensures Cut(v, 0, 6, 0) == [Piece(0, 0, 3)] + [Piece(3, 0, 3)]
    ensures CutAll(v, [Extent(0, 6)], 0) == Cut(v, 0, 6, 0)
  {
    CutStep(v, 0, 6, 0);
    CutStep(v, 3, 3, 0);
    CutNothing(v, 6, 0);
    CutAllStep(v, [Extent(0, 6)], 0, 0);
    hide Cut, Place;
    assert [Extent(0, 6)][0..] == [Extent(0, 6)] && [Extent(0, 6)][0 + 1..] == [];
    assert Cut(v, 0, 6, 0) + [] == Cut(v, 0, 6, 0);
  }

  lemma SixMapped()
    ensures Mapped([Extent(0, 6)]) && Distinct(Stream([Extent(0, 6)]))
  {
    OneExtent(Extent(0, 6));
    assert TotalLen([Extent(0, 6)]) == 6;
  }

  /** The mask of offset 3 in a window of three is 2, and its place is 0. */
  lemma MaskOfThree(v: Window)
    requires v == WindowFields(0, 3, 3)
    ensures !MaskFits(v, 3) && StartPlace(v, Cursor(3, 0, 3)) == 2
  {
    assert And(3, 2) == 2 * And(1, 1) && And(1, 1) == 1;
  }

  /** In every ring that stands at its last slot, a request of one entry of six bytes with an aperture of
      three, which is no power of two, goes on at place 2 of the window instead of place 0. */
  lemma MaskMisplaces(descMax: nat)
    requires descMax > 0
    ensures
      var v, sgl, s := WindowFields(0, 3, 3), [Extent(0, 6)], Progress(START, descMax - 1, []);
      && Mapped(sgl) && !Completes(ToDevice, v, sgl, descMax, s)
      && StartPlace(v, Cursor(3, 0, 3)) == 2
  {
    hide *;
    var v: Window := WindowFields(0, 3, 3);
    SixMapped();
    CutSix(v);
    MaskOfThree(v);
    RequestIff(ToDevice, v, [Extent(0, 6)], descMax, descMax - 1);
    NotSafeMask(v, Piece(0, 0, 3), Piece(3, 0, 3), descMax);
  }

  /** The ring ends inside the only entry, where the mask does not fit. */
  lemma NotSafeMask(v: Window, p: Piece, q: Piece, descMax: nat)
    requires descMax > 0 && p.len == 3 && !MaskFits(v, 3)
    ensures !Safe(v, [p] + [q], 2, 1, descMax, 0)
  {
    hide MaskFits;
    OneBytes(p);
    assert ([p] + [q])[..1] == [p];
  }
}
