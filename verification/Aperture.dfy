/** xdma_xfer_aperture: one turn of its loop, which builds a transfer from where the request stands. */
module Aperture {
  import opened Extents
  import opened Powers
  import opened Descriptors
  import opened Walker
  import opened Ring
  import opened Request
  import opened ApertureCut

  // ---------- where a request stands ----------

  /** offset bytes are placed; the driver means to go on at byte sgOffset of entry sgIdx. */
  datatype Cursor = Cursor(offset: nat, sgIdx: nat, sgOffset: nat)

  const START: Cursor := Cursor(0, 0, 0)

  /** The window of a request; desc_blen_max bounds the length of a descriptor. */
  function WindowOf(ep: nat, aperture: nat, blen: nat): Window
    requires aperture >= 1 && blen >= 1
  {
    WindowFields(ep, aperture, Min(aperture, blen))
  }

  /** What a turn of the loop reads: as many entries as are left, but always from the first one on, the
      first of them without its first sg_offset bytes, in 32-bit unsigned arithmetic. */
  function Reads(sgl: seq<Extent>, c: Cursor): seq<Extent> {
    if c.sgIdx >= |sgl| then []
    else [Extent(sgl[0].addr + c.sgOffset, (sgl[0].len - c.sgOffset) % TWO_32)] + sgl[1..|sgl| - c.sgIdx]
  }

  /** The place in the window at which a turn begins. */
  function StartPlace(v: Window, c: Cursor): (w: nat)
    ensures w < v.aperture
  {
    And(c.offset, v.aperture - 1)
  }

  /** The descriptors a turn makes, when the ring has cap slots left. */
  function Made(v: Window, sgl: seq<Extent>, c: Cursor, cap: nat): seq<Piece> {
    var all := CutAll(v, Reads(sgl, c), StartPlace(v, c));
    all[..Min(cap, |all|)]
  }

  /** How many entries cap descriptors finish, and how many bytes they take of the next. */
  function Where(v: Window, es: seq<Extent>, w: nat, cap: nat): (nat, nat)
    requires w < v.aperture
    decreases |es|
  {
    if es == [] || cap == 0 then (0, 0)
    else
      var head := Cut(v, es[0].addr, es[0].len, w);
      if |head| <= cap then
        var (i, d) := Where(v, es[1..], Place(v, w, es[0].len), cap - |head|);
        (i + 1, d)
      else (0, Bytes(head[..cap]))
  }

  /** Where the request stands after a turn. */
  function NextCursor(v: Window, sgl: seq<Extent>, c: Cursor, cap: nat): Cursor {
    var (i, d) := Where(v, Reads(sgl, c), StartPlace(v, c), cap);
    Cursor(Wrap32(c.offset + Bytes(Made(v, sgl, c, cap))), c.sgIdx + i, Wrap32(if i == 0 then c.sgOffset + d else d))
  }

  /** The end-point address stands at place w, possibly just past the window. */
  ghost predicate AtPlace(at: nat, v: Window, w: nat) {
    at == v.ep + w || (w == 0 && at == v.ep + v.aperture)
  }

  /** The ring is as before, except that the slots from first on are filled with the pieces. */
  ghost predicate SlotsFilled(ring: seq<Desc>, before: seq<Desc>, first: nat, dir: Direction, ps: seq<Piece>) {
    && |ring| == |before| && first + |ps| <= |ring|
    && forall s :: 0 <= s < |ring| ==>
        ring[s] == if first <= s < first + |ps| then Filled(before[s], dir, ps[s - first]) else before[s]
  }

  lemma {:induction false} OneSlot(ring: seq<Desc>, before: seq<Desc>, first: nat, dir: Direction, ps: seq<Piece>, p: Piece)
    requires SlotsFilled(ring, before, first, dir, ps) && first + |ps| < |ring|
    ensures
      var slot := first + |ps|;
      SlotsFilled(ring[slot := Filled(ring[slot], dir, p)], before, first, dir, ps + [p])
  {
    hide Filled;
  }

  // One descriptor: as much of what is left as fits the length limit and the window.
  method OneDescriptor(engine: Engine, v: Window, addr: nat, left: nat, slot: nat, at0: nat,
                       ghost w: nat, ghost before: seq<Desc>, ghost first: nat, ghost ps: seq<Piece>)
    returns (len: nat, at: nat)
    requires w < v.aperture && left >= 1 && slot == first + |ps| < engine.desc.Length
    requires AtPlace(at0, v, w) && SlotsFilled(engine.desc[..], before, first, engine.dir, ps)
    modifies engine.desc
    ensures len == Fit(v, left, w) && AtPlace(at, v, On(v, w, len))
    ensures SlotsFilled(engine.desc[..], before, first, engine.dir, ps + [Piece(addr, v.ep + w, len)])
  {
    hide SlotsFilled, Filled;
    var epMax := v.ep + v.aperture - 1;
    len := Min(left, v.maxlen);
    at := if at0 > epMax then v.ep else at0;
    if at + len > epMax {
      len := epMax - at + 1;
    }
    assert at == v.ep + w;
    OneSlot(engine.desc[..], before, first, engine.dir, ps, Piece(addr, at, len));
    engine.desc[slot] := Filled(engine.desc[slot], engine.dir, Piece(addr, at, len));
    at := at + len;
  }

  /** How far an entry is cut: made descriptors are there, at place w the rest follows. */
  ghost predicate Cutting(v: Window, addr0: nat, len0: nat, w0: nat, made: seq<Piece>, addr: nat, left: nat, w: nat) {
    && w0 < v.aperture && w < v.aperture && left <= len0 && addr == addr0 + (len0 - left)
    && Bytes(made) == len0 - left && w == Place(v, w0, len0 - left)
    && made + Cut(v, addr, left, w) == Cut(v, addr0, len0, w0)
  }

  lemma {:induction false} CuttingStep(v: Window, addr0: nat, len0: nat, w0: nat, made: seq<Piece>, addr: nat, left: nat, w: nat)
    requires Cutting(v, addr0, len0, w0, made, addr, left, w) && left > 0
    ensures
      var n := Fit(v, left, w);
      Cutting(v, addr0, len0, w0, made + [Piece(addr, v.ep + w, n)], addr + n, left - n, On(v, w, n))
  {
    CuttingIs(v, addr0, len0, w0, made, addr, left, w);
    hide *;
    var n := Fit(v, left, w);
    var p, rest := Piece(addr, v.ep + w, n), Cut(v, addr + n, left - n, On(v, w, n));
    CutStep(v, addr, left, w);
    PlaceAdds(v, w0, len0 - left, n);
    PlaceIsOn(v, w, n);
    OneMore(made, p, rest);
    CuttingIs(v, addr0, len0, w0, made + [p], addr + n, left - n, On(v, w, n));
  }

  lemma CuttingIs(v: Window, addr0: nat, len0: nat, w0: nat, made: seq<Piece>, addr: nat, left: nat, w: nat)
    ensures Cutting(v, addr0, len0, w0, made, addr, left, w) <==>
      && w0 < v.aperture && w < v.aperture && left <= len0 && addr == addr0 + (len0 - left)
      && Bytes(made) == len0 - left && w == Place(v, w0, len0 - left)
      && made + Cut(v, addr, left, w) == Cut(v, addr0, len0, w0)
  {
    hide Cut, Bytes, Place;
  }

  lemma {:induction false} OneMore(made: seq<Piece>, p: Piece, rest: seq<Piece>)
    ensures made + ([p] + rest) == made + [p] + rest && Bytes(made + [p]) == Bytes(made) + p.len
  {
    assert (made + [p])[..|made|] == made;
  }

  // The inner loop: one entry, until it or the ring is exhausted. left is what remains of it.
  method FillEntry(engine: Engine, v: Window, addr0: nat, len0: nat, first: nat, descCnt0: nat, at0: nat, sgOffset0: nat,
                   ghost w0: nat, ghost before: seq<Desc>, ghost ps0: seq<Piece>)
    returns (descCnt: nat, at: nat, left: nat, sgOffset: nat, ghost made: seq<Piece>, ghost w: nat)
    requires w0 < v.aperture && descCnt0 == |ps0| && first + descCnt0 < engine.desc.Length
    requires AtPlace(at0, v, w0) && SlotsFilled(engine.desc[..], before, first, engine.dir, ps0) && sgOffset0 < TWO_32
    modifies engine.desc
    ensures left <= len0
    ensures Cutting(v, addr0, len0, w0, made, addr0 + (len0 - left), left, w) && AtPlace(at, v, w)
    ensures descCnt == descCnt0 + |made| && first + descCnt <= engine.desc.Length
    ensures left > 0 ==> first + descCnt == engine.desc.Length
    ensures sgOffset == Wrap32(sgOffset0 + (len0 - left))
    ensures SlotsFilled(engine.desc[..], before, first, engine.dir, ps0 + made)
  {
    hide *;
    var addr: nat := addr0;
    descCnt, at, left, sgOffset, made, w := descCnt0, at0, len0, sgOffset0, [], w0;
    StartCutting(v, addr0, len0, w0);
    SmallWrap32(sgOffset0);
    assert ps0 + [] == ps0;
    while left > 0
      invariant w < v.aperture && left <= len0 && addr == addr0 + (len0 - left)
      invariant Cutting(v, addr0, len0, w0, made, addr, left, w) && AtPlace(at, v, w)
      invariant descCnt == descCnt0 + |made| && first + descCnt < engine.desc.Length
      invariant sgOffset == Wrap32(sgOffset0 + (len0 - left))
      invariant SlotsFilled(engine.desc[..], before, first, engine.dir, ps0 + made)
    {
      var len;
      ghost var p := Piece(addr, v.ep + w, Fit(v, left, w));
      CuttingStep(v, addr0, len0, w0, made, addr, left, w);
      len, at := OneDescriptor(engine, v, addr, left, first + descCnt, at, w, before, first, ps0 + made);
      assert ps0 + made + [p] == ps0 + (made + [p]);
      Wrap32Add(sgOffset0 + (len0 - left), len);
      sgOffset := Wrap32(sgOffset + len);
      addr, left, descCnt, made, w := addr + len, left - len, descCnt + 1, made + [p], On(v, w, len);
      if first + descCnt == engine.desc.Length {
        break;
      }
    }
  }

  lemma SmallWrap32(n: nat)
    requires n < TWO_32
    ensures Wrap32(n) == n
  {
  }

  lemma {:induction false} StartCutting(v: Window, addr: nat, len: nat, w: nat)
    requires w < v.aperture
    ensures Cutting(v, addr, len, w, [], addr, len, w)
  {
    assert [] + Cut(v, addr, len, w) == Cut(v, addr, len, w);
    PlaceIsOn(v, w, 0);
  }

  // ---------- the outer loop ----------

  /** k entries are done: their descriptors are ps, at place w the others follow. */
  ghost predicate Reading(v: Window, es: seq<Extent>, w0: nat, cap: nat, k: nat, w: nat, ps: seq<Piece>) {
    && k <= |es| && w0 < v.aperture && w < v.aperture && |ps| <= cap
    && ps + CutAll(v, es[k..], w) == CutAll(v, es, w0)
    && Where(v, es, w0, cap) == ToGo(k, Where(v, es[k..], w, cap - |ps|))
  }

  function ToGo(k: nat, there: (nat, nat)): (nat, nat) {
    (k + there.0, there.1)
  }

  lemma {:induction false} StartReading(v: Window, es: seq<Extent>, w: nat, cap: nat)
    requires w < v.aperture
    ensures Reading(v, es, w, cap, 0, w, [])
  {
    assert es[0..] == es && [] + CutAll(v, es, w) == CutAll(v, es, w);
  }

  lemma {:induction false} CutAllStep(v: Window, es: seq<Extent>, k: nat, w: nat)
    requires k < |es| && w < v.aperture
    ensures CutAll(v, es[k..], w) == Cut(v, es[k].addr, es[k].len, w) + CutAll(v, es[k + 1..], Place(v, w, es[k].len))
  {
    assert es[k..][1..] == es[k + 1..];
  }

  lemma {:induction false} WhereStep(v: Window, es: seq<Extent>, k: nat, w: nat, cap: nat)
    requires k < |es| && w < v.aperture && cap > 0
    ensures
      var head := Cut(v, es[k].addr, es[k].len, w);
      Where(v, es[k..], w, cap) ==
        if |head| <= cap then ToGo(1, Where(v, es[k + 1..], Place(v, w, es[k].len), cap - |head|)) else (0, Bytes(head[..cap]))
  {
    assert es[k..][1..] == es[k + 1..];
  }

  lemma {:induction false} ReadingStep(v: Window, es: seq<Extent>, w0: nat, cap: nat, k: nat, w: nat, ps: seq<Piece>, made: seq<Piece>)
    requires Reading(v, es, w0, cap, k, w, ps) && k < |es| && |ps| + |made| <= cap && |ps| < cap
    requires made == Cut(v, es[k].addr, es[k].len, w)
    ensures Reading(v, es, w0, cap, k + 1, Place(v, w, es[k].len), ps + made)
  {
    hide Cut, CutAll, Where, Place, ToGo;
    CutAllStep(v, es, k, w);
    var rest, w1 := CutAll(v, es[k + 1..], Place(v, w, es[k].len)), Place(v, w, es[k].len);
    assert ps + (made + rest) == ps + made + rest;
    WhereStep(v, es, k, w, cap - |ps|);
    assert cap - |ps| - |made| == cap - |ps + made|;
    ToGoTwice(k, Where(v, es[k + 1..], w1, cap - |ps + made|));
  }

  lemma ToGoTwice(k: nat, there: (nat, nat))
    ensures ToGo(k, ToGo(1, there)) == ToGo(k + 1, there)
  {
  }

  /** The ring ends inside entry k. */
  lemma {:induction false} ReadingBreaks(v: Window, es: seq<Extent>, w0: nat, cap: nat, k: nat, w: nat, ps: seq<Piece>,
                                         made: seq<Piece>, addr: nat, left: nat, w1: nat)
    requires Reading(v, es, w0, cap, k, w, ps) && k < |es| && |ps| + |made| == cap && |ps| < cap && left > 0
    requires Cutting(v, es[k].addr, es[k].len, w, made, addr, left, w1)
    ensures
      var all := CutAll(v, es, w0);
      ps + made == all[..Min(cap, |all|)] && Where(v, es, w0, cap) == (k, es[k].len - left)
  {
    hide Cut, CutAll, Where, Place, Bytes, ToGo;
    var rest := Cut(v, addr, left, w1);
    CutStep(v, addr, left, w1);
    CutAllStep(v, es, k, w);
    WhereStep(v, es, k, w, cap - |ps|);
    var more := CutAll(v, es[k + 1..], Place(v, w, es[k].len));
    PrefixOfThree(ps, made, rest, more);
    ToGoHere(k, es[k].len - left);
  }

  lemma ToGoHere(k: nat, d: nat)
    ensures ToGo(k, (0, d)) == (k, d)
  {
  }

  lemma {:induction false} PrefixOfThree(ps: seq<Piece>, made: seq<Piece>, rest: seq<Piece>, more: seq<Piece>)
    ensures
      var all := ps + (made + rest + more);
      (made + rest)[..|made|] == made && all[..|ps + made|] == ps + made && |all| >= |ps| + |made| + |rest|
  {
  }

  /** All entries are done, or the ring ends with one. */
  lemma {:induction false} ReadingEnds(v: Window, es: seq<Extent>, w0: nat, cap: nat, k: nat, w: nat, ps: seq<Piece>)
    requires Reading(v, es, w0, cap, k, w, ps) && (k == |es| || |ps| == cap)
    ensures
      var all := CutAll(v, es, w0);
      ps == all[..Min(cap, |all|)] && Where(v, es, w0, cap) == (k, 0)
  {
    assert k == |es| ==> es[k..] == [];
    assert ps + CutAll(v, es[k..], w) == CutAll(v, es, w0);
  }

  /** The part of the request the driver keeps between turns. */
  class ApertureRequest {
    const epAddr: nat
    const aperture: nat
    const totalLen: nat
    var offset: nat
    var sgIdx: nat
    var sgOffset: nat

    constructor (epAddr: nat, aperture: nat, sgl: seq<Extent>)
      ensures this.epAddr == epAddr && this.aperture == aperture && totalLen == Wrap32(TotalLen(sgl)) && At() == START
    {
      this.epAddr, this.aperture := epAddr, aperture;
      totalLen := Wrap32(TotalLen(sgl));
      offset, sgIdx, sgOffset := 0, 0, 0;
    }

    function At(): Cursor
      reads this
    {
      Cursor(offset, sgIdx, sgOffset)
    }
  }

  /** A scatterlist whose lengths fit their 32 bits, as does the cursor. */
  ghost predicate Fields32(sgl: seq<Extent>, c: Cursor) {
    c.offset < TWO_32 && c.sgOffset < TWO_32 && forall i :: 0 <= i < |sgl| ==> sgl[i].len < TWO_32
  }

  /** The entry the loop reads at step k. */
  lemma ReadsAt(sgl: seq<Extent>, c: Cursor, k: nat)
    requires Fields32(sgl, c) && c.sgIdx + k < |sgl|
    ensures
      var es := Reads(sgl, c);
      && |es| == |sgl| - c.sgIdx
      && es[k] == if k == 0 && c.sgOffset > 0 then Extent(sgl[0].addr + c.sgOffset, (sgl[0].len - c.sgOffset) % TWO_32) else sgl[k]
  {
    if k > 0 {
      assert sgl[1..|sgl| - c.sgIdx][k - 1] == sgl[k];
    }
  }

  // Reads entry s of what the turn reads, and cuts it.
  method FillNext(engine: Engine, v: Window, sgl: seq<Extent>, ghost c: Cursor, s: nat, sgOffset0: nat,
                  first: nat, descCnt0: nat, at0: nat, ghost w0: nat, ghost before: seq<Desc>, ghost ps0: seq<Piece>)
    returns (descCnt: nat, at: nat, took: nat, left: nat, sgOffset: nat, ghost made: seq<Piece>, ghost w: nat)
    requires Fields32(sgl, c) && c.sgIdx + s < |sgl| && sgOffset0 == if s == 0 then c.sgOffset else 0
    requires w0 < v.aperture && descCnt0 == |ps0| && first + descCnt0 < engine.desc.Length
    requires AtPlace(at0, v, w0) && SlotsFilled(engine.desc[..], before, first, engine.dir, ps0)
    modifies engine.desc
    ensures s < |Reads(sgl, c)|
    ensures
      var e := Reads(sgl, c)[s];
      took + left == e.len && Cutting(v, e.addr, e.len, w0, made, e.addr + took, left, w) && AtPlace(at, v, w)
    ensures descCnt == descCnt0 + |made| && first + descCnt <= engine.desc.Length && Bytes(made) == took
    ensures left > 0 ==> first + descCnt == engine.desc.Length
    ensures sgOffset == Wrap32(sgOffset0 + took)
    ensures SlotsFilled(engine.desc[..], before, first, engine.dir, ps0 + made)
  {
    hide SlotsFilled, AtPlace, Wrap32, Reads, Cut, Place;
    ReadsAt(sgl, c, s);
    var addr, tlen := sgl[s].addr, sgl[s].len;
    if sgOffset0 != 0 {
      tlen, addr := (tlen - sgOffset0) % TWO_32, addr + sgOffset0;
    }
    descCnt, at, left, sgOffset, made, w := FillEntry(engine, v, addr, tlen, first, descCnt0, at0, sgOffset0, w0, before, ps0);
    took := tlen - left;
  }

  lemma {:induction false} StartFilling(ring: seq<Desc>, first: nat, dir: Direction)
    requires first <= |ring|
    ensures SlotsFilled(ring, ring, first, dir, [])
  {
  }

  /** Where the outer loop stands after s entries. */
  ghost predicate Turning(v: Window, sgl: seq<Extent>, c: Cursor, cap: nat, s: nat, w: nat, ps: seq<Piece>, offset: nat, len: nat) {
    && Reading(v, Reads(sgl, c), StartPlace(v, c), cap, s, w, ps)
    && offset == Wrap32(c.offset + Bytes(ps)) && len == Wrap32(Bytes(ps))
  }

  lemma {:induction false} StartTurning(v: Window, sgl: seq<Extent>, c: Cursor, cap: nat)
    requires Fields32(sgl, c)
    ensures Turning(v, sgl, c, cap, 0, StartPlace(v, c), [], c.offset, 0)
    ensures Wrap32(c.sgOffset) == c.sgOffset && |Reads(sgl, c)| == if c.sgIdx < |sgl| then |sgl| - c.sgIdx else 0
  {
    SmallWrap32(c.offset);
    SmallWrap32(c.sgOffset);
    SmallWrap32(0);
    ReadsCount(sgl, c);
    hide Reading, Reads, StartPlace, Wrap32, Fields32;
    StartReading(v, Reads(sgl, c), StartPlace(v, c), cap);
  }

  lemma {:induction false} CountBytes(c: Cursor, ps: seq<Piece>, made: seq<Piece>, offset: nat, len: nat, took: nat)
    requires offset == Wrap32(c.offset + Bytes(ps)) && len == Wrap32(Bytes(ps)) && Bytes(made) == took
    ensures Wrap32(offset + took) == Wrap32(c.offset + Bytes(ps + made)) && Wrap32(len + took) == Wrap32(Bytes(ps + made))
  {
    BytesConcat(ps, made);
    Wrap32Add(c.offset + Bytes(ps), took);
    Wrap32Add(Bytes(ps), took);
  }

  /** An entry is done. */
  lemma {:induction false} TurnsOn(v: Window, sgl: seq<Extent>, c: Cursor, cap: nat, s: nat, w: nat, ps: seq<Piece>, offset: nat, len: nat,
                                   made: seq<Piece>, took: nat, w1: nat)
    requires Turning(v, sgl, c, cap, s, w, ps, offset, len) && s < |Reads(sgl, c)| && |ps| < cap && |ps| + |made| <= cap
    requires
      var e := Reads(sgl, c)[s];
      took == e.len && Bytes(made) == took && Cutting(v, e.addr, e.len, w, made, e.addr + took, 0, w1)
    ensures w1 < v.aperture && Turning(v, sgl, c, cap, s + 1, w1, ps + made, Wrap32(offset + took), Wrap32(len + took))
  {
    hide Reading, Wrap32, Reads, StartPlace, Cut, Bytes, Place;
    var e := Reads(sgl, c)[s];
    CuttingGives(v, e.addr, e.len, w, made, 0, w1);
    ReadingStep(v, Reads(sgl, c), StartPlace(v, c), cap, s, w, ps, made);
    CountBytes(c, ps, made, offset, len, took);
  }

  /** The ring ends inside an entry. */
  lemma {:induction false} TurnBreaks(v: Window, sgl: seq<Extent>, c: Cursor, cap: nat, s: nat, w: nat, ps: seq<Piece>, offset: nat, len: nat,
                                      made: seq<Piece>, took: nat, left: nat, w1: nat)
    requires Turning(v, sgl, c, cap, s, w, ps, offset, len) && s < |Reads(sgl, c)| && |ps| < cap && |ps| + |made| == cap && left > 0
    requires
      var e := Reads(sgl, c)[s];
      took + left == e.len && Bytes(made) == took && Cutting(v, e.addr, e.len, w, made, e.addr + took, left, w1)
    ensures ps + made == Made(v, sgl, c, cap) && Wrap32(len + took) == Wrap32(Bytes(ps + made))
    ensures NextCursor(v, sgl, c, cap) == Cursor(Wrap32(offset + took), c.sgIdx + s, Wrap32((if s == 0 then c.sgOffset else 0) + took))
  {
    hide Reading, Wrap32, Reads, StartPlace, Cut, CutAll, Where, Bytes, Made, NextCursor, Place, Cutting;
    var e := Reads(sgl, c)[s];
    ReadingBreaks(v, Reads(sgl, c), StartPlace(v, c), cap, s, w, ps, made, e.addr + took, left, w1);
    CursorIs(v, sgl, c, cap, s, took, ps + made);
    CountBytes(c, ps, made, offset, len, took);
  }

  /** All entries are done, or the ring ended with one. */
  lemma {:induction false} TurnEnds(v: Window, sgl: seq<Extent>, c: Cursor, cap: nat, s: nat, w: nat, ps: seq<Piece>, offset: nat, len: nat)
    requires Turning(v, sgl, c, cap, s, w, ps, offset, len) && (s == |Reads(sgl, c)| || |ps| == cap) && Fields32(sgl, c)
    ensures ps == Made(v, sgl, c, cap) && len == Wrap32(Bytes(ps))
    ensures NextCursor(v, sgl, c, cap) == Cursor(offset, c.sgIdx + s, if s == 0 then c.sgOffset else 0)
  {
    SmallWrap32(c.sgOffset);
    SmallWrap32(0);
    hide Reading, Wrap32, Reads, StartPlace, Cut, CutAll, Where, Bytes, Made, NextCursor, Place;
    ReadingEnds(v, Reads(sgl, c), StartPlace(v, c), cap, s, w, ps);
    CursorIs(v, sgl, c, cap, s, 0, ps);
  }

  /** Builds the descriptors of one turn. */
  method FillPieces(engine: Engine, req: ApertureRequest, sgl: seq<Extent>, blen: nat)
    returns (descCnt: nat, len: nat, ghost ps: seq<Piece>)
    requires engine.descIdx < engine.desc.Length && req.aperture >= 1 && blen >= 1 && Fields32(sgl, req.At())
    modifies engine.desc, req`offset, req`sgIdx, req`sgOffset
    ensures
      var v, cap := WindowOf(req.epAddr, req.aperture, blen), engine.desc.Length - engine.descIdx;
      ps == Made(v, sgl, old(req.At()), cap) && req.At() == NextCursor(v, sgl, old(req.At()), cap)
    ensures descCnt == |ps| && len == Wrap32(Bytes(ps)) && SlotsFilled(engine.desc[..], old(engine.desc[..]), engine.descIdx, engine.dir, ps)
  {
    hide Turning, Reading, SlotsFilled, Cutting, Wrap32, Reads, And, Bytes, Made, NextCursor, Cut, CutAll, Where, Place, WindowOf;
    var v := WindowOf(req.epAddr, req.aperture, blen);
    var first, i, sgOffset := engine.descIdx, req.sgIdx, req.sgOffset;
    var s: nat, at: nat := 0, v.ep + And(req.offset, v.aperture - 1);
    ghost var c, before := req.At(), engine.desc[..];
    ghost var cap: nat, w: nat := engine.desc.Length - first, StartPlace(v, c);
    descCnt, len, ps := 0, 0, [];
    StartTurning(v, sgl, c, cap);
    StartFilling(engine.desc[..], first, engine.dir);
    assert AtPlace(at, v, w);
    hide AtPlace, Fields32, StartPlace;
    while i < |sgl| && first + descCnt < engine.desc.Length
      invariant i == c.sgIdx + s && s <= |Reads(sgl, c)|
      invariant sgOffset == (if s == 0 then c.sgOffset else 0)
      invariant descCnt == |ps| && first + descCnt <= engine.desc.Length && w < v.aperture
      invariant Turning(v, sgl, c, cap, s, w, ps, req.offset, len) && AtPlace(at, v, w)
      invariant SlotsFilled(engine.desc[..], before, first, engine.dir, ps)
    {
      var took, left;
      ghost var made, w1: nat;
      descCnt, at, took, left, sgOffset, made, w1 := FillNext(engine, v, sgl, c, s, sgOffset, first, descCnt, at, w, before, ps);
      if left != 0 {
        TurnBreaks(v, sgl, c, cap, s, w, ps, req.offset, len, made, took, left, w1);
        req.offset, len := Wrap32(req.offset + took), Wrap32(len + took);
        ps := ps + made;
        req.sgIdx, req.sgOffset := i, sgOffset;
        return;
      }
      TurnsOn(v, sgl, c, cap, s, w, ps, req.offset, len, made, took, w1);
      req.offset, len := Wrap32(req.offset + took), Wrap32(len + took);
      ps, w := ps + made, w1;
      sgOffset, i, s := 0, i + 1, s + 1;
    }
    TurnEnds(v, sgl, c, cap, s, w, ps, req.offset, len);
    req.sgIdx, req.sgOffset := i, sgOffset;
  }

  lemma ReadsCount(sgl: seq<Extent>, c: Cursor)
    ensures |Reads(sgl, c)| == if c.sgIdx < |sgl| then |sgl| - c.sgIdx else 0
  {
  }

  lemma CursorIs(v: Window, sgl: seq<Extent>, c: Cursor, cap: nat, s: nat, d: nat, ps: seq<Piece>)
    requires
      var es, w := Reads(sgl, c), StartPlace(v, c);
      Where(v, es, w, cap) == (s, d) && ps == CutAll(v, es, w)[..Min(cap, |CutAll(v, es, w)|)]
    ensures ps == Made(v, sgl, c, cap)
    ensures NextCursor(v, sgl, c, cap) ==
      Cursor(Wrap32(c.offset + Bytes(ps)), c.sgIdx + s, Wrap32(if s == 0 then c.sgOffset + d else d))
  {
  }

  lemma {:induction false} CuttingGives(v: Window, addr: nat, len: nat, w: nat, made: seq<Piece>, left: nat, w1: nat)
    requires left <= len && Cutting(v, addr, len, w, made, addr + (len - left), left, w1)
    ensures Bytes(made) == len - left && w < v.aperture
    ensures left == 0 ==> made == Cut(v, addr, len, w) && w1 == Place(v, w, len)
  {
    if left == 0 {
      CutNothing(v, addr + len, w1);
      assert made + [] == made;
    }
  }

  /** A filled slot after it is linked and, if it is the last one, terminated. */
  function Chained(d: Desc, base: nat, slot: nat, end: nat): Desc {
    var next := NextAddr(base, slot, end);
    d.(nextLo := Lo(next), nextHi := Hi(next), control := if slot + 1 == end then DESC_MAGIC | STOP_FLAGS else DESC_MAGIC)
  }

  // Creates the linked list over the filled slots.
  method Chain(engine: Engine, first: nat, descCnt: nat)
    requires 1 <= descCnt && first + descCnt <= engine.desc.Length
    modifies engine.desc
    ensures forall s :: 0 <= s < engine.desc.Length ==>
      engine.desc[s] == if first <= s < first + descCnt then Chained(old(engine.desc[s]), engine.descBus, s, first + descCnt)
                        else old(engine.desc[s])
  {
    var bus := SlotAddr(engine.descBus, first);
    var i := first;
    while i < first + descCnt - 1
      invariant first <= i <= first + descCnt - 1 && bus == SlotAddr(engine.descBus, i)
      invariant forall s :: 0 <= s < engine.desc.Length ==>
        engine.desc[s] == if first <= s < i then Chained(old(engine.desc[s]), engine.descBus, s, first + descCnt)
                          else old(engine.desc[s])
    {
      bus := bus + DESC_SIZE;
      engine.desc[i] := engine.desc[i].(nextLo := Lo(bus), nextHi := Hi(bus), control := DESC_MAGIC);
      i := i + 1;
    }
    engine.desc[i] := engine.desc[i].(nextLo := 0, nextHi := 0, control := DESC_MAGIC | STOP_FLAGS);
  }

  lemma ChainedIsPlanned(d: Desc, base: nat, slot: nat, end: nat, dir: Direction, p: Piece)
    requires slot < end
    ensures Chained(Filled(d, dir, p), base, slot, end).nextLo == Lo(NextAddr(base, slot, end))
    ensures Announced(Chained(Filled(d, dir, p), base, slot, end), base, slot, end) == PlannedDesc(base, slot, end, dir, p)
  {
    assert DESC_MAGIC | STOP_FLAGS == WithFlags(DESC_MAGIC, STOP_FLAGS);
    hide Lo, Hi, WithFlags, WithAdjacent, AdjacentFor, NextAddr;
  }

  // Links and announces the filled slots; the ring then holds the pieces as a transfer.
  method LinkPieces(engine: Engine, first: nat, descCnt: nat, ghost before: seq<Desc>, ghost ps: seq<Piece>)
    requires 1 <= descCnt == |ps| && SlotsFilled(engine.desc[..], before, first, engine.dir, ps)
    modifies engine.desc
    ensures HoldsTransfer(engine.desc[..], engine.descBus, first, engine.dir, ps)
  {
    hide Chained, Filled, Announced, PlannedDesc, HoldsTransfer, Lo, NextAddr;
    ghost var end := first + descCnt;
    Chain(engine, first, descCnt);
    forall s | first <= s < end
      ensures engine.desc[s].nextLo == Lo(NextAddr(engine.descBus, s, end))
      ensures Announced(engine.desc[s], engine.descBus, s, end) == PlannedDesc(engine.descBus, s, end, engine.dir, ps[s - first])
    {
      ChainedIsPlanned(before[s], engine.descBus, s, end, engine.dir, ps[s - first]);
    }
    engine.FillAdjacent(first, descCnt);
    SlotsHold(engine.desc[..], engine.descBus, first, engine.dir, ps);
  }

  /** One turn of the loop, wherever the request stands: the hardware, started on the transfer, stops
      after its last slot and has moved the first bytes of what the turn reads around the window, from
      the turn's own starting place on, through descriptors that never leave the window. If nothing is
      read, there is no descriptor, the driver's "desc_cnt - 1" wraps around, and the C program is
      undefined from there. */
  method BuildTransfer(engine: Engine, req: ApertureRequest, sgl: seq<Extent>, blen: nat)
    returns (undefined: bool, xfer: Transfer, ghost ps: seq<Piece>)
    requires engine.descIdx < engine.desc.Length && req.aperture >= 1 && blen >= 1 && Fields32(sgl, req.At())
    modifies engine.desc, engine`descIdx, engine`descUsed, req`offset, req`sgIdx, req`sgOffset
    ensures engine.descIdx < engine.desc.Length
    ensures
      var v, c, first := WindowOf(req.epAddr, req.aperture, blen), old(req.At()), old(engine.descIdx);
      && ps == Made(v, sgl, c, engine.desc.Length - first) && (undefined <==> ps == [])
      && req.At() == NextCursor(v, sgl, c, engine.desc.Length - first)
      && (!undefined ==>
            && xfer == Transfer(first, SlotAddr(engine.descBus, first), |ps|, Wrap32(Bytes(ps))) && AllInWindow(ps, v)
            && HoldsTransfer(engine.desc[..], engine.descBus, first, engine.dir, ps)
            && Bytes(ps) <= |Stream(Reads(sgl, c))|
            && Walk(engine.desc[..], engine.descBus, xfer.descBus, engine.desc.Length) ==
               Stopped(Wrapped(engine.dir, Stream(Reads(sgl, c))[..Bytes(ps)], v, StartPlace(v, c)), Slots(first, first + |ps|))
            && engine.descIdx == Advance(first, |ps|, engine.desc.Length)
            && engine.descUsed == old(engine.descUsed) + |ps|)
    ensures forall i: nat | i < |ps| ::
      1 <= ps[i].len <= blen && req.epAddr <= ps[i].ep && ps[i].ep + ps[i].len <= req.epAddr + req.aperture
    ensures Longest(ps, Reads(sgl, old(req.At())), blen, req.epAddr + req.aperture)
    ensures !undefined ==>
      var walk := Walk(engine.desc[..], engine.descBus, xfer.descBus, engine.desc.Length);
      && walk.Stopped?
      && GoesAround(walk.moves, engine.dir, Stream(Reads(sgl, old(req.At())))[..Bytes(ps)], req.epAddr, req.aperture,
           And(old(req.offset), req.aperture - 1))
      && (old(req.At()) == START ==>
            forall k: nat | k < |walk.moves| :: k < |Stream(sgl)| && walk.moves[k] ==
              if engine.dir == ToDevice then Move(Stream(sgl)[k], req.epAddr + k % req.aperture)
              else Move(req.epAddr + k % req.aperture, Stream(sgl)[k]))
  {
    hide *;
    ghost var before, c, v := engine.desc[..], req.At(), WindowOf(req.epAddr, req.aperture, blen);
    var first := engine.descIdx;
    OffsetIs(req);
    var descCnt, len;
    descCnt, len, ps := FillPieces(engine, req, sgl, blen);
    MadeByAddress(req.epAddr, req.aperture, blen, sgl, c, engine.desc.Length - first);
    undefined := descCnt == 0;
    xfer := Transfer(first, SlotAddr(engine.descBus, first), descCnt, len);
    if undefined {
      return;
    }
    FilledSlotsFit(engine.desc[..], before, first, engine.dir, ps);
    MadeMoves(engine.dir, v, sgl, c, engine.desc.Length - first);
    LinkPieces(engine, first, descCnt, before, ps);
    ApertureWalk(engine.desc[..], engine.descBus, first, engine.dir, ps);
    engine.descUsed := engine.descUsed + descCnt;
    engine.descIdx := Advance(first, descCnt, engine.desc.Length);
    ghost var walk := Walk(engine.desc[..], engine.descBus, xfer.descBus, engine.desc.Length);
    WrappedGoesAround(walk.moves, engine.dir, Stream(Reads(sgl, c))[..Bytes(ps)], v, StartPlace(v, c));
    FromStart(walk.moves, engine.dir, sgl, c, req.epAddr, req.aperture, Bytes(ps));
  }

  /** The cursor's offset is the request's. */
  lemma OffsetIs(req: ApertureRequest)
    ensures req.At().offset == req.offset
  {
  }

  /** The window of a request begins at its end-point address and has its aperture; desc_blen_max bounds every
      descriptor. */
  lemma {:induction false} MadeByAddress(ep: nat, aperture: nat, blen: nat, sgl: seq<Extent>, c: Cursor, cap: nat)
    requires aperture >= 1 && blen >= 1
    ensures
      var v := WindowOf(ep, aperture, blen);
      var ps := Made(v, sgl, c, cap);
      && v.ep == ep && v.aperture == aperture && StartPlace(v, c) == And(c.offset, aperture - 1)
      && (forall i: nat | i < |ps| :: 1 <= ps[i].len <= blen && ep <= ps[i].ep && ps[i].ep + ps[i].len <= ep + aperture)
      && Longest(ps, Reads(sgl, c), blen, ep + aperture)
  {
    var v := WindowOf(ep, aperture, blen);
    var all := CutAll(v, Reads(sgl, c), StartPlace(v, c));
    MadeMoves(ToDevice, v, sgl, c, cap);
    CutAllLongest(v, Reads(sgl, c), StartPlace(v, c));
    hide CutAll, Reads, StartPlace, EndsExtent, Bytes, Wrapped, MovesFrom;
    LongestPrefix(all, Reads(sgl, c), v.maxlen, v.ep + v.aperture, Min(cap, |all|));
  }

  /** A turn that begins with the request reads the whole list, from place 0 on. */
  lemma {:induction false} FromStart(ms: seq<Move>, dir: Direction, sgl: seq<Extent>, c: Cursor, ep: nat, aperture: nat, n: nat)
    requires aperture >= 1 && Fields32(sgl, c) && n <= |Stream(Reads(sgl, c))|
    requires GoesAround(ms, dir, Stream(Reads(sgl, c))[..n], ep, aperture, And(c.offset, aperture - 1))
    ensures c == START ==>
      forall k: nat | k < |ms| :: k < |Stream(sgl)| && ms[k] ==
        if dir == ToDevice then Move(Stream(sgl)[k], ep + k % aperture) else Move(ep + k % aperture, Stream(sgl)[k])
  {
    if c == START {
      ReadsAll(sgl);
      AndZero(aperture - 1);
      hide Stream, Reads, And;
    }
  }

  lemma AndZero(y: nat)
    ensures And(0, y) == 0
  {
  }

  lemma ReadsAll(sgl: seq<Extent>)
    requires Fields32(sgl, START)
    ensures Reads(sgl, START) == sgl
  {
    if sgl != [] {
      assert sgl == [sgl[0]] + sgl[1..];
      assert sgl[0].len < TWO_32 && Extent(sgl[0].addr + 0, (sgl[0].len - 0) % TWO_32) == sgl[0];
      assert sgl[1..|sgl| - 0] == sgl[1..];
    }
  }

  lemma {:induction false} FilledSlotsFit(ring: seq<Desc>, before: seq<Desc>, first: nat, dir: Direction, ps: seq<Piece>)
    requires SlotsFilled(ring, before, first, dir, ps)
    ensures first + |ps| <= |ring|
  {
  }

  /** What the descriptors of a turn move. */
  lemma {:induction false} MadeMoves(dir: Direction, v: Window, sgl: seq<Extent>, c: Cursor, cap: nat)
    ensures
      var ps := Made(v, sgl, c, cap);
      && Bytes(ps) <= |Stream(Reads(sgl, c))| && AllInWindow(ps, v)
      && MovesFrom(dir, ps, 0) == Wrapped(dir, Stream(Reads(sgl, c))[..Bytes(ps)], v, StartPlace(v, c))
  {
    var all := CutAll(v, Reads(sgl, c), StartPlace(v, c));
    hide MovesFrom, Reads, Wrapped, StartPlace, CutAll;
    PrefixMoves(dir, v, Reads(sgl, c), StartPlace(v, c), Min(cap, |all|));
  }

  lemma {:induction false} ApertureWalk(ring: seq<Desc>, base: nat, first: nat, dir: Direction, ps: seq<Piece>)
    requires |ps| >= 1 && HoldsTransfer(ring, base, first, dir, ps)
    ensures Walk(ring, base, SlotAddr(base, first), |ring|) == Stopped(MovesFrom(dir, ps, 0), Slots(first, first + |ps|))
  {
    hide *;
    FitsInRing(ring, base, first, dir, ps);
    WalkFromPiece(ring, base, first, dir, ps, 0, |ring|);
    assert first + 0 == first;
  }
}
