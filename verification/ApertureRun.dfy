/** Whole aperture requests, turn after turn, when every transfer completes: for which of them the
    hardware moves what it should. */
module ApertureRun {
  import opened Extents
  import opened Walker
  import opened Ring
  import opened Request
  import opened ApertureCut
  import opened Aperture
  import opened Powers

  /** Where the request and the ring stand, and what was moved so far. */
  datatype Progress = Progress(at: Cursor, descIdx: nat, log: seq<Move>)

  function Turn(dir: Direction, v: Window, sgl: seq<Extent>, descMax: nat, s: Progress): (t: Progress)
    requires s.descIdx < descMax
    ensures t.descIdx < descMax
  {
    var ps := Made(v, sgl, s.at, descMax - s.descIdx);
    Progress(NextCursor(v, sgl, s.at, descMax - s.descIdx), Advance(s.descIdx, |ps|, descMax), s.log + MovesFrom(dir, ps, 0))
  }

  /** The loop condition holds, and the turn makes at least one descriptor; without any the C program is undefined. */
  predicate GoesOn(v: Window, sgl: seq<Extent>, descMax: nat, s: Progress)
    requires s.descIdx < descMax
  {
    s.at.offset < Wrap32(TotalLen(sgl)) && Made(v, sgl, s.at, descMax - s.descIdx) != []
  }

  /** The state after at most k turns. */
  function After(dir: Direction, v: Window, sgl: seq<Extent>, descMax: nat, s: Progress, k: nat): Progress
    requires s.descIdx < descMax
    decreases k
  {
    if k == 0 || !GoesOn(v, sgl, descMax, s) then s else After(dir, v, sgl, descMax, Turn(dir, v, sgl, descMax, s), k - 1)
  }

  /** At some point exactly the stream was moved, byte k to or from place k modulo the window's size. */
  ghost predicate Completes(dir: Direction, v: Window, sgl: seq<Extent>, descMax: nat, s: Progress)
    requires s.descIdx < descMax
  {
    exists k: nat :: After(dir, v, sgl, descMax, s, k).log == Wrapped(dir, Stream(sgl), v, 0)
  }

  /** A mapped scatterlist: some entries, none empty, in all less than 2^32 bytes. */
  ghost predicate Mapped(sgl: seq<Extent>) {
    sgl != [] && TotalLen(sgl) < TWO_32 && forall i :: 0 <= i < |sgl| ==> sgl[i].len > 0
  }

  /** The cursor names the byte of the stream at its offset. */
  ghost predicate Standing(sgl: seq<Extent>, c: Cursor) {
    c.sgIdx < |sgl| && c.sgOffset < sgl[c.sgIdx].len && c.offset == TotalLen(sgl[..c.sgIdx]) + c.sgOffset
  }

  /** The mask of the offset is its place in the window. */
  predicate MaskFits(v: Window, offset: nat) {
    And(offset, v.aperture - 1) == Place(v, 0, offset)
  }

  // ---------- positions in the stream ----------

  lemma {:induction false} StreamAt(es: seq<Extent>, i: nat, d: nat)
    requires i < |es| && d < es[i].len
    ensures TotalLen(es[..i]) + d < |Stream(es)| && Stream(es)[TotalLen(es[..i]) + d] == es[i].addr + d
  {
    TakeOne(es, i);
    PrefixStream(es, i + 1);
    var t := TotalLen(es[..i]);
    hide Stream, TotalLen;
    assert Stream(es[..i + 1])[t + d] == Span(es[i].addr, es[i].len)[d];
  }

  lemma {:induction false} LaterIsFurther(es: seq<Extent>, i: nat)
    requires 0 < i <= |es| && forall k :: 0 <= k < |es| ==> es[k].len > 0
    ensures TotalLen(es[..i]) >= es[0].len > 0
  {
    TakeOne(es, i - 1);
    if i > 1 {
      LaterIsFurther(es, i - 1);
    } else {
      assert es[..0] == [];
    }
  }

  lemma {:induction false} LengthsFit(sgl: seq<Extent>, i: nat)
    requires Mapped(sgl) && i < |sgl|
    ensures sgl[i].len < TWO_32
  {
    EntryIsPart(sgl, i);
  }

  // ---------- one turn ----------

  /** While the driver is in the first entry it reads that entry's rest, and then the others. */
  lemma {:induction false} ReadsShape(sgl: seq<Extent>, c: Cursor)
    requires Mapped(sgl) && Standing(sgl, c) && c.sgIdx == 0
    ensures
      var es := Reads(sgl, c);
      && sgl != [] && c.sgOffset < sgl[0].len && c.offset == c.sgOffset
      && es == [Extent(sgl[0].addr + c.sgOffset, sgl[0].len - c.sgOffset)] + sgl[1..] && es[1..] == sgl[1..]
      && forall i :: 0 <= i < |es| ==> es[i].len > 0
  {
    LengthsFit(sgl, 0);
    assert sgl[..0] == [] && sgl[1..|sgl|] == sgl[1..];
    hide Stream;
    assert Reads(sgl, c) == [Extent(sgl[0].addr + c.sgOffset, sgl[0].len - c.sgOffset)] + sgl[1..];
  }

  /** That is what is left of the stream. */
  lemma {:induction false} ReadsRest(sgl: seq<Extent>, c: Cursor)
    requires Mapped(sgl) && Standing(sgl, c) && c.sgIdx == 0
    ensures c.offset <= |Stream(sgl)| && Stream(Reads(sgl, c)) == Stream(sgl)[c.offset..]
  {
    ReadsShape(sgl, c);
    var es, o := Reads(sgl, c), c.sgOffset;
    hide Stream, Reads, TotalLen, Mapped, Standing;
    StreamHead(sgl);
    StreamHead(es);
    SpanSplit(sgl[0].addr, o, sgl[0].len - o);
    SuffixOfConcat(Span(sgl[0].addr, o), Span(sgl[0].addr + o, sgl[0].len - o), Stream(sgl[1..]));
  }

  lemma {:induction false} SuffixOfConcat(a: seq<nat>, b: seq<nat>, c: seq<nat>)
    ensures (a + b + c)[|a|..] == b + c
  {
  }

  /** The first byte that a turn reads, which is not the first of an entry the driver skipped. */
  lemma {:induction false} FirstRead(sgl: seq<Extent>, c: Cursor)
    requires Mapped(sgl) && Standing(sgl, c) && |Stream(Reads(sgl, c))| > 0
    ensures c.sgOffset != sgl[0].len ==> Stream(Reads(sgl, c))[0] == sgl[0].addr + c.sgOffset
    ensures c.sgOffset == sgl[0].len ==> |sgl| > 1 && c.sgIdx > 0 && Stream(Reads(sgl, c))[0] == sgl[1].addr
  {
    LengthsFit(sgl, 0);
    LengthsFit(sgl, c.sgIdx);
    var es := Reads(sgl, c);
    hide Stream, TotalLen, Mapped;
    StreamHead(es);
    if c.sgOffset == sgl[0].len {
      assert es[0].len == 0 && es[1..] == sgl[1..|sgl| - c.sgIdx];
      if es[1..] == [] {
        NoStream();
      } else {
        StreamHead(es[1..]);
        assert es[1..][0] == sgl[1];
        LengthsAre(sgl, 1);
      }
    }
  }

  lemma NoStream()
    ensures Stream([]) == []
  {
  }

  lemma LengthsAre(sgl: seq<Extent>, i: nat)
    requires Mapped(sgl) && i < |sgl|
    ensures sgl[i].len > 0
  {
  }

  /** The first byte that a turn reads is the one at the offset exactly if the driver is still in the
      first entry: from any other place it reads an entry again. */
  lemma {:induction false} FirstReadIff(sgl: seq<Extent>, c: Cursor)
    requires Mapped(sgl) && Standing(sgl, c) && Distinct(Stream(sgl)) && |Stream(Reads(sgl, c))| > 0
    ensures c.offset < |Stream(sgl)| && (Stream(Reads(sgl, c))[0] == Stream(sgl)[c.offset] <==> c.sgIdx == 0)
  {
    StreamAt(sgl, c.sgIdx, c.sgOffset);
    FirstRead(sgl, c);
    LengthsAre(sgl, 0);
    assert sgl[..0] == [];
    hide Reads, Stream, Distinct, TotalLen, Mapped;
    if c.sgIdx > 0 {
      Further(sgl, c.sgIdx);
      if c.sgOffset == sgl[0].len {
        LengthsAre(sgl, 1);
        StreamAt(sgl, 1, 0);
        TakeOne(sgl, 0);
        NothingBefore(sgl);
        Different(Stream(sgl), sgl[0].len, c.offset);
      } else {
        LengthsAre(sgl, c.sgIdx);
        StreamAt(sgl, 0, 0);
        StreamAt(sgl, c.sgIdx, 0);
        NothingBefore(sgl);
        Different(Stream(sgl), 0, TotalLen(sgl[..c.sgIdx]));
      }
    } else {
      NothingBefore(sgl);
    }
  }

  lemma {:induction false} NothingBefore(sgl: seq<Extent>)
    ensures TotalLen(sgl[..0]) == 0
  {
  }

  lemma {:induction false} Further(sgl: seq<Extent>, i: nat)
    requires Mapped(sgl) && 0 < i <= |sgl|
    ensures TotalLen(sgl[..i]) >= sgl[0].len > 0
  {
    LaterIsFurther(sgl, i);
  }

  lemma {:induction false} Different(s: seq<nat>, i: nat, j: nat)
    requires Distinct(s) && i < j < |s|
    ensures s[i] != s[j]
  {
  }

  lemma {:induction false} SameMoveIff(dir: Direction, v: Window, s: seq<nat>, w: nat, t: seq<nat>, k: nat)
    requires |s| > 0 && k < |t| && w < v.aperture
    ensures Wrapped(dir, s, v, w)[0] == Wrapped(dir, t, v, 0)[k] <==> s[0] == t[k] && w == Place(v, 0, k)
  {
    PlaceIsOn(v, w, 0);
  }

  /** The first move of a turn is the right one if and only if the driver is still in the first entry
      and the mask fits. */
  lemma {:induction false} FirstMoveIff(dir: Direction, v: Window, sgl: seq<Extent>, c: Cursor, cap: nat)
    requires Mapped(sgl) && Standing(sgl, c) && Distinct(Stream(sgl)) && Made(v, sgl, c, cap) != []
    ensures
      var ms := MovesFrom(dir, Made(v, sgl, c, cap), 0);
      |ms| > 0 && c.offset < |Stream(sgl)| &&
      (ms[0] == Wrapped(dir, Stream(sgl), v, 0)[c.offset] <==> c.sgIdx == 0 && MaskFits(v, c.offset))
  {
    hide MovesFrom, Made, Reads, Place, And, Stream, Wrapped, Standing, Mapped, Distinct, Bytes;
    MadeMoves(dir, v, sgl, c, cap);
    SomeBytes(v, sgl, c, cap);
    FirstReadIff(sgl, c);
    var read := Stream(Reads(sgl, c))[..Bytes(Made(v, sgl, c, cap))];
    assert read[0] == Stream(Reads(sgl, c))[0];
    SameMoveIff(dir, v, read, StartPlace(v, c), Stream(sgl), c.offset);
  }

  lemma {:induction false} SomeBytes(v: Window, sgl: seq<Extent>, c: Cursor, cap: nat)
    requires Made(v, sgl, c, cap) != []
    ensures Bytes(Made(v, sgl, c, cap)) > 0
  {
    PrefixMoves(ToDevice, v, Reads(sgl, c), StartPlace(v, c), |Made(v, sgl, c, cap)|);
    var ps := Made(v, sgl, c, cap);
    assert InWindow(ps[|ps| - 1], v);
  }

  /** The log holds the first bytes of the stream, up to the offset. */
  ghost predicate LogFits(dir: Direction, v: Window, sgl: seq<Extent>, s: Progress) {
    s.at.offset <= |Stream(sgl)| && s.log == Wrapped(dir, Stream(sgl)[..s.at.offset], v, 0)
  }

  lemma {:induction false} WrappedOn(dir: Direction, v: Window, all: seq<nat>, o: nat, b: nat)
    requires o + b <= |all|
    ensures Wrapped(dir, all[..o + b], v, 0) == Wrapped(dir, all[..o], v, 0) + Wrapped(dir, all[o..][..b], v, Place(v, 0, o))
  {
    hide Wrapped, Place;
    assert all[..o] + all[o..][..b] == all[..o + b];
    WrappedConcat(dir, all[..o], all[o..][..b], v, 0);
  }

  lemma {:induction false} TurnIs(dir: Direction, v: Window, sgl: seq<Extent>, descMax: nat, s: Progress)
    requires s.descIdx < descMax
    ensures
      var t, ps := Turn(dir, v, sgl, descMax, s), Made(v, sgl, s.at, descMax - s.descIdx);
      && t.log == s.log + MovesFrom(dir, ps, 0) && t.at == NextCursor(v, sgl, s.at, descMax - s.descIdx)
      && t.at.offset == Wrap32(s.at.offset + Bytes(ps)) && t.descIdx == Advance(s.descIdx, |ps|, descMax)
  {
    hide Made, MovesFrom, Where, Bytes;
  }

  /** A turn in the first entry moves the next bytes of the stream. */
  lemma {:induction false} TurnFits(dir: Direction, v: Window, sgl: seq<Extent>, descMax: nat, s: Progress)
    requires s.descIdx < descMax && Mapped(sgl) && Standing(sgl, s.at) && s.at.sgIdx == 0 && MaskFits(v, s.at.offset)
    requires LogFits(dir, v, sgl, s)
    ensures LogFits(dir, v, sgl, Turn(dir, v, sgl, descMax, s))
    ensures Turn(dir, v, sgl, descMax, s).at.offset == s.at.offset + Bytes(Made(v, sgl, s.at, descMax - s.descIdx))
  {
    hide Turn, Made, Reads, MovesFrom, Wrapped, Place, Bytes, Wrap32, Stream, TotalLen, Standing, And;
    var b := Bytes(Made(v, sgl, s.at, descMax - s.descIdx));
    TurnIs(dir, v, sgl, descMax, s);
    ReadsRest(sgl, s.at);
    MadeMoves(dir, v, sgl, s.at, descMax - s.descIdx);
    SmallWrap32(s.at.offset + b);
    WrappedOn(dir, v, Stream(sgl), s.at.offset, b);
  }

  // ---------- where a turn leaves the request ----------

  lemma {:induction false} CutBytes(v: Window, addr: nat, len: nat, w: nat)
    requires w < v.aperture
    ensures Bytes(Cut(v, addr, len, w)) == len
  {
    CutMoves(ToDevice, v, addr, len, w);
    BytesAreMoves(ToDevice, Cut(v, addr, len, w));
  }

  /** Some descriptors of a cut have fewer bytes than all of them. */
  lemma {:induction false} CutPrefixBytes(v: Window, addr: nat, len: nat, w: nat, n: nat)
    requires w < v.aperture && n < |Cut(v, addr, len, w)|
    ensures Bytes(Cut(v, addr, len, w)[..n]) < len
  {
    var ps := Cut(v, addr, len, w);
    CutBytes(v, addr, len, w);
    CutMoves(ToDevice, v, addr, len, w);
    hide Cut;
    assert ps == ps[..n] + ps[n..];
    BytesConcat(ps[..n], ps[n..]);
    assert InWindow(ps[|ps| - 1], v);
    assert ps[n..][|ps[n..]| - 1] == ps[|ps| - 1];
  }

  /** Cutting goes on where it stopped. */
  lemma {:induction false} CutResumes(v: Window, addr: nat, len: nat, w: nat, n: nat)
    requires w < v.aperture && n <= |Cut(v, addr, len, w)|
    ensures
      var b := Bytes(Cut(v, addr, len, w)[..n]);
      b <= len && Cut(v, addr, len, w)[n..] == Cut(v, addr + b, len - b, Place(v, w, b))
    decreases n
  {
    hide *;
    if n == 0 {
      CutFromStart(v, addr, len, w);
    } else {
      NotEmpty(v, addr, len, w);
      CutStep(v, addr, len, w);
      var m := Fit(v, len, w);
      var p, w1 := Piece(addr, v.ep + w, m), On(v, w, m);
      var rest := Cut(v, addr + m, len - m, w1);
      CutResumes(v, addr + m, len - m, w1, n - 1);
      ConsParts(p, rest, n);
      var b := Bytes(rest[..n - 1]);
      PlaceIsOn(v, w, m);
      PlaceAdds(v, w, m, b);
    }
  }

  lemma CutFromStart(v: Window, addr: nat, len: nat, w: nat)
    requires w < v.aperture
    ensures Bytes(Cut(v, addr, len, w)[..0]) == 0 && Cut(v, addr, len, w)[0..] == Cut(v, addr, len, w) && Place(v, w, 0) == w
  {
    hide Cut, Place;
    PlaceIsOn(v, w, 0);
  }

  lemma NotEmpty(v: Window, addr: nat, len: nat, w: nat)
    requires w < v.aperture && |Cut(v, addr, len, w)| > 0
    ensures len > 0
  {
  }

  lemma {:induction false} ConsParts(p: Piece, rest: seq<Piece>, n: nat)
    requires 0 < n <= |rest| + 1
    ensures ([p] + rest)[n..] == rest[n - 1..] && Bytes(([p] + rest)[..n]) == p.len + Bytes(rest[..n - 1])
  {
    assert ([p] + rest)[..n] == [p] + rest[..n - 1];
    BytesConcat([p], rest[..n - 1]);
    OneBytes(p);
  }

  lemma OneBytes(p: Piece)
    ensures Bytes([p]) == p.len
  {
    assert [p][..0] == [];
  }

  /** If the descriptors do not suffice, they end inside an entry. */
  lemma {:induction false} WhereIs(v: Window, es: seq<Extent>, w: nat, cap: nat)
    requires w < v.aperture && cap < |CutAll(v, es, w)| && forall k :: 0 <= k < |es| ==> es[k].len > 0
    ensures
      var (i, d) := Where(v, es, w, cap);
      && i < |es| && d < es[i].len && TotalLen(es[..i]) + d == Bytes(CutAll(v, es, w)[..cap])
      && (i == 0 <==> cap < |Cut(v, es[0].addr, es[0].len, w)|)
    decreases |es|
  {
    var head, all := Cut(v, es[0].addr, es[0].len, w), CutAll(v, es, w);
    var w1 := Place(v, w, es[0].len);
    CutAllStep(v, es, 0, w);
    WhereHead(v, es, w, cap);
    assert es[0..] == es;
    hide Cut, CutAll, Where, Place;
    if cap < |head| {
      assert all[..cap] == head[..cap] && es[..0] == [];
      CutPrefixBytes(v, es[0].addr, es[0].len, w, cap);
    } else {
      WhereIs(v, es[1..], w1, cap - |head|);
      assert all[..cap] == head + CutAll(v, es[1..], w1)[..cap - |head|];
      BytesConcat(head, CutAll(v, es[1..], w1)[..cap - |head|]);
      CutBytes(v, es[0].addr, es[0].len, w);
      var (i, d) := Where(v, es[1..], w1, cap - |head|);
      TotalLenHead(es, i + 1);
    }
  }

  lemma {:induction false} WhereHead(v: Window, es: seq<Extent>, w: nat, cap: nat)
    requires w < v.aperture && es != [] && es[0].len > 0
    ensures
      var head := Cut(v, es[0].addr, es[0].len, w);
      && |head| > 0
      && Where(v, es, w, cap) ==
        if |head| <= cap then ToGo(1, Where(v, es[1..], Place(v, w, es[0].len), cap - |head|)) else (0, Bytes(head[..cap]))
  {
    CutStep(v, es[0].addr, es[0].len, w);
  }

  lemma {:induction false} TotalLenHead(es: seq<Extent>, i: nat)
    requires 0 < i <= |es|
    ensures TotalLen(es[..i]) == es[0].len + TotalLen(es[1..][..i - 1])
  {
    assert es[..i] == [es[0]] + es[1..][..i - 1];
    StreamConcat([es[0]], es[1..][..i - 1]);
    StreamAppend([], es[0]);
    assert [] + [es[0]] == [es[0]];
  }

  /** d bytes into entry i of what is left of the list. */
  lemma {:induction false} StandsAt(sgl: seq<Extent>, c: Cursor, i: nat, d: nat)
    requires Mapped(sgl) && Standing(sgl, c) && c.sgIdx == 0
    requires i < |Reads(sgl, c)| && d < Reads(sgl, c)[i].len
    ensures
      var next := Cursor(c.offset + TotalLen(Reads(sgl, c)[..i]) + d, i, if i == 0 then c.sgOffset + d else d);
      Standing(sgl, next) && next.offset < TotalLen(sgl) && next.sgOffset < TWO_32
  {
    hide *;
    var es, o := Reads(sgl, c), c.sgOffset;
    ReadsShape(sgl, c);
    EntryOfRest(sgl, es, o, i);
    LengthsFit(sgl, i);
    var d1 := if i == 0 then o + d else d;
    StreamAt(sgl, i, d1);
    StandsWith(sgl, i, d1);
  }

  /** Entry i of a list without its first o bytes, and where it begins. */
  lemma {:induction false} EntryOfRest(sgl: seq<Extent>, es: seq<Extent>, o: nat, i: nat)
    requires sgl != [] && o < sgl[0].len && es == [Extent(sgl[0].addr + o, sgl[0].len - o)] + sgl[1..] && i < |es|
    ensures i < |sgl| && sgl[i].len == es[i].len + (if i == 0 then o else 0)
    ensures TotalLen(sgl[..i]) == TotalLen(es[..i]) + if i == 0 then 0 else o
  {
    hide TotalLen, Stream;
    if i > 0 {
      TotalLenHead(es, i);
      TotalLenHead(sgl, i);
      assert es[1..][..i - 1] == sgl[1..][..i - 1];
    } else {
      NothingBefore(sgl);
      NothingBefore(es);
    }
  }

  lemma {:induction false} StandsWith(sgl: seq<Extent>, i: nat, d: nat)
    requires i < |sgl| && d < sgl[i].len
    ensures Standing(sgl, Cursor(TotalLen(sgl[..i]) + d, i, d))
  {
  }

  lemma {:induction false} ReadsNothingEmpty(sgl: seq<Extent>, c: Cursor)
    requires Mapped(sgl) && Standing(sgl, c) && c.sgIdx == 0
    ensures forall k :: 0 <= k < |Reads(sgl, c)| ==> Reads(sgl, c)[k].len > 0
  {
    ReadsShape(sgl, c);
  }

  /** A turn whose descriptors do not suffice leaves the cursor on the next byte of the stream, in the
      first entry exactly if that entry needs more descriptors than there were. */
  lemma {:induction false} NextStands(v: Window, sgl: seq<Extent>, c: Cursor, cap: nat)
    requires Mapped(sgl) && Standing(sgl, c) && c.sgIdx == 0
    requires cap < |CutAll(v, Reads(sgl, c), StartPlace(v, c))|
    ensures
      var es, w, next := Reads(sgl, c), StartPlace(v, c), NextCursor(v, sgl, c, cap);
      && es != [] && Standing(sgl, next) && next.offset == c.offset + Bytes(Made(v, sgl, c, cap)) < TotalLen(sgl)
      && (next.sgIdx == 0 <==> cap < |Cut(v, es[0].addr, es[0].len, w)|)
  {
    hide *;
    ReadsNothingEmpty(sgl, c);
    MadeCut(v, sgl, c, cap);
    var es, w := Reads(sgl, c), StartPlace(v, c);
    WhereIs(v, es, w, cap);
    var (i, d) := Where(v, es, w, cap);
    StandsAt(sgl, c, i, d);
    CursorOf(v, sgl, c, cap, i, d);
    TotalIsSmall(sgl);
    var b, o := Bytes(Made(v, sgl, c, cap)), if i == 0 then c.sgOffset + d else d;
    assert b == TotalLen(es[..i]) + d;
    SmallWrap32(c.offset + b);
    SmallWrap32(o);
    assert NextCursor(v, sgl, c, cap) == Cursor(c.offset + b, i, o);
  }

  lemma TotalIsSmall(sgl: seq<Extent>)
    requires Mapped(sgl)
    ensures TotalLen(sgl) < TWO_32
  {
  }

  lemma MadeCut(v: Window, sgl: seq<Extent>, c: Cursor, cap: nat)
    requires cap < |CutAll(v, Reads(sgl, c), StartPlace(v, c))|
    ensures Made(v, sgl, c, cap) == CutAll(v, Reads(sgl, c), StartPlace(v, c))[..cap]
  {
  }

  lemma CursorOf(v: Window, sgl: seq<Extent>, c: Cursor, cap: nat, i: nat, d: nat)
    requires Standing(sgl, c) && c.sgIdx == 0 && Where(v, Reads(sgl, c), StartPlace(v, c), cap) == (i, d)
    ensures NextCursor(v, sgl, c, cap) ==
      Cursor(Wrap32(c.offset + Bytes(Made(v, sgl, c, cap))), i, Wrap32(if i == 0 then c.sgOffset + d else d))
  {
    hide Made, Where, Reads, StartPlace, Bytes, Wrap32;
  }

  /** In the first entry, the next turn makes the descriptors that were left over. */
  lemma {:induction false} NextMakes(v: Window, sgl: seq<Extent>, c: Cursor, cap: nat)
    requires Mapped(sgl) && Standing(sgl, c) && c.sgIdx == 0 && MaskFits(v, c.offset)
    requires
      var es, w, next := Reads(sgl, c), StartPlace(v, c), NextCursor(v, sgl, c, cap);
      es != [] && cap < |Cut(v, es[0].addr, es[0].len, w)| && MaskFits(v, next.offset)
    ensures
      var es, w, next := Reads(sgl, c), StartPlace(v, c), NextCursor(v, sgl, c, cap);
      var es1, w1 := Reads(sgl, next), StartPlace(v, next);
      && es1 != [] && Cut(v, es1[0].addr, es1[0].len, w1) == Cut(v, es[0].addr, es[0].len, w)[cap..]
      && CutAll(v, es1, w1) == CutAll(v, es, w)[cap..]
  {
    hide Where, CutAll, Cut, Bytes, Stream, Standing, Mapped, Reads, Made, NextCursor, Wrap32, TotalLen, Place, And;
    var es, w, next := Reads(sgl, c), StartPlace(v, c), NextCursor(v, sgl, c, cap);
    MadeOfHead(v, sgl, c, cap);
    NextStands(v, sgl, c, cap);
    ReadsShape(sgl, c);
    ReadsShape(sgl, next);
    var es1, w1 := Reads(sgl, next), StartPlace(v, next);
    var head := Cut(v, es[0].addr, es[0].len, w);
    var b := Bytes(head[..cap]);
    CutResumes(v, es[0].addr, es[0].len, w, cap);
    PlaceAdds(v, 0, c.offset, b);
    assert w1 == Place(v, w, b);
    assert Cut(v, es1[0].addr, es1[0].len, w1) == head[cap..];
    PlaceAdds(v, w, b, es1[0].len);
    CutAllStep(v, es, 0, w);
    CutAllStep(v, es1, 0, w1);
    assert es[0..] == es && es1[0..] == es1 && es1[1..] == es[1..];
    DropHead(head, CutAll(v, es[1..], Place(v, w, es[0].len)), cap);
  }

  lemma {:induction false} DropHead(head: seq<Piece>, rest: seq<Piece>, n: nat)
    requires n <= |head|
    ensures (head + rest)[n..] == head[n..] + rest
  {
  }

  lemma {:induction false} MadeOfHead(v: Window, sgl: seq<Extent>, c: Cursor, cap: nat)
    requires
      var es, w := Reads(sgl, c), StartPlace(v, c);
      es != [] && cap < |Cut(v, es[0].addr, es[0].len, w)|
    ensures
      var es, w := Reads(sgl, c), StartPlace(v, c);
      Made(v, sgl, c, cap) == Cut(v, es[0].addr, es[0].len, w)[..cap] && cap < |CutAll(v, es, w)|
  {
    hide Reads, StartPlace, Cut;
    var es, w := Reads(sgl, c), StartPlace(v, c);
    CutAllStep(v, es, 0, w);
    assert es[0..] == es;
  }

  // ---------- the whole request ----------

  /** Whether the remaining descriptors come out right, when d0 of them are left in the first entry and
      the ring has cap slots left: either they all fit, or the ring ends inside the first entry, at an
      offset whose mask is its place in the window, and the rest comes out right from there. */
  predicate Safe(v: Window, all: seq<Piece>, d0: nat, cap: nat, descMax: nat, offset: nat)
    requires cap > 0 && descMax > 0
    decreases |all|
  {
    |all| <= cap ||
    (cap < d0 && MaskFits(v, offset + Bytes(all[..cap])) &&
     Safe(v, all[cap..], d0 - cap, descMax, descMax, offset + Bytes(all[..cap])))
  }

  /** Moves are never taken back. */
  lemma {:induction false} LogGrows(dir: Direction, v: Window, sgl: seq<Extent>, descMax: nat, s: Progress, k: nat)
    requires s.descIdx < descMax
    ensures s.log <= After(dir, v, sgl, descMax, s, k).log
    decreases k
  {
    hide *;
    AfterStep(dir, v, sgl, descMax, s, 0);
    AfterStep(dir, v, sgl, descMax, s, k);
    if k > 0 && GoesOn(v, sgl, descMax, s) {
      AfterStep(dir, v, sgl, descMax, s, k - 1);
      TurnIs(dir, v, sgl, descMax, s);
      LogGrows(dir, v, sgl, descMax, Turn(dir, v, sgl, descMax, s), k - 1);
    }
  }

  lemma {:induction false} AfterStep(dir: Direction, v: Window, sgl: seq<Extent>, descMax: nat, s: Progress, k: nat)
    requires s.descIdx < descMax
    ensures After(dir, v, sgl, descMax, s, 0) == s
    ensures !GoesOn(v, sgl, descMax, s) ==> After(dir, v, sgl, descMax, s, k) == s
    ensures GoesOn(v, sgl, descMax, s) ==>
      After(dir, v, sgl, descMax, s, k + 1) == After(dir, v, sgl, descMax, Turn(dir, v, sgl, descMax, s), k)
  {
  }

  /** With bytes still to move, a request completes if and only if it does from the next turn on. */
  lemma {:induction false} CompletesOn(dir: Direction, v: Window, sgl: seq<Extent>, descMax: nat, s: Progress)
    requires s.descIdx < descMax && |s.log| < |Stream(sgl)| && GoesOn(v, sgl, descMax, s)
    ensures Completes(dir, v, sgl, descMax, s) <==> Completes(dir, v, sgl, descMax, Turn(dir, v, sgl, descMax, s))
  {
    hide Turn, GoesOn, Stream, Wrapped, After;
    var t, target := Turn(dir, v, sgl, descMax, s), Wrapped(dir, Stream(sgl), v, 0);
    if k: nat :| After(dir, v, sgl, descMax, s, k).log == target {
      AfterStep(dir, v, sgl, descMax, s, 0);
      AfterStep(dir, v, sgl, descMax, s, if k > 0 then k - 1 else 0);
      assert k > 0 && After(dir, v, sgl, descMax, t, k - 1).log == target;
    }
    if k: nat :| After(dir, v, sgl, descMax, t, k).log == target {
      AfterStep(dir, v, sgl, descMax, s, k);
      assert After(dir, v, sgl, descMax, s, k + 1).log == target;
    }
  }

  /** A turn that begins wrong, or makes no descriptor, never comes out right. */
  lemma {:induction false} WrongForGood(dir: Direction, v: Window, sgl: seq<Extent>, descMax: nat, s: Progress)
    requires s.descIdx < descMax && Mapped(sgl) && Standing(sgl, s.at) && Distinct(Stream(sgl))
    requires LogFits(dir, v, sgl, s) && s.at.offset < |Stream(sgl)|
    requires !(s.at.sgIdx == 0 && MaskFits(v, s.at.offset))
    ensures !Completes(dir, v, sgl, descMax, s)
  {
    hide Turn, GoesOn, Stream, Wrapped, After, MaskFits, Standing, Mapped, Distinct, Made;
    var target := Wrapped(dir, Stream(sgl), v, 0);
    forall k: nat ensures After(dir, v, sgl, descMax, s, k).log != target {
      AfterStep(dir, v, sgl, descMax, s, k);
      if k > 0 && GoesOn(v, sgl, descMax, s) {
        AfterStep(dir, v, sgl, descMax, s, k - 1);
        LogGrows(dir, v, sgl, descMax, Turn(dir, v, sgl, descMax, s), k - 1);
        TurnIs(dir, v, sgl, descMax, s);
        GoingMakes(v, sgl, descMax, s);
        FirstMoveIff(dir, v, sgl, s.at, descMax - s.descIdx);
        var log := After(dir, v, sgl, descMax, s, k).log;
        assert log[|s.log|] == MovesFrom(dir, Made(v, sgl, s.at, descMax - s.descIdx), 0)[0];
      } else {
        AfterStep(dir, v, sgl, descMax, s, 0);
      }
    }
  }

  lemma GoingMakes(v: Window, sgl: seq<Extent>, descMax: nat, s: Progress)
    requires s.descIdx < descMax && GoesOn(v, sgl, descMax, s)
    ensures Made(v, sgl, s.at, descMax - s.descIdx) != []
  {
  }

  /** The cursor in the first entry, everything right so far. */
  ghost predicate OnTrack(dir: Direction, v: Window, sgl: seq<Extent>, s: Progress) {
    && Mapped(sgl) && Standing(sgl, s.at) && s.at.sgIdx == 0 && MaskFits(v, s.at.offset)
    && LogFits(dir, v, sgl, s) && s.at.offset < |Stream(sgl)|
  }

  /** What is left to make, and how much of it in the first entry. */
  function Left(v: Window, sgl: seq<Extent>, c: Cursor): seq<Piece> {
    CutAll(v, Reads(sgl, c), StartPlace(v, c))
  }

  function LeftInFirst(v: Window, sgl: seq<Extent>, c: Cursor): nat {
    var es := Reads(sgl, c);
    if es == [] then 0 else |Cut(v, es[0].addr, es[0].len, StartPlace(v, c))|
  }

  /** On track there is something to make, and it is the rest of the stream. */
  lemma {:induction false} TrackGoesOn(dir: Direction, v: Window, sgl: seq<Extent>, descMax: nat, s: Progress)
    requires OnTrack(dir, v, sgl, s) && s.descIdx < descMax
    ensures Bytes(Left(v, sgl, s.at)) == |Stream(sgl)| - s.at.offset
    ensures GoesOn(v, sgl, descMax, s) && |s.log| < |Stream(sgl)|
  {
    ReadsRest(sgl, s.at);
    hide Reads, StartPlace, CutAll, Stream, Standing, MaskFits, TotalLen, Wrapped;
    CutAllMoves(dir, v, Reads(sgl, s.at), StartPlace(v, s.at));
    BytesAreMoves(dir, Left(v, sgl, s.at));
    assert Left(v, sgl, s.at) != [];
    SmallWrap32(TotalLen(sgl));
  }

  /** If the ring has room for all that is left, the next turn completes the request. */
  lemma {:induction false} LastTurn(dir: Direction, v: Window, sgl: seq<Extent>, descMax: nat, s: Progress)
    requires OnTrack(dir, v, sgl, s) && s.descIdx < descMax && |Left(v, sgl, s.at)| <= descMax - s.descIdx
    ensures Completes(dir, v, sgl, descMax, s)
  {
    var t := Turn(dir, v, sgl, descMax, s);
    TrackGoesOn(dir, v, sgl, descMax, s);
    TurnFits(dir, v, sgl, descMax, s);
    AllMade(v, sgl, s.at, descMax - s.descIdx);
    hide Turn, GoesOn, Stream, Wrapped, After, MaskFits, Standing, Mapped, Made, Left, Bytes;
    assert Stream(sgl)[..|Stream(sgl)|] == Stream(sgl);
    AfterStep(dir, v, sgl, descMax, s, 0);
    AfterStep(dir, v, sgl, descMax, t, 0);
    assert After(dir, v, sgl, descMax, s, 0 + 1).log == Wrapped(dir, Stream(sgl), v, 0);
  }

  lemma {:induction false} AllMade(v: Window, sgl: seq<Extent>, c: Cursor, cap: nat)
    requires |Left(v, sgl, c)| <= cap
    ensures Made(v, sgl, c, cap) == Left(v, sgl, c)
  {
    hide Reads, StartPlace, CutAll;
  }

  /** Otherwise the turn leaves the request on track exactly if the ring ended inside the first entry and
      the mask fits there; and then the descriptors left over are left to make. */
  lemma {:induction false} NextTurn(dir: Direction, v: Window, sgl: seq<Extent>, descMax: nat, s: Progress)
    requires OnTrack(dir, v, sgl, s) && s.descIdx < descMax && |Left(v, sgl, s.at)| > descMax - s.descIdx
    ensures
      var t, cap, all := Turn(dir, v, sgl, descMax, s), descMax - s.descIdx, Left(v, sgl, s.at);
      && t.descIdx == 0 && Standing(sgl, t.at) && LogFits(dir, v, sgl, t)
      && t.at.offset == s.at.offset + Bytes(all[..cap]) < |Stream(sgl)|
      && (t.at.sgIdx == 0 <==> cap < LeftInFirst(v, sgl, s.at))
      && (t.at.sgIdx == 0 && MaskFits(v, t.at.offset) ==>
            Left(v, sgl, t.at) == all[cap..] && LeftInFirst(v, sgl, t.at) == LeftInFirst(v, sgl, s.at) - cap)
  {
    var t, cap := Turn(dir, v, sgl, descMax, s), descMax - s.descIdx;
    TurnFits(dir, v, sgl, descMax, s);
    TurnIs(dir, v, sgl, descMax, s);
    NextStands(v, sgl, s.at, cap);
    MadeCut(v, sgl, s.at, cap);
    hide Turn, Stream, Wrapped, MaskFits, Standing, Mapped, Made, Reads, StartPlace, CutAll, Cut, NextCursor, Bytes, MovesFrom;
    WrapsToZero(s.descIdx, descMax);
    if t.at.sgIdx == 0 && MaskFits(v, t.at.offset) {
      NextMakes(v, sgl, s.at, cap);
    }
  }

  lemma WrapsToZero(descIdx: nat, descMax: nat)
    requires descIdx < descMax
    ensures Advance(descIdx, descMax - descIdx, descMax) == 0
  {
  }

  /** From any state on track. */
  lemma {:induction false} TrackCompletesIff(dir: Direction, v: Window, sgl: seq<Extent>, descMax: nat, s: Progress)
    requires OnTrack(dir, v, sgl, s) && s.descIdx < descMax && Distinct(Stream(sgl))
    ensures Completes(dir, v, sgl, descMax, s) <==>
      Safe(v, Left(v, sgl, s.at), LeftInFirst(v, sgl, s.at), descMax - s.descIdx, descMax, s.at.offset)
    decreases |Left(v, sgl, s.at)|
  {
    hide Turn, GoesOn, Stream, MaskFits, Standing, Mapped, Distinct, Left, LeftInFirst, Completes, LogFits, Bytes;
    var cap := descMax - s.descIdx;
    if |Left(v, sgl, s.at)| <= cap {
      LastTurn(dir, v, sgl, descMax, s);
    } else {
      var t := Turn(dir, v, sgl, descMax, s);
      TrackGoesOn(dir, v, sgl, descMax, s);
      CompletesOn(dir, v, sgl, descMax, s);
      NextTurn(dir, v, sgl, descMax, s);
      if t.at.sgIdx == 0 && MaskFits(v, t.at.offset) {
        TrackCompletesIff(dir, v, sgl, descMax, t);
      } else {
        WrongForGood(dir, v, sgl, descMax, t);
      }
    }
  }

  /** A whole request, on a scatterlist that names no byte twice, moves byte k of its stream to or from
      place k modulo the aperture, all of it and nothing else, if and only if, after its first transfer,
      every transfer begins inside the first entry and at an offset whose mask is its place. What is
      counted are the descriptors of the list and of its first entry, which a caller can do beforehand. */
  lemma {:induction false} RequestIff(dir: Direction, v: Window, sgl: seq<Extent>, descMax: nat, descIdx: nat)
    requires Mapped(sgl) && Distinct(Stream(sgl)) && descIdx < descMax
    ensures Completes(dir, v, sgl, descMax, Progress(START, descIdx, [])) <==>
      Safe(v, CutAll(v, sgl, 0), |Cut(v, sgl[0].addr, sgl[0].len, 0)|, descMax - descIdx, descMax, 0)
  {
    StartOnTrack(dir, v, sgl, descIdx);
    hide OnTrack, Completes, Safe, Left, LeftInFirst, Cut, CutAll, Stream;
    TrackCompletesIff(dir, v, sgl, descMax, Progress(START, descIdx, []));
  }

  lemma {:induction false} StartOnTrack(dir: Direction, v: Window, sgl: seq<Extent>, descIdx: nat)
    requires Mapped(sgl)
    ensures OnTrack(dir, v, sgl, Progress(START, descIdx, []))
    ensures Left(v, sgl, START) == CutAll(v, sgl, 0) && LeftInFirst(v, sgl, START) == |Cut(v, sgl[0].addr, sgl[0].len, 0)|
  {
    StartStands(sgl);
    LengthsAre(sgl, 0);
    StreamAt(sgl, 0, 0);
    StartReads(sgl);
    hide Cut, CutAll, Stream, Reads, TotalLen, Standing, Mapped, And;
    assert Stream(sgl)[..0] == [];
    PlaceIsOn(v, 0, 0);
    assert StartPlace(v, START) == 0;
  }

  lemma {:induction false} StartStands(sgl: seq<Extent>)
    requires Mapped(sgl)
    ensures Standing(sgl, START) && TotalLen(sgl[..0]) == 0
  {
    NothingBefore(sgl);
  }

  lemma {:induction false} StartReads(sgl: seq<Extent>)
    requires Mapped(sgl)
    ensures Reads(sgl, START) == sgl
  {
    LengthsFit(sgl, 0);
    hide TotalLen;
    assert [sgl[0]] + sgl[1..|sgl|] == sgl;
  }

  /** A turn that can go on extends a right log to a right log if and only if the driver is still in the
      first entry and the mask fits. */
  lemma {:induction false} TurnFitsIff(dir: Direction, v: Window, sgl: seq<Extent>, descMax: nat, s: Progress)
    requires s.descIdx < descMax && Mapped(sgl) && Standing(sgl, s.at) && Distinct(Stream(sgl))
    requires LogFits(dir, v, sgl, s) && GoesOn(v, sgl, descMax, s)
    ensures LogFits(dir, v, sgl, Turn(dir, v, sgl, descMax, s)) <==> s.at.sgIdx == 0 && MaskFits(v, s.at.offset)
  {
    if s.at.sgIdx == 0 && MaskFits(v, s.at.offset) {
      TurnFits(dir, v, sgl, descMax, s);
    } else {
      hide *;
      var ps := Made(v, sgl, s.at, descMax - s.descIdx);
      TurnIs(dir, v, sgl, descMax, s);
      GoingMakes(v, sgl, descMax, s);
      FirstMoveIff(dir, v, sgl, s.at, descMax - s.descIdx);
      WrongMoveShows(dir, v, sgl, s, MovesFrom(dir, ps, 0), Turn(dir, v, sgl, descMax, s));
    }
  }

  lemma {:induction false} WrongMoveShows(dir: Direction, v: Window, sgl: seq<Extent>, s: Progress, moves: seq<Move>, t: Progress)
    requires LogFits(dir, v, sgl, s) && |moves| > 0 && t.log == s.log + moves && s.at.offset < |Stream(sgl)|
    requires moves[0] != Wrapped(dir, Stream(sgl), v, 0)[s.at.offset]
    ensures !LogFits(dir, v, sgl, t)
  {
    hide Wrapped, Stream;
    assert t.log[|s.log|] == moves[0];
    if t.at.offset <= |Stream(sgl)| {
      WrappedPrefix(dir, Stream(sgl), v, 0, t.at.offset);
    }
  }

  /** That a request comes out right means, in its addresses: at some point exactly the stream was moved, byte k
      to or from epAddr + k % aperture. */
  lemma CompletesByAddress(dir: Direction, ep: nat, aperture: nat, blen: nat, sgl: seq<Extent>, descMax: nat, s: Progress)
    requires aperture >= 1 && blen >= 1 && s.descIdx < descMax
    ensures
      var v := WindowOf(ep, aperture, blen);
      Completes(dir, v, sgl, descMax, s) <==>
        exists n: nat :: GoesAround(After(dir, v, sgl, descMax, s, n).log, dir, Stream(sgl), ep, aperture, 0)
  {
    var v := WindowOf(ep, aperture, blen);
    hide After, GoesAround, Wrapped, Stream;
    if Completes(dir, v, sgl, descMax, s) {
      var n: nat :| After(dir, v, sgl, descMax, s, n).log == Wrapped(dir, Stream(sgl), v, 0);
      WrappedGoesAround(After(dir, v, sgl, descMax, s, n).log, dir, Stream(sgl), v, 0);
    }
    if n: nat :| GoesAround(After(dir, v, sgl, descMax, s, n).log, dir, Stream(sgl), ep, aperture, 0) {
      CompletedAt(dir, v, sgl, descMax, s, n);
    }
  }

  lemma CompletedAt(dir: Direction, v: Window, sgl: seq<Extent>, descMax: nat, s: Progress, n: nat)
    requires s.descIdx < descMax
    requires GoesAround(After(dir, v, sgl, descMax, s, n).log, dir, Stream(sgl), v.ep, v.aperture, 0)
    ensures Completes(dir, v, sgl, descMax, s)
  {
    hide After, GoesAround, Wrapped, Stream;
    WrappedGoesAround(After(dir, v, sgl, descMax, s, n).log, dir, Stream(sgl), v, 0);
    assert After(dir, v, sgl, descMax, s, n).log == Wrapped(dir, Stream(sgl), v, 0);
  }

  /** A request that fits one transfer always comes out right, whatever the size of the window. */
  lemma {:induction false} OneTransferCompletes(dir: Direction, v: Window, sgl: seq<Extent>, descMax: nat, descIdx: nat)
    requires Mapped(sgl) && descIdx < descMax && |CutAll(v, sgl, 0)| <= descMax - descIdx
    ensures Completes(dir, v, sgl, descMax, Progress(START, descIdx, []))
  {
    StartOnTrack(dir, v, sgl, descIdx);
    hide OnTrack, Completes, Left, CutAll;
    LastTurn(dir, v, sgl, descMax, Progress(START, descIdx, []));
  }

  /** With a power of two as its size the mask always fits. */
  lemma PowerOfTwoFits(v: Window, k: nat, offset: nat)
    requires v.aperture == Pow2(k)
    ensures MaskFits(v, offset)
  {
    MaskIsMod(offset, k);
  }

  /** A turn makes no descriptor, and the C program becomes undefined, if and only if it stands in the
      last entry at an offset equal to the length of the first. */
  lemma {:induction false} MakesNothingIff(v: Window, sgl: seq<Extent>, c: Cursor, cap: nat)
    requires Mapped(sgl) && Standing(sgl, c) && cap > 0
    ensures Made(v, sgl, c, cap) == [] <==> c.sgIdx == |sgl| - 1 && c.sgOffset == sgl[0].len
  {
    var es, w := Reads(sgl, c), StartPlace(v, c);
    EmptyReadIff(sgl, c);
    hide CutAll, StartPlace, Reads, Stream, Standing, Mapped, Bytes, AllInWindow, MovesFrom;
    CutAllMoves(ToDevice, v, es, w);
    BytesAreMoves(ToDevice, CutAll(v, es, w));
    NoBytesIff(v, CutAll(v, es, w));
  }

  lemma {:induction false} EmptyReadIff(sgl: seq<Extent>, c: Cursor)
    requires Mapped(sgl) && Standing(sgl, c)
    ensures |Stream(Reads(sgl, c))| == 0 <==> c.sgIdx == |sgl| - 1 && c.sgOffset == sgl[0].len
  {
    LengthsFit(sgl, 0);
    LengthsFit(sgl, c.sgIdx);
    var es := Reads(sgl, c);
    assert es[1..] == sgl[1..|sgl| - c.sgIdx];
    hide Stream, TotalLen, Mapped;
    StreamHead(es);
    NoStream();
    if c.sgIdx < |sgl| - 1 {
      StreamHead(es[1..]);
      assert es[1..][0] == sgl[1];
      LengthsAre(sgl, 1);
    }
  }

  lemma {:induction false} NoBytesIff(v: Window, ps: seq<Piece>)
    requires AllInWindow(ps, v)
    ensures Bytes(ps) == 0 <==> ps == []
  {
    if ps != [] {
      assert InWindow(ps[|ps| - 1], v);
    }
  }

  // ---------- the loop ----------

  lemma NextFields(v: Window, sgl: seq<Extent>, c: Cursor, cap: nat)
    requires Fields32(sgl, c)
    ensures Fields32(sgl, NextCursor(v, sgl, c, cap))
  {
    hide Where, Made, Bytes, Reads, StartPlace;
  }

  /** One step of the loop as the turns see it. */
  lemma {:induction false} LoopStep(dir: Direction, v: Window, sgl: seq<Extent>, descMax: nat, s: Progress, k: nat)
    requires s.descIdx < descMax && s.at.offset < Wrap32(TotalLen(sgl)) && Made(v, sgl, s.at, descMax - s.descIdx) != []
    ensures
      var ps := Made(v, sgl, s.at, descMax - s.descIdx);
      var t := Progress(NextCursor(v, sgl, s.at, descMax - s.descIdx), Advance(s.descIdx, |ps|, descMax), s.log + MovesFrom(dir, ps, 0));
      After(dir, v, sgl, descMax, s, k + 1) == After(dir, v, sgl, descMax, t, k)
  {
    GoesOnWith(v, sgl, descMax, s);
    hide *;
    AfterStep(dir, v, sgl, descMax, s, k);
    TurnIs(dir, v, sgl, descMax, s);
  }

  lemma GoesOnWith(v: Window, sgl: seq<Extent>, descMax: nat, s: Progress)
    requires s.descIdx < descMax && s.at.offset < Wrap32(TotalLen(sgl)) && Made(v, sgl, s.at, descMax - s.descIdx) != []
    ensures GoesOn(v, sgl, descMax, s)
  {
    hide Made, TotalLen, Wrap32;
  }

  lemma LoopStops(dir: Direction, v: Window, sgl: seq<Extent>, descMax: nat, s: Progress, k: nat)
    requires s.descIdx < descMax
    requires k == 0 || s.at.offset >= Wrap32(TotalLen(sgl)) || Made(v, sgl, s.at, descMax - s.descIdx) == []
    ensures After(dir, v, sgl, descMax, s, k) == s
  {
    hide Made, TotalLen, Wrap32;
  }

  /** At most k turns of the loop, every transfer of which completes, leave the request and the ring, and
      have the hardware move, what the turns say; it stops early exactly where the C program is undefined. */
  method Turns(engine: Engine, req: ApertureRequest, sgl: seq<Extent>, blen: nat, k: nat)
    returns (undefined: bool, ghost end: Progress)
    requires engine.descIdx < engine.desc.Length && req.aperture >= 1 && blen >= 1 && Fields32(sgl, req.At())
    requires req.totalLen == Wrap32(TotalLen(sgl))
    modifies engine.desc, engine`descIdx, engine`descUsed, req`offset, req`sgIdx, req`sgOffset
    ensures engine.descIdx < engine.desc.Length && end.descIdx < engine.desc.Length
    ensures
      var v := WindowOf(req.epAddr, req.aperture, blen);
      end == After(engine.dir, v, sgl, engine.desc.Length, Progress(old(req.At()), old(engine.descIdx), []), k)
    ensures undefined ==> end.at.offset < req.totalLen
    ensures undefined ==> Made(WindowOf(req.epAddr, req.aperture, blen), sgl, end.at, engine.desc.Length - end.descIdx) == []
    ensures !undefined ==> end.at == req.At() && end.descIdx == engine.descIdx
  {
    hide *;
    ghost var v, s := WindowOf(req.epAddr, req.aperture, blen), Progress(req.At(), engine.descIdx, []);
    undefined, end := false, s;
    var left: nat := k;
    while left > 0 && req.offset < req.totalLen
      invariant left <= k && engine.descIdx < engine.desc.Length && Fields32(sgl, req.At())
      invariant end.at == req.At() && end.descIdx == engine.descIdx
      invariant After(engine.dir, v, sgl, engine.desc.Length, end, left) == After(engine.dir, v, sgl, engine.desc.Length, s, k)
    {
      OffsetIs(req);
      NextFields(v, sgl, req.At(), engine.desc.Length - engine.descIdx);
      var xfer;
      ghost var ps;
      undefined, xfer, ps := BuildTransfer(engine, req, sgl, blen);
      if undefined {
        LoopStops(engine.dir, v, sgl, engine.desc.Length, end, left);
        return;
      }
      MadeMoves(engine.dir, v, sgl, end.at, engine.desc.Length - end.descIdx);
      LoopStep(engine.dir, v, sgl, engine.desc.Length, end, left - 1);
      ghost var walk := Walk(engine.desc[..], engine.descBus, xfer.descBus, engine.desc.Length);
      end := Progress(req.At(), engine.descIdx, end.log + walk.moves);
      left := left - 1;
    }
    OffsetIs(req);
    LoopStops(engine.dir, v, sgl, engine.desc.Length, end, left);
  }
}
