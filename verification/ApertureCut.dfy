/** How xdma_xfer_aperture cuts a scatterlist into descriptors that stay inside a window of end-point
    addresses, and what those descriptors move. */
module ApertureCut {
  import opened Extents
  import opened Walker
  import opened Ring
  import opened Powers

  /** aperture addresses from ep on; no descriptor is longer than maxlen. */
  datatype WindowFields = WindowFields(ep: nat, aperture: nat, maxlen: nat)
  type Window = v: WindowFields | 1 <= v.maxlen <= v.aperture witness WindowFields(0, 1, 1)

  /** The bytes of a descriptor that begins at place w of the window, when len bytes are left. */
  function Fit(v: Window, len: nat, w: nat): (n: nat)
    requires w < v.aperture && len > 0
    ensures 1 <= n <= len && n <= v.maxlen && w + n <= v.aperture
  {
    Min(len, Min(v.maxlen, v.aperture - w))
  }

  /** The place n bytes on, when those do not reach over the window's end. */
  function On(v: Window, w: nat, n: nat): (w': nat)
    requires w + n <= v.aperture
    ensures w' < v.aperture
  {
    if w + n == v.aperture then 0 else w + n
  }

  /** The descriptors of len bytes from addr on, beginning at place w. */
  function Cut(v: Window, addr: nat, len: nat, w: nat): seq<Piece>
    requires w < v.aperture
    decreases len
  {
    if len == 0 then []
    else
      var n := Fit(v, len, w);
      [Piece(addr, v.ep + w, n)] + Cut(v, addr + n, len - n, On(v, w, n))
  }

  /** The place any number of bytes on. */
  function Place(v: Window, w: nat, n: nat): (w': nat)
    ensures w' < v.aperture
  {
    (w + n) % v.aperture
  }

  /** The descriptors of a list of extents. */
  function CutAll(v: Window, es: seq<Extent>, w: nat): seq<Piece>
    requires w < v.aperture
  {
    if es == [] then [] else Cut(v, es[0].addr, es[0].len, w) + CutAll(v, es[1..], Place(v, w, es[0].len))
  }

  /** A descriptor that lies wholly inside the window and is not empty. */
  predicate InWindow(p: Piece, v: Window) {
    1 <= p.len <= v.maxlen && v.ep <= p.ep && p.ep + p.len <= v.ep + v.aperture
  }

  ghost predicate AllInWindow(ps: seq<Piece>, v: Window) {
    forall i :: 0 <= i < |ps| ==> InWindow(ps[i], v)
  }

  /** Byte k of a stream to or from place w + k of the window, modulo its size. */
  function Wrapped(dir: Direction, stream: seq<nat>, v: Window, w: nat): (ms: seq<Move>)
    ensures |ms| == |stream|
  {
    seq(|stream|, k requires 0 <= k < |stream| =>
      if dir == ToDevice then Move(stream[k], v.ep + Place(v, w, k)) else Move(v.ep + Place(v, w, k), stream[k]))
  }

  // ---------- places ----------

  lemma PlaceAdds(v: Window, w: nat, n: nat, m: nat)
    ensures Place(v, Place(v, w, n), m) == Place(v, w, n + m)
  {
    var d, q, r := v.aperture, (w + n) / v.aperture, (w + n) % v.aperture;
    var q', r' := (r + m) / d, (r + m) % d;
    assert w + n + m == d * (q + q') + r' by {
      assert d * (q + q') == d * q + d * q';
    }
    Quotient(d, w + n + m, q + q', r');
  }

  lemma PlaceIsOn(v: Window, w: nat, n: nat)
    requires w < v.aperture && w + n <= v.aperture
    ensures Place(v, w, n) == On(v, w, n)
  {
    if w + n == v.aperture {
      Quotient(v.aperture, w + n, 1, 0);
    } else {
      Quotient(v.aperture, w + n, 0, w + n);
    }
  }

  // ---------- what the descriptors move ----------

  lemma {:induction false} MovesConcat(dir: Direction, ps: seq<Piece>, qs: seq<Piece>)
    ensures MovesFrom(dir, ps + qs, 0) == MovesFrom(dir, ps, 0) + MovesFrom(dir, qs, 0)
    decreases |qs|
  {
    hide MovesFrom, PieceMoves;
    if qs == [] {
      assert ps + qs == ps;
      NoMoves(dir);
    } else {
      var init, last := qs[..|qs| - 1], qs[|qs| - 1];
      MovesConcat(dir, ps, init);
      MovesAppend(dir, ps + init, last, 0);
      MovesAppend(dir, init, last, 0);
      assert ps + qs == ps + init + [last] && qs == init + [last];
    }
  }

  lemma NoMoves(dir: Direction)
    ensures MovesFrom(dir, [], 0) == []
  {
  }

  lemma OneMoves(dir: Direction, p: Piece)
    ensures MovesFrom(dir, [p], 0) == PieceMoves(dir, p)
  {
    MovesAppend(dir, [], p, 0);
    assert [] + [p] == [p];
  }

  lemma {:induction false} WrappedConcat(dir: Direction, s: seq<nat>, t: seq<nat>, v: Window, w: nat)
    ensures Wrapped(dir, s + t, v, w) == Wrapped(dir, s, v, w) + Wrapped(dir, t, v, Place(v, w, |s|))
  {
    var all, two := Wrapped(dir, s + t, v, w), Wrapped(dir, s, v, w) + Wrapped(dir, t, v, Place(v, w, |s|));
    forall k | 0 <= k < |all| ensures all[k] == two[k] {
      if k >= |s| {
        PlaceAdds(v, w, |s|, k - |s|);
      }
    }
  }

  /** A descriptor that does not reach over the window's end moves its bytes to consecutive places. */
  lemma PieceIsWrapped(dir: Direction, addr: nat, n: nat, v: Window, w: nat)
    requires w < v.aperture && w + n <= v.aperture
    ensures PieceMoves(dir, Piece(addr, v.ep + w, n)) == Wrapped(dir, Span(addr, n), v, w)
  {
    forall k | 0 <= k < n ensures Place(v, w, k) == w + k {
      PlaceIsOn(v, w, k);
    }
  }

  lemma {:induction false} CutMoves(dir: Direction, v: Window, addr: nat, len: nat, w: nat)
    requires w < v.aperture
    ensures MovesFrom(dir, Cut(v, addr, len, w), 0) == Wrapped(dir, Span(addr, len), v, w)
    ensures AllInWindow(Cut(v, addr, len, w), v)
    decreases len
  {
    hide *;
    if len > 0 {
      var n := Fit(v, len, w);
      var p, rest := Piece(addr, v.ep + w, n), Cut(v, addr + n, len - n, On(v, w, n));
      CutMoves(dir, v, addr + n, len - n, On(v, w, n));
      CutStep(v, addr, len, w);
      MovesConcat(dir, [p], rest);
      OneMoves(dir, p);
      PieceIsWrapped(dir, addr, n, v, w);
      PlaceIsOn(v, w, n);
      SpanSplit(addr, n, len - n);
      WrappedConcat(dir, Span(addr, n), Span(addr + n, len - n), v, w);
      HeadInWindow(v, p, rest);
    } else {
      CutNothing(v, addr, w);
      NothingMoves(dir, v, addr, w);
    }
  }

  lemma CutStep(v: Window, addr: nat, len: nat, w: nat)
    requires w < v.aperture && len > 0
    ensures
      var n := Fit(v, len, w);
      Cut(v, addr, len, w) == [Piece(addr, v.ep + w, n)] + Cut(v, addr + n, len - n, On(v, w, n))
  {
  }

  lemma CutNothing(v: Window, addr: nat, w: nat)
    requires w < v.aperture
    ensures Cut(v, addr, 0, w) == []
  {
  }

  lemma NothingMoves(dir: Direction, v: Window, addr: nat, w: nat)
    ensures MovesFrom(dir, [], 0) == Wrapped(dir, Span(addr, 0), v, w) && AllInWindow([], v)
  {
  }

  lemma HeadInWindow(v: Window, p: Piece, rest: seq<Piece>)
    requires 1 <= p.len <= v.maxlen && v.ep <= p.ep && p.ep + p.len <= v.ep + v.aperture && AllInWindow(rest, v)
    ensures AllInWindow([p] + rest, v)
  {
  }

  /** The stream of a list, from its first extent on. */
  lemma {:induction false} StreamHead(es: seq<Extent>)
    requires es != []
    ensures Stream(es) == Span(es[0].addr, es[0].len) + Stream(es[1..])
  {
    assert es == [es[0]] + es[1..];
    StreamConcat([es[0]], es[1..]);
    StreamAppend([], es[0]);
    assert [] + [es[0]] == [es[0]];
  }

  /** The descriptors stay in the window, and together they move byte k of the stream to or from place
      w + k modulo the window's size. */
  lemma {:induction false} CutAllMoves(dir: Direction, v: Window, es: seq<Extent>, w: nat)
    requires w < v.aperture
    ensures MovesFrom(dir, CutAll(v, es, w), 0) == Wrapped(dir, Stream(es), v, w)
    ensures AllInWindow(CutAll(v, es, w), v)
  {
    if es != [] {
      var head, rest := Cut(v, es[0].addr, es[0].len, w), CutAll(v, es[1..], Place(v, w, es[0].len));
      CutAllMoves(dir, v, es[1..], Place(v, w, es[0].len));
      assert CutAll(v, es, w) == head + rest;
      hide MovesFrom, Wrapped, Place, Cut, CutAll;
      CutMoves(dir, v, es[0].addr, es[0].len, w);
      MovesConcat(dir, head, rest);
      StreamHead(es);
      WrappedConcat(dir, Span(es[0].addr, es[0].len), Stream(es[1..]), v, w);
    }
  }

  // ---------- lengths ----------

  /** The bytes of a list of descriptors. */
  function Bytes(ps: seq<Piece>): nat {
    if ps == [] then 0 else Bytes(ps[..|ps| - 1]) + ps[|ps| - 1].len
  }

  lemma {:induction false} BytesConcat(ps: seq<Piece>, qs: seq<Piece>)
    ensures Bytes(ps + qs) == Bytes(ps) + Bytes(qs)
    decreases |qs|
  {
    if qs == [] {
      assert ps + qs == ps;
    } else {
      BytesConcat(ps, qs[..|qs| - 1]);
      assert (ps + qs)[..|ps + qs| - 1] == ps + qs[..|qs| - 1];
    }
  }

  lemma {:induction false} BytesAreMoves(dir: Direction, ps: seq<Piece>)
    ensures Bytes(ps) == |MovesFrom(dir, ps, 0)|
  {
    hide MovesFrom, PieceMoves;
    if ps == [] {
      NoMoves(dir);
    } else {
      BytesAreMoves(dir, ps[..|ps| - 1]);
      MovesAppend(dir, ps[..|ps| - 1], ps[|ps| - 1], 0);
      assert ps == ps[..|ps| - 1] + [ps[|ps| - 1]];
    }
  }

  /** The first n descriptors move the first Bytes of them. */
  lemma {:induction false} PrefixMoves(dir: Direction, v: Window, es: seq<Extent>, w: nat, n: nat)
    requires w < v.aperture && n <= |CutAll(v, es, w)|
    ensures
      var ps := CutAll(v, es, w)[..n];
      && Bytes(ps) <= |Stream(es)| && AllInWindow(ps, v)
      && MovesFrom(dir, ps, 0) == Wrapped(dir, Stream(es)[..Bytes(ps)], v, w)
  {
    var all := CutAll(v, es, w);
    CutAllMoves(dir, v, es, w);
    hide MovesFrom, CutAll, Place;
    assert all == all[..n] + all[n..];
    MovesConcat(dir, all[..n], all[n..]);
    BytesAreMoves(dir, all[..n]);
    WrappedPrefix(dir, Stream(es), v, w, Bytes(all[..n]));
  }

  lemma {:induction false} WrappedPrefix(dir: Direction, s: seq<nat>, v: Window, w: nat, n: nat)
    requires n <= |s|
    ensures Wrapped(dir, s[..n], v, w) == Wrapped(dir, s, v, w)[..n]
  {
  }

  // ---------- how long the descriptors are ----------

  /** n bytes are whole extents from the first one on. */
  ghost predicate EndsExtent(es: seq<Extent>, n: nat) {
    exists s: nat :: s <= |es| && TotalLen(es[..s]) == n
  }

  /** Every descriptor is as long as can be: it has the greatest length, or ends the window, or ends an extent. */
  ghost predicate Longest(ps: seq<Piece>, es: seq<Extent>, maxlen: nat, end: nat) {
    forall i: nat | i < |ps| :: ps[i].len == maxlen || ps[i].ep + ps[i].len == end || EndsExtent(es, Bytes(ps[..i + 1]))
  }

  lemma {:induction false} CutLongest(v: Window, addr: nat, len: nat, w: nat)
    requires w < v.aperture
    ensures
      var ps := Cut(v, addr, len, w);
      && Bytes(ps) == len
      && forall i: nat | i + 1 < |ps| :: ps[i].len == v.maxlen || ps[i].ep + ps[i].len == v.ep + v.aperture
    decreases len
  {
    if len > 0 {
      var n := Fit(v, len, w);
      var p, rest := Piece(addr, v.ep + w, n), Cut(v, addr + n, len - n, On(v, w, n));
      assert Cut(v, addr, len, w) == [p] + rest;
      CutLongest(v, addr + n, len - n, On(v, w, n));
      BytesConcat([p], rest);
      if n == len {
        assert rest == [];
      }
      assert Bytes([p]) == n;
      hide Cut, On, Bytes;
      forall i: nat | i + 1 < |[p] + rest|
        ensures var q := ([p] + rest)[i]; q.len == v.maxlen || q.ep + q.len == v.ep + v.aperture
      {
        if i > 0 {
          assert ([p] + rest)[i] == rest[i - 1];
        }
      }
    }
  }

  lemma {:induction false} CutAllLongest(v: Window, es: seq<Extent>, w: nat)
    requires w < v.aperture
    ensures Longest(CutAll(v, es, w), es, v.maxlen, v.ep + v.aperture)
  {
    if es != [] {
      var head, rest := Cut(v, es[0].addr, es[0].len, w), CutAll(v, es[1..], Place(v, w, es[0].len));
      var ps := CutAll(v, es, w);
      assert ps == head + rest;
      CutAllLongest(v, es[1..], Place(v, w, es[0].len));
      CutLongest(v, es[0].addr, es[0].len, w);
      hide Cut, CutAll, Place, Bytes, EndsExtent;
      forall i: nat | i < |ps|
        ensures ps[i].len == v.maxlen || ps[i].ep + ps[i].len == v.ep + v.aperture || EndsExtent(es, Bytes(ps[..i + 1]))
      {
        if i + 1 == |head| {
          assert ps[..i + 1] == head;
          FirstEnds(es);
        } else if i >= |head| {
          var k := i - |head|;
          assert rest[k].len == v.maxlen || rest[k].ep + rest[k].len == v.ep + v.aperture || EndsExtent(es[1..], Bytes(rest[..k + 1]));
          assert ps[..i + 1] == head + rest[..k + 1];
          BytesConcat(head, rest[..k + 1]);
          if EndsExtent(es[1..], Bytes(rest[..k + 1])) {
            EndsLater(es, Bytes(rest[..k + 1]));
          }
        }
      }
    }
  }

  lemma {:induction false} FirstEnds(es: seq<Extent>)
    requires es != []
    ensures EndsExtent(es, es[0].len)
  {
    assert es[..1][..0] == [] && es[..0] == [];
    TakeOne(es, 0);
    assert TotalLen(es[..1]) == es[0].len;
  }

  lemma {:induction false} EndsLater(es: seq<Extent>, n: nat)
    requires es != [] && EndsExtent(es[1..], n)
    ensures EndsExtent(es, es[0].len + n)
  {
    var s: nat :| s <= |es[1..]| && TotalLen(es[1..][..s]) == n;
    assert es[..s + 1][1..] == es[1..][..s];
    StreamHead(es[..s + 1]);
    assert TotalLen(es[..s + 1]) == es[0].len + n;
  }

  lemma {:induction false} LongestPrefix(ps: seq<Piece>, es: seq<Extent>, maxlen: nat, end: nat, n: nat)
    requires Longest(ps, es, maxlen, end) && n <= |ps|
    ensures Longest(ps[..n], es, maxlen, end)
  {
    hide EndsExtent, Bytes;
    forall i: nat | i < n
      ensures ps[i].len == maxlen || ps[i].ep + ps[i].len == end || EndsExtent(es, Bytes(ps[..n][..i + 1]))
    {
      assert ps[..n][..i + 1] == ps[..i + 1];
    }
  }

  // ---------- in the addresses of a request ----------

  /** Move k takes byte k of the stream to or from end-point address ep + (w + k) % aperture. */
  ghost predicate GoesAround(ms: seq<Move>, dir: Direction, stream: seq<nat>, ep: nat, aperture: nat, w: nat)
    requires aperture >= 1
  {
    && |ms| == |stream|
    && forall k: nat | k < |ms| ::
        ms[k] == if dir == ToDevice then Move(stream[k], ep + (w + k) % aperture) else Move(ep + (w + k) % aperture, stream[k])
  }

  lemma WrappedGoesAround(ms: seq<Move>, dir: Direction, stream: seq<nat>, v: Window, w: nat)
    ensures ms == Wrapped(dir, stream, v, w) <==> GoesAround(ms, dir, stream, v.ep, v.aperture, w)
  {
    if GoesAround(ms, dir, stream, v.ep, v.aperture, w) {
      assert ms == Wrapped(dir, stream, v, w);
    }
  }
}
