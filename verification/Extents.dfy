/** Contiguous runs of bus addresses, and the byte stream a list of them stands for. */
module Extents {

  const TWO_32: nat := 0x1_0000_0000

  /** A scatterlist entry or a software descriptor: len bytes from addr on. */
  datatype Extent = Extent(addr: nat, len: nat)

  /** The addresses of an extent, in order. */
  function Span(addr: nat, len: nat): (s: seq<nat>)
    ensures |s| == len && forall k :: 0 <= k < len ==> s[k] == addr + k
  {
    seq(len, k requires 0 <= k < len => addr + k)
  }

  lemma SpanSplit(addr: nat, n: nat, m: nat)
    ensures Span(addr, n + m) == Span(addr, n) + Span(addr + n, m)
  {
  }

  /** The addresses of a list of extents, in order. */
  function Stream(es: seq<Extent>): seq<nat> {
    if |es| == 0 then [] else Stream(es[..|es| - 1]) + Span(es[|es| - 1].addr, es[|es| - 1].len)
  }

  function TotalLen(es: seq<Extent>): (n: nat)
    ensures n == |Stream(es)|
  {
    if |es| == 0 then 0 else TotalLen(es[..|es| - 1]) + es[|es| - 1].len
  }

  /** No address occurs twice. */
  ghost predicate Distinct(s: seq<nat>) {
    forall i: nat, j: nat | i < j < |s| :: s[i] != s[j]
  }

  lemma {:induction false} StreamAppend(es: seq<Extent>, e: Extent)
    ensures Stream(es + [e]) == Stream(es) + Span(e.addr, e.len)
    ensures TotalLen(es + [e]) == TotalLen(es) + e.len
  {
    assert (es + [e])[..|es|] == es;
  }

  lemma {:induction false} StreamConcat(es: seq<Extent>, fs: seq<Extent>)
    ensures Stream(es + fs) == Stream(es) + Stream(fs)
  {
    if |fs| == 0 {
      assert es + fs == es;
    } else {
      assert Stream(fs) == Stream(fs[..|fs| - 1]) + Span(fs[|fs| - 1].addr, fs[|fs| - 1].len);
      hide Stream;
      var init, last := fs[..|fs| - 1], fs[|fs| - 1];
      StreamConcat(es, init);
      StreamAppend(es + init, last);
      assert es + fs == (es + init) + [last];
    }
  }

  lemma {:induction false} TakeOne(es: seq<Extent>, n: nat)
    requires n < |es|
    ensures Stream(es[..n + 1]) == Stream(es[..n]) + Span(es[n].addr, es[n].len)
    ensures TotalLen(es[..n + 1]) == TotalLen(es[..n]) + es[n].len
  {
    assert es[..n + 1] == es[..n] + [es[n]];
    StreamAppend(es[..n], es[n]);
  }

  /** A prefix of the list is a prefix of the stream. */
  lemma {:induction false} PrefixStream(es: seq<Extent>, n: nat)
    requires n <= |es|
    ensures Stream(es[..n]) <= Stream(es)
  {
    hide Stream;
    StreamConcat(es[..n], es[n..]);
    assert es[..n] + es[n..] == es;
    ConcatPrefix(Stream(es[..n]), Stream(es[n..]));
  }

  lemma {:induction false} ConcatPrefix<T>(a: seq<T>, b: seq<T>)
    ensures a <= a + b
  {
  }
}
