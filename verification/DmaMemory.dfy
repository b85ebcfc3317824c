/** The effect of a list of byte moves on memory. */
module DmaMemory {
  import opened Extents
  import opened Walker

  type Memory = nat -> int

  /** The destination memory after the moves, in order. */
  function Perform(ms: seq<Move>, src: Memory, dst: Memory): Memory {
    if |ms| == 0 then dst
    else
      var m := ms[|ms| - 1];
      var before := Perform(ms[..|ms| - 1], src, dst);
      (a: nat) => if a == m.dst then src(m.src) else before(a)
  }

  /** Whether move k is the last one that writes address a. */
  ghost predicate LastWriter(ms: seq<Move>, a: nat, k: nat) {
    k < |ms| && ms[k].dst == a && forall j :: k < j < |ms| ==> ms[j].dst != a
  }

  /** An address that is written holds what its last writer moved. */
  lemma {:induction false} WrittenByLast(ms: seq<Move>, src: Memory, dst: Memory, a: nat, k: nat)
    requires LastWriter(ms, a, k)
    ensures Perform(ms, src, dst)(a) == src(ms[k].src)
  {
    if k < |ms| - 1 {
      assert ms[|ms| - 1].dst != a;
      WrittenByLast(ms[..|ms| - 1], src, dst, a, k);
    }
  }

  /** An address that is not written keeps its value. */
  lemma {:induction false} UnwrittenStays(ms: seq<Move>, src: Memory, dst: Memory, a: nat)
    requires forall k :: 0 <= k < |ms| ==> ms[k].dst != a
    ensures Perform(ms, src, dst)(a) == dst(a)
  {
    if |ms| > 0 {
      assert ms[|ms| - 1].dst != a;
      UnwrittenStays(ms[..|ms| - 1], src, dst, a);
    }
  }

  /** Writing to the device leaves byte k of the stream at ep + k and nothing else changed. */
  lemma {:induction false} ToDeviceCopies(stream: seq<nat>, ep: nat, host: Memory, device: Memory, a: nat)
    ensures Perform(Mapping(ToDevice, stream, ep), host, device)(a) ==
      if ep <= a < ep + |stream| then host(stream[a - ep]) else device(a)
  {
    var ms := Mapping(ToDevice, stream, ep);
    if ep <= a < ep + |stream| {
      WrittenByLast(ms, host, device, a, a - ep);
    } else {
      UnwrittenStays(ms, host, device, a);
    }
  }

  /** Reading from the device leaves, at every host address of the stream, the device byte of the
      last place at which the address occurs in the stream; other host addresses keep their value. */
  lemma {:induction false} FromDeviceCopies(stream: seq<nat>, ep: nat, device: Memory, host: Memory, a: nat)
    ensures
      var host' := Perform(Mapping(FromDevice, stream, ep), device, host);
      && (forall k: nat | k < |stream| && stream[k] == a && a !in stream[k + 1..] :: host'(a) == device(ep + k))
      && (a !in stream ==> host'(a) == host(a))
  {
    var ms := Mapping(FromDevice, stream, ep);
    forall k: nat | k < |stream| && stream[k] == a && a !in stream[k + 1..]
      ensures Perform(ms, device, host)(a) == device(ep + k)
    {
      forall j | k < j < |ms| ensures ms[j].dst != a {
        assert stream[j] == stream[k + 1..][j - k - 1];
      }
      WrittenByLast(ms, device, host, a, k);
    }
    if a !in stream {
      UnwrittenStays(ms, device, host, a);
    }
  }
}
