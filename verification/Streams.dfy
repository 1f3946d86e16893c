/** bz_stream (bzlib.h), as both directions share it. */
module Streams {
  import opened Basics

  /** The caller's buffers: avail_in is |input|; output holds all that was ever written. */
  class BzStream {
    var input: seq<Byte>
    var availOut: nat
    var output: seq<Byte>

    constructor (input: seq<Byte>, availOut: nat)
      ensures this.input == input && this.availOut == availOut && output == []
    {
      this.input, this.availOut, output := input, availOut, [];
    }
  }

  /** Input was taken from the front. */
  ghost predicate Took(input0: seq<Byte>, taken0: seq<Byte>, input: seq<Byte>, taken: seq<Byte>) {
    && |input| <= |input0| && input == input0[|input0| - |input|..]
    && taken == taken0 + input0[..|input0| - |input|]
  }

  /** Output was appended, within the room there was, and it is the stream's next part. */
  ghost predicate Wrote(out0: seq<Byte>, room0: nat, emitted0: seq<Byte>, out: seq<Byte>, room: nat, emitted: seq<Byte>) {
    && out0 <= out && room == room0 - (|out| - |out0|)
    && emitted == emitted0 + out[|out0|..]
  }

  lemma NothingYet(input: seq<Byte>, taken: seq<Byte>, out: seq<Byte>, room: nat, emitted: seq<Byte>)
    ensures Took(input, taken, input, taken) && Wrote(out, room, emitted, out, room, emitted)
  {
    assert taken + [] == taken && emitted + [] == emitted;
  }

  lemma TookMore(a: seq<Byte>, t: seq<Byte>, b: seq<Byte>, u: seq<Byte>, c: seq<Byte>, v: seq<Byte>)
    requires Took(a, t, b, u) && Took(b, u, c, v)
    ensures Took(a, t, c, v) && |c| <= |b| <= |a|
    ensures c == a <==> |c| == |b| && b == a
  {
    var k, m := |a| - |b|, |a| - |c|;
    assert a[..m] == a[..k] + b[..m - k];
    assert t + (a[..k] + b[..m - k]) == t + a[..k] + b[..m - k];
  }

  lemma WroteMore(o: seq<Byte>, r: nat, e: seq<Byte>, p: seq<Byte>, s: nat, f: seq<Byte>, q: seq<Byte>, t: nat, g: seq<Byte>)
    requires Wrote(o, r, e, p, s, f) && Wrote(p, s, f, q, t, g)
    ensures Wrote(o, r, e, q, t, g)
    ensures q == o <==> q == p && p == o
  {
    assert q[|o|..] == p[|o|..] + q[|p|..];
    assert e + (p[|o|..] + q[|p|..]) == e + p[|o|..] + q[|p|..];
  }
}
