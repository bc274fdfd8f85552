/**
 Byte buffers and the little-endian integers the ZKTeco protocol writes into them.
 A Node `Buffer` is a sequence of bytes here; `writeUIntXXLE` raises on a value outside its
 width, so the widths are types.
 */
module Bytes {
  type byte = x: int | 0 <= x < 256
  type u16 = x: int | 0 <= x < 0x1_0000
  type u32 = x: int | 0 <= x < 0x1_0000_0000

  function U16LE(v: u16): (b: seq<byte>)
    ensures |b| == 2
  {
    [v % 256, v / 256]
  }

  function U32LE(v: u32): (b: seq<byte>)
    ensures |b| == 4
  {
    [v % 256, v / 256 % 256, v / 65536 % 256, v / 16777216]
  }

  function ReadU16LE(b: seq<byte>, at: nat): u16
    requires at + 2 <= |b|
  {
    (b[at] as int) + 256 * (b[at + 1] as int)
  }

  function ReadU32LE(b: seq<byte>, at: nat): u32
    requires at + 4 <= |b|
  {
    (b[at] as int) + 256 * (b[at + 1] as int) + 65536 * (b[at + 2] as int) + 16777216 * (b[at + 3] as int)
  }

  function Zeros(n: nat): (b: seq<byte>)
    ensures |b| == n
  {
    seq(n, i => 0)
  }

  /** A 16-bit value read back from where it was written, whatever surrounds it. */
  lemma ReadBackU16(b: seq<byte>, at: nat, v: u16)
    requires at + 2 <= |b| && b[at..at + 2] == U16LE(v)
    ensures ReadU16LE(b, at) == v
  {
    assert b[at] == b[at..at + 2][0] && b[at + 1] == b[at..at + 2][1];
  }

  lemma ReadBackU32(b: seq<byte>, at: nat, v: u32)
    requires at + 4 <= |b| && b[at..at + 4] == U32LE(v)
    ensures ReadU32LE(b, at) == v
  {
    var w := b[at..at + 4];
    assert b[at] == w[0] && b[at + 1] == w[1] && b[at + 2] == w[2] && b[at + 3] == w[3];
    assert v / 65536 == v / 256 / 256 && v / 16777216 == v / 65536 / 256;
  }

  /** Concatenation of a list of buffers: `Buffer.concat`. */
  function Concat(parts: seq<seq<byte>>): seq<byte> {
    if parts == [] then [] else parts[0] + Concat(parts[1..])
  }

  lemma {:induction false} ConcatAppend(a: seq<seq<byte>>, b: seq<seq<byte>>)
    ensures Concat(a + b) == Concat(a) + Concat(b)
  {
    if a == [] {
      assert a + b == b;
    } else {
      ConcatAppend(a[1..], b);
      assert (a + b)[0] == a[0] && (a + b)[1..] == a[1..] + b;
      assert a[0] + (Concat(a[1..]) + Concat(b)) == (a[0] + Concat(a[1..])) + Concat(b);
    }
  }

  method WriteU16LE(buffer: array<byte>, v: u16, at: nat)
    requires at + 2 <= buffer.Length
    modifies buffer
    ensures buffer[..] == old(buffer[..at]) + U16LE(v) + old(buffer[at + 2..])
  {
    buffer[at] := v % 256;
    buffer[at + 1] := v / 256;
  }

  method WriteU32LE(buffer: array<byte>, v: u32, at: nat)
    requires at + 4 <= buffer.Length
    modifies buffer
    ensures buffer[..] == old(buffer[..at]) + U32LE(v) + old(buffer[at + 4..])
  {
    buffer[at] := v % 256;
    buffer[at + 1] := v / 256 % 256;
    buffer[at + 2] := v / 65536 % 256;
    buffer[at + 3] := v / 16777216;
  }

  /** `source.copy(target, at)`. */
  method CopyInto(source: seq<byte>, target: array<byte>, at: nat)
    requires at + |source| <= target.Length
    modifies target
    ensures target[..] == old(target[..at]) + source + old(target[at + |source|..])
  {
    for i := 0 to |source|
      invariant target[..] == old(target[..at]) + source[..i] + old(target[at + i..])
    {
      assert target[at + i + 1..] == old(target[at + i + 1..]) by {
        assert forall k :: at + i + 1 <= k < target.Length ==> target[..][k] == old(target[k]);
      }
      target[at + i] := source[i];
      assert source[..i + 1] == source[..i] + [source[i]];
    }
    assert source[..|source|] == source;
  }
}
