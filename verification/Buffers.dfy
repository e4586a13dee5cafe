/** The byte buffer that packet headers are written to and read from, in network byte order. */
module Buffers {
  import opened Types

  type Bytes = seq<U8>

  function U16Bytes(x: U16): (r: Bytes)
    ensures |r| == 2
  {
    [x / 0x100, x % 0x100]
  }

  function U32Bytes(x: U32): (r: Bytes)
    ensures |r| == 4
  {
    [x / 0x100 / 0x100 / 0x100, x / 0x100 / 0x100 % 0x100, x / 0x100 % 0x100, x % 0x100]
  }

  function U16At(b: Bytes, i: nat): U16
    requires i + 2 <= |b|
  {
    b[i] as nat * 0x100 + b[i + 1]
  }

  function U32At(b: Bytes, i: nat): U32
    requires i + 4 <= |b|
  {
    ((b[i] as nat * 0x100 + b[i + 1]) * 0x100 + b[i + 2]) * 0x100 + b[i + 3]
  }

  lemma U16RoundTrip(pre: Bytes, x: U16, post: Bytes)
    ensures U16At(pre + U16Bytes(x) + post, |pre|) == x
  {
    var b := pre + U16Bytes(x) + post;
    assert b[|pre|] == x / 0x100 && b[|pre| + 1] == x % 0x100;
  }

  lemma U32RoundTrip(pre: Bytes, x: U32, post: Bytes)
    ensures U32At(pre + U32Bytes(x) + post, |pre|) == x
  {
    var b := pre + U32Bytes(x) + post;
    var w := U32Bytes(x);
    assert b[|pre|] == w[0] && b[|pre| + 1] == w[1] && b[|pre| + 2] == w[2] && b[|pre| + 3] == w[3];
  }

  // The buffer b with the bytes from at on replaced by w.
  ghost function Overwritten(b: Bytes, at: nat, w: Bytes): (r: Bytes)
    requires at + |w| <= |b|
    ensures |r| == |b|
  {
    b[..at] + w + b[at + |w|..]
  }

  lemma OverwrittenNext(b: Bytes, at: nat, w: Bytes, x: U8)
    requires at + |w| < |b|
    ensures Overwritten(b, at, w)[at + |w| := x] == Overwritten(b, at, w + [x])
  {
  }

  // Buffer::Iterator: a cursor into a buffer, with a record of what was written through it.
  class BufferIterator {
    const data: array<U8>
    var cur: nat
    ghost const origin: Bytes
    ghost const base: nat
    ghost var written: Bytes

    constructor (data: array<U8>, cur: nat)
      requires cur <= data.Length
      ensures this.data == data && this.cur == cur
      ensures origin == data[..] && base == cur && written == []
      ensures Writing()
    {
      this.data := data;
      this.cur := cur;
      origin, base, written := data[..], cur, [];
    }

    // The buffer is the original one with the written bytes laid over it, up to the cursor.
    ghost predicate Writing()
      reads this, data
    {
      && |origin| == data.Length
      && cur == base + |written| <= data.Length
      && data[..] == Overwritten(origin, base, written)
    }

    method WriteU8(b: U8)
      requires Writing() && cur < data.Length
      modifies this`cur, this`written, data
      ensures Writing() && written == old(written) + [b]
    {
      hide Overwritten;
      OverwrittenNext(origin, base, written, b);
      data[cur] := b;
      assert data[..] == old(data[..])[cur := b];
      cur := cur + 1;
      written := written + [b];
    }

    method WriteHtonU16(x: U16)
      requires Writing() && cur + 2 <= data.Length
      modifies this`cur, this`written, data
      ensures Writing() && written == old(written) + U16Bytes(x)
    {
      WriteU8(x / 0x100);
      WriteU8(x % 0x100);
    }

    method WriteHtonU32(x: U32)
      requires Writing() && cur + 4 <= data.Length
      modifies this`cur, this`written, data
      ensures Writing() && written == old(written) + U32Bytes(x)
    {
      WriteU8(x / 0x100 / 0x100 / 0x100);
      WriteU8(x / 0x100 / 0x100 % 0x100);
      WriteU8(x / 0x100 % 0x100);
      WriteU8(x % 0x100);
    }

    method ReadU8() returns (b: U8)
      requires cur < data.Length
      modifies this`cur
      ensures cur == old(cur) + 1
      ensures b == data[old(cur)]
    {
      b := data[cur];
      cur := cur + 1;
    }

    method ReadNtohU16() returns (x: U16)
      requires cur + 2 <= data.Length
      modifies this`cur
      ensures cur == old(cur) + 2
      ensures x == U16At(data[..], old(cur))
    {
      var hi := ReadU8();
      var lo := ReadU8();
      x := hi as nat * 0x100 + lo;
    }

    method ReadNtohU32() returns (x: U32)
      requires cur + 4 <= data.Length
      modifies this`cur
      ensures cur == old(cur) + 4
      ensures x == U32At(data[..], old(cur))
    {
      var a := ReadU8();
      var b := ReadU8();
      var c := ReadU8();
      var d := ReadU8();
      x := ((a as nat * 0x100 + b) * 0x100 + c) * 0x100 + d;
    }
  }
}
