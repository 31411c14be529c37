/**
  Signed 16-bit CT samples and their little-endian byte form.

  The application moves pixel data between `short[]` arrays and `byte[]`
  buffers with raw memory copies (`Buffer.BlockCopy`, `Marshal.Copy`) on a
  little-endian machine: sample `i` occupies bytes `2*i` (low) and `2*i+1`
  (high), in two's complement.
*/
module Samples {

  /** A C# `byte`. */
  type Byte = x: int | 0 <= x < 0x100

  /** A C# `short` (a Hounsfield-unit sample). */
  type Int16 = x: int | -0x8000 <= x < 0x8000

  /** The 16-bit two's-complement bit pattern of a sample, as an unsigned number. */
  function Unsigned(s: Int16): (u: int)
    ensures 0 <= u < 0x1_0000
  {
    if s < 0 then s + 0x1_0000 else s
  }

  function Lo(s: Int16): Byte { Unsigned(s) % 0x100 }

  function Hi(s: Int16): Byte { Unsigned(s) / 0x100 }

  /** The sample whose little-endian bytes are `lo`, `hi`. */
  function DecodeSample(lo: Byte, hi: Byte): (s: Int16)
    ensures Lo(s) == lo && Hi(s) == hi
  {
    var u := lo + 0x100 * hi;
    if u >= 0x8000 then u - 0x1_0000 else u
  }

  lemma SampleRoundTrip(s: Int16)
    ensures DecodeSample(Lo(s), Hi(s)) == s
  {
  }

  /** `Buffer.BlockCopy` from a `short[]` into a `byte[]`: two bytes per sample. */
  function EncodeSlice(s: seq<Int16>): (b: seq<Byte>)
    ensures |b| == 2 * |s|
  {
    if s == [] then [] else [Lo(s[0]), Hi(s[0])] + EncodeSlice(s[1..])
  }

  /** `Buffer.BlockCopy` of `2*n` bytes from a `byte[]` into a `short[n]`. */
  function DecodeSlice(b: seq<Byte>, n: nat): (s: seq<Int16>)
    requires 2 * n <= |b|
    ensures |s| == n
  {
    if n == 0 then [] else [DecodeSample(b[0], b[1])] + DecodeSlice(b[2..], n - 1)
  }

  lemma {:induction false} EncodeSliceAt(s: seq<Int16>, i: nat)
    requires i < |s|
    ensures EncodeSlice(s)[2 * i] == Lo(s[i]) && EncodeSlice(s)[2 * i + 1] == Hi(s[i])
  {
    if i > 0 {
      EncodeSliceAt(s[1..], i - 1);
    }
  }

  lemma {:induction false} DecodeSliceAt(b: seq<Byte>, n: nat, j: nat)
    requires 2 * n <= |b| && j < n
    ensures DecodeSlice(b, n)[j] == DecodeSample(b[2 * j], b[2 * j + 1])
  {
    if j > 0 {
      DecodeSliceAt(b[2..], n - 1, j - 1);
    }
  }

  lemma {:induction false} EncodeAppend(s: seq<Int16>, t: seq<Int16>)
    ensures EncodeSlice(s + t) == EncodeSlice(s) + EncodeSlice(t)
  {
    if s == [] {
      assert s + t == t;
    } else {
      assert (s + t)[1..] == s[1..] + t;
      EncodeAppend(s[1..], t);
    }
  }

  /** Samples to bytes and back is the identity on every 16-bit sample. */
  lemma {:induction false} DecodeEncode(s: seq<Int16>)
    ensures DecodeSlice(EncodeSlice(s), |s|) == s
  {
    if s != [] {
      var b := EncodeSlice(s);
      assert b[2..] == EncodeSlice(s[1..]);
      DecodeEncode(s[1..]);
      SampleRoundTrip(s[0]);
    }
  }

  /** Bytes to samples and back gives the bytes that were read. */
  lemma {:induction false} EncodeDecode(b: seq<Byte>, n: nat)
    requires 2 * n <= |b|
    ensures EncodeSlice(DecodeSlice(b, n)) == b[..2 * n]
  {
    if n > 0 {
      EncodeDecode(b[2..], n - 1);
      var s := DecodeSlice(b, n);
      assert s[1..] == DecodeSlice(b[2..], n - 1);
      assert b[..2 * n] == [b[0], b[1]] + b[2..][..2 * (n - 1)];
    }
  }
}
