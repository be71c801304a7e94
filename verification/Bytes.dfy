/** Buffers of bytes and the integers read from them. */
module Bytes {

  type Byte = n: int | 0 <= n < 256

  function U16LE(b: seq<Byte>, i: nat): (n: int)
    requires i + 2 <= |b|
    ensures 0 <= n < 0x1_0000
  {
    (b[i] as int) + 256 * (b[i + 1] as int)
  }

  function U32LE(b: seq<Byte>, i: nat): (n: int)
    requires i + 4 <= |b|
    ensures 0 <= n < 0x1_0000_0000
  {
    U16LE(b, i) + 0x1_0000 * U16LE(b, i + 2)
  }

  function U16BE(b: seq<Byte>, i: nat): (n: int)
    requires i + 2 <= |b|
    ensures 0 <= n < 0x1_0000
  {
    256 * (b[i] as int) + (b[i + 1] as int)
  }

  function U32BE(b: seq<Byte>, i: nat): (n: int)
    requires i + 4 <= |b|
    ensures 0 <= n < 0x1_0000_0000
  {
    0x1_0000 * U16BE(b, i) + U16BE(b, i + 2)
  }

  function WriteU16BE(n: int): (b: seq<Byte>)
    requires 0 <= n < 0x1_0000
    ensures |b| == 2 && U16BE(b, 0) == n
  {
    [n / 256, n % 256]
  }

  function WriteU32BE(n: int): (b: seq<Byte>)
    requires 0 <= n < 0x1_0000_0000
    ensures |b| == 4 && U32BE(b, 0) == n
  {
    var hi, lo := WriteU16BE(n / 0x1_0000), WriteU16BE(n % 0x1_0000);
    assert (hi + lo)[0] == hi[0] && (hi + lo)[1] == hi[1] && (hi + lo)[2] == lo[0] && (hi + lo)[3] == lo[1];
    hi + lo
  }

  /** Four bytes are what is written for the number they read as. */
  lemma WriteOfRead(b: seq<Byte>)
    requires |b| == 4
    ensures WriteU32BE(U32BE(b, 0)) == b
  {
    var hi, lo := U16BE(b, 0), U16BE(b, 2);
    var n := U32BE(b, 0);
    assert n / 0x1_0000 == hi && n % 0x1_0000 == lo;
    assert hi / 256 == b[0] && hi % 256 == b[1] && lo / 256 == b[2] && lo % 256 == b[3];
  }

  /** A number read inside a slice is the number read there in the whole. */
  lemma ReadInSlice(b: seq<Byte>, from: nat, to: nat, i: nat)
    requires from <= to <= |b| && from + i + 4 <= to
    ensures U32BE(b[from..to], i) == U32BE(b, from + i)
  {
  }

  lemma SliceOfSlice(b: seq<Byte>, from: nat, to: nat, i: nat, j: nat)
    requires from <= to <= |b| && i <= j && from + j <= to
    ensures b[from..to][i..j] == b[from + i..from + j]
  {
    var s, t := b[from..to][i..j], b[from + i..from + j];
    assert |s| == |t|;
    forall k | 0 <= k < |s| ensures s[k] == t[k] {
      assert s[k] == b[from..to][i + k] == b[from + (i + k)];
    }
  }

  function WriteU16LE(n: int): (b: seq<Byte>)
    requires 0 <= n < 0x1_0000
    ensures |b| == 2 && U16LE(b, 0) == n
  {
    [n % 256, n / 256]
  }

  function WriteU32LE(n: int): (b: seq<Byte>)
    requires 0 <= n < 0x1_0000_0000
    ensures |b| == 4
  {
    WriteU16LE(n % 0x1_0000) + WriteU16LE(n / 0x1_0000)
  }

  lemma WriteOfU16LE(b: seq<Byte>, i: nat)
    requires i + 2 <= |b|
    ensures WriteU16LE(U16LE(b, i)) == b[i..i + 2]
  {
  }

  lemma WriteOfU32LE(b: seq<Byte>, i: nat)
    requires i + 4 <= |b|
    ensures WriteU32LE(U32LE(b, i)) == b[i..i + 4]
  {
    var lo, hi := U16LE(b, i), U16LE(b, i + 2);
    assert U32LE(b, i) % 0x1_0000 == lo && U32LE(b, i) / 0x1_0000 == hi;
    WriteOfU16LE(b, i);
    WriteOfU16LE(b, i + 2);
    assert b[i..i + 4] == b[i..i + 2] + b[i + 2..i + 4];
  }
}
