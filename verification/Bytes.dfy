/** Bytes, and 32-bit numbers stored big-endian. */
module Bytes {
  type Byte = b: nat | b < 256
  type Word = w: nat | w < 0x1_0000_0000

  function Put32(v: Word): (s: seq<Byte>)
    ensures |s| == 4
  {
    [v / 0x100_0000, v / 0x1_0000 % 256, v / 256 % 256, v % 256]
  }

  function Get32(s: seq<Byte>): Word
    requires |s| >= 4
  {
    s[0] as int * 0x100_0000 + s[1] as int * 0x1_0000 + s[2] as int * 256 + s[3] as int
  }

  lemma PutGet32(v: Word, rest: seq<Byte>)
    ensures Get32(Put32(v) + rest) == v
  {
    var s := Put32(v);
    assert (Put32(v) + rest)[..4] == s;
    assert v / 0x1_0000 == v / 256 / 256 && v / 0x100_0000 == v / 256 / 256 / 256;
  }

  type Half = h: nat | h < 0x1_0000

  function Put16(v: Half): (s: seq<Byte>)
    ensures |s| == 2
  {
    [v / 256, v % 256]
  }

  function Get16(s: seq<Byte>): Half
    requires |s| >= 2
  {
    s[0] as int * 256 + s[1] as int
  }

  lemma PutGet16(v: Half, rest: seq<Byte>)
    ensures Get16(Put16(v) + rest) == v
  {
  }

  function Zeros(n: nat): (s: seq<Byte>)
    ensures |s| == n
  {
    seq(n, _ => 0)
  }

  /** Slices of a concatenation. */
  lemma SliceLeft<T>(a: seq<T>, b: seq<T>, i: nat, j: nat)
    requires i <= j <= |a|
    ensures (a + b)[i..j] == a[i..j]
  {
  }

  lemma SliceRight<T>(a: seq<T>, b: seq<T>, i: nat, j: nat)
    requires i <= j <= |b|
    ensures (a + b)[|a| + i..|a| + j] == b[i..j]
  {
  }
}
