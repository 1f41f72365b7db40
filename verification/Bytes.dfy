/** Bytes, fixed-width integers and their big-endian encodings, as
    `encoding/binary` writes and reads them. */
module Bytes {
  type byte = x: int | 0 <= x < 256
  type uint32 = x: int | 0 <= x < 0x1_0000_0000
  type uint64 = x: int | 0 <= x < 0x1_0000_0000_0000_0000
  type int64 = x: int | -0x8000_0000_0000_0000 <= x < 0x8000_0000_0000_0000

  const TWO_32: int := 0x1_0000_0000
  const TWO_63: int := 0x8000_0000_0000_0000
  const TWO_64: int := 0x1_0000_0000_0000_0000

  datatype Option<+T> = None | Some(value: T)

  /** The conversion `uint32(n)` of a non-negative length. */
  function Truncate32(n: nat): uint32 { n % TWO_32 }

  /** 64-bit wrap-around, as int64 addition performs it. */
  function Wrap64(n: int): int64 { (n + TWO_63) % TWO_64 - TWO_63 }

  function EncodeU32(x: uint32): (s: seq<byte>)
    ensures |s| == 4
  {
    [x / 256 / 256 / 256, x / 256 / 256 % 256, x / 256 % 256, x % 256]
  }

  function DecodeU32(s: seq<byte>): uint32
    requires |s| == 4
  {
    var b0: int, b1: int, b2: int, b3: int := s[0], s[1], s[2], s[3];
    ((b0 * 256 + b1) * 256 + b2) * 256 + b3
  }

  function EncodeU64(x: uint64): (s: seq<byte>)
    ensures |s| == 8
  {
    EncodeU32(x / TWO_32) + EncodeU32(x % TWO_32)
  }

  function DecodeU64(s: seq<byte>): uint64
    requires |s| == 8
  {
    DecodeU32(s[..4]) * TWO_32 + DecodeU32(s[4..])
  }

  /** Signed 64-bit values travel in two's complement. */
  function EncodeI64(x: int64): (s: seq<byte>)
    ensures |s| == 8
  {
    EncodeU64(x % TWO_64)
  }

  function DecodeI64(s: seq<byte>): int64
    requires |s| == 8
  {
    Wrap64(DecodeU64(s))
  }

  lemma DecodeEncodeU32(x: uint32)
    ensures DecodeU32(EncodeU32(x)) == x
  {
  }

  lemma EncodeDecodeU32(s: seq<byte>)
    requires |s| == 4
    ensures EncodeU32(DecodeU32(s)) == s
  {
    var x := DecodeU32(s);
    assert x % 256 == s[3] && x / 256 == (s[0] as int * 256 + s[1]) * 256 + s[2];
    assert x / 256 % 256 == s[2] && x / 256 / 256 == s[0] as int * 256 + s[1];
  }

  lemma DecodeEncodeI64(x: int64)
    ensures DecodeI64(EncodeI64(x)) == x
  {
    var u := x % TWO_64;
    var hi, lo := EncodeU32(u / TWO_32), EncodeU32(u % TWO_32);
    assert (hi + lo)[..4] == hi && (hi + lo)[4..] == lo;
    DecodeEncodeU32(u / TWO_32);
    DecodeEncodeU32(u % TWO_32);
  }

  lemma WrapModulo(u: uint64)
    ensures Wrap64(u) % TWO_64 == u
  {
  }

  lemma Halves(hi: uint32, lo: uint32)
    ensures (hi * TWO_32 + lo) / TWO_32 == hi && (hi * TWO_32 + lo) % TWO_32 == lo
  {
  }

  lemma EncodeDecodeI64(s: seq<byte>)
    requires |s| == 8
    ensures EncodeI64(DecodeI64(s)) == s
  {
    hide EncodeU32, DecodeU32, Wrap64;
    WrapModulo(DecodeU64(s));
    Halves(DecodeU32(s[..4]), DecodeU32(s[4..]));
    EncodeDecodeU32(s[..4]);
    EncodeDecodeU32(s[4..]);
    assert s == s[..4] + s[4..];
  }

  /** A slice of what is left is a slice of the whole. */
  lemma SliceOfRest(s: seq<byte>, at: nat, n: nat)
    requires at + n <= |s|
    ensures s[at..][..n] == s[at..at + n] && s[at..][n..] == s[at + n..]
  {
  }

  /** The concatenation of a list of byte strings. */
  function Flatten(parts: seq<seq<byte>>): seq<byte> {
    if parts == [] then [] else parts[0] + Flatten(parts[1..])
  }

  lemma {:induction false} FlattenAppend(a: seq<seq<byte>>, b: seq<seq<byte>>)
    ensures Flatten(a + b) == Flatten(a) + Flatten(b)
  {
    if a == [] {
      assert a + b == b;
    } else {
      assert (a + b)[1..] == a[1..] + b;
      FlattenAppend(a[1..], b);
    }
  }

  lemma FlattenSnoc(a: seq<seq<byte>>, p: seq<byte>)
    ensures Flatten(a + [p]) == Flatten(a) + p
  {
    FlattenAppend(a, [p]);
    assert Flatten([p]) == p + Flatten([]) == p;
  }
}
