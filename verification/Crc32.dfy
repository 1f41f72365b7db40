/** CRC-32 as in section 8 of RFC 1952 (`crc32.ChecksumIEEE`), bit by bit, and
    the burst errors it is certain to notice. Bits are in the order in which
    the checksum takes them: byte after byte, least significant bit first. */
module Crc32 {
  import opened Bytes

  const WIDTH: nat := 32

  /** 32 bits, least significant first. */
  type Register = r: seq<bool> | |r| == 32 witness Bits(0, WIDTH)

  function Bits(x: nat, n: nat): (bits: seq<bool>)
    ensures |bits| == n
    decreases n
  {
    if n == 0 then [] else [x % 2 == 1] + Bits(x / 2, n - 1)
  }

  function Pow2(n: nat): nat {
    if n == 0 then 1 else 2 * Pow2(n - 1)
  }

  function Number(bits: seq<bool>): (x: nat)
    ensures x < Pow2(|bits|)
  {
    if bits == [] then 0 else (if bits[0] then 1 else 0) + 2 * Number(bits[1..])
  }

  const POLYNOMIAL: Register := Bits(0xEDB88320, WIDTH)

  const ONES: Register := Bits(0xFFFF_FFFF, WIDTH)

  function Xor(a: seq<bool>, b: seq<bool>): (c: seq<bool>)
    requires |a| == |b|
    ensures |c| == |a| && forall i :: 0 <= i < |a| ==> c[i] == (a[i] != b[i])
  {
    if a == [] then [] else [a[0] != b[0]] + Xor(a[1..], b[1..])
  }

  /** Shift right; the bit shifted out decides whether to add the polynomial. */
  function Shift(r: Register): Register {
    var shifted := r[1..] + [false];
    if r[0] then Xor(shifted, POLYNOMIAL) else shifted
  }

  function AbsorbBit(r: Register, bit: bool): Register {
    Shift(r[0 := r[0] != bit])
  }

  function Absorb(r: Register, bits: seq<bool>): Register
    decreases |bits|
  {
    if bits == [] then r else Absorb(AbsorbBit(r, bits[0]), bits[1..])
  }

  function DataBits(data: seq<byte>): (bits: seq<bool>)
    ensures |bits| == 8 * |data|
  {
    if data == [] then [] else Bits(data[0], 8) + DataBits(data[1..])
  }

  function Checksum(data: seq<byte>): uint32 {
    Pow2Of32();
    Number(Xor(Absorb(ONES, DataBits(data)), ONES))
  }

  lemma Pow2Of32()
    ensures Pow2(WIDTH) == TWO_32
  {
    assert Pow2(8) == 256;
    assert Pow2(16) == 0x1_0000;
    assert Pow2(24) == 0x100_0000;
  }

  // ---------- Numbers and their bits ----------

  lemma {:induction false} NumberInjective(a: seq<bool>, b: seq<bool>)
    requires |a| == |b| && Number(a) == Number(b)
    ensures a == b
  {
    hide Pow2;
    if a != [] {
      var m, n := Number(a[1..]), Number(b[1..]);
      assert (if a[0] then 1 else 0) + 2 * m == (if b[0] then 1 else 0) + 2 * n;
      assert a[0] == b[0] && m == n;
      NumberInjective(a[1..], b[1..]);
      assert a == [a[0]] + a[1..] && b == [b[0]] + b[1..];
    }
  }

  lemma {:induction false} NumberOfBits(x: nat, n: nat)
    requires x < Pow2(n)
    ensures Number(Bits(x, n)) == x
    decreases n
  {
    if n > 0 {
      NumberOfBits(x / 2, n - 1);
      assert Bits(x, n)[1..] == Bits(x / 2, n - 1);
    }
  }

  lemma {:induction false} DataBitsInjective(a: seq<byte>, b: seq<byte>)
    requires |a| == |b| && DataBits(a) == DataBits(b)
    ensures a == b
  {
    if a != [] {
      assert DataBits(a)[..8] == Bits(a[0], 8) && DataBits(a)[8..] == DataBits(a[1..]);
      assert DataBits(b)[..8] == Bits(b[0], 8) && DataBits(b)[8..] == DataBits(b[1..]);
      assert Pow2(8) == 256;
      NumberOfBits(a[0], 8);
      NumberOfBits(b[0], 8);
      DataBitsInjective(a[1..], b[1..]);
      assert a == [a[0]] + a[1..] && b == [b[0]] + b[1..];
    }
  }

  // ---------- Injectivity ----------

  /** The polynomial's top coefficient is one, so the bit shifted in at the top
      tells which branch was taken. */
  lemma TopCoefficient()
    ensures POLYNOMIAL[31]
  {
    hide Bits;
    DropFourBits(0xEDB88320, 32, 27);
    DropFourBits(0xEDB8832, 28, 23);
    DropFourBits(0xEDB883, 24, 19);
    DropFourBits(0xEDB88, 20, 15);
    DropFourBits(0xEDB8, 16, 11);
    DropFourBits(0xEDB, 12, 7);
    DropFourBits(0xED, 8, 3);
    FourteenInBinary();
  }

  lemma FourteenInBinary()
    ensures Bits(14, 4)[3]
  {
  }

  lemma DropFourBits(x: nat, n: nat, i: nat)
    requires i + 4 < n
    ensures Bits(x, n)[i + 4] == Bits(x / 16, n - 4)[i]
  {
    assert Bits(x, n)[i + 4] == Bits(x / 2, n - 1)[i + 3];
    assert Bits(x / 2, n - 1)[i + 3] == Bits(x / 2 / 2, n - 2)[i + 2];
    assert Bits(x / 2 / 2, n - 2)[i + 2] == Bits(x / 2 / 2 / 2, n - 3)[i + 1];
    assert Bits(x / 2 / 2 / 2, n - 3)[i + 1] == Bits(x / 2 / 2 / 2 / 2, n - 4)[i];
    assert x / 2 / 2 / 2 / 2 == x / 16;
  }

  /** Undoing words: two registers that reach the same value over words of the
      same length, at most 32, already agreed beyond the words and differed
      inside exactly where the words do. */
  lemma {:induction false} AbsorbWords(a: Register, b: Register, u: seq<bool>, v: seq<bool>)
    requires |u| == |v| <= 32
    requires Absorb(a, u) == Absorb(b, v)
    ensures forall i :: 0 <= i < |u| ==> (a[i] != u[i]) == (b[i] != v[i])
    ensures forall i :: |u| <= i < 32 ==> a[i] == b[i]
    decreases |u|
  {
    hide AbsorbBit, Bits;
    if u != [] {
      var a', b' := AbsorbBit(a, u[0]), AbsorbBit(b, v[0]);
      AbsorbWords(a', b', u[1..], v[1..]);
      TopCoefficient();
      ShiftBits(a, u[0]);
      ShiftBits(b, v[0]);
      assert a'[31] == b'[31];
      forall i | 1 <= i < |u|
        ensures (a[i] != u[i]) == (b[i] != v[i])
      {
        assert (a'[i - 1] != u[1..][i - 1]) == (b'[i - 1] != v[1..][i - 1]);
      }
      forall i | |u| <= i < 32
        ensures a[i] == b[i]
      {
        assert a'[i - 1] == b'[i - 1];
      }
    }
  }

  lemma ShiftBits(r: Register, bit: bool)
    ensures AbsorbBit(r, bit)[31] == (r[0] != bit)
    ensures forall i :: 1 <= i < 32 ==> AbsorbBit(r, bit)[i - 1] == (r[i] != ((r[0] != bit) && POLYNOMIAL[i - 1]))
  {
    TopCoefficient();
  }

  /** Over the same bits, different registers stay different. */
  lemma {:induction false} AbsorbInjective(a: Register, b: Register, bits: seq<bool>)
    requires Absorb(a, bits) == Absorb(b, bits)
    ensures a == b
    decreases |bits|
  {
    if bits != [] {
      hide AbsorbBit;
      AbsorbInjective(AbsorbBit(a, bits[0]), AbsorbBit(b, bits[0]), bits[1..]);
      AbsorbBitInjective(a, b, bits[0]);
    }
  }

  lemma AbsorbBitInjective(a: Register, b: Register, bit: bool)
    requires AbsorbBit(a, bit) == AbsorbBit(b, bit)
    ensures a == b
  {
    hide AbsorbBit;
    assert Absorb(a, [bit]) == Absorb(AbsorbBit(a, bit), []) == AbsorbBit(a, bit);
    assert Absorb(b, [bit]) == Absorb(AbsorbBit(b, bit), []) == AbsorbBit(b, bit);
    AbsorbWords(a, b, [bit], [bit]);
  }

  lemma {:induction false} AbsorbAppend(r: Register, x: seq<bool>, y: seq<bool>)
    ensures Absorb(r, x + y) == Absorb(Absorb(r, x), y)
    decreases |x|
  {
    if x == [] {
      assert x + y == y;
    } else {
      assert (x + y)[1..] == x[1..] + y;
      AbsorbAppend(AbsorbBit(r, x[0]), x[1..], y);
    }
  }

  /** Bit `k` of the data, in checksum order. */
  function DataBit(data: seq<byte>, k: nat): bool
    requires k < 8 * |data|
  {
    DataBits(data)[k]
  }

  /** The two byte strings differ, and only inside `width` consecutive bits. */
  ghost predicate Burst(a: seq<byte>, b: seq<byte>, start: nat, width: nat) {
    && |a| == |b|
    && a != b
    && forall k :: 0 <= k < 8 * |a| && !(start <= k < start + width) ==> DataBit(a, k) == DataBit(b, k)
  }

  /** Data of any length that is damaged within at most 32 consecutive bits
      has another checksum. */
  lemma BurstChangesChecksum(a: seq<byte>, b: seq<byte>, start: nat, width: nat)
    requires Burst(a, b, start, width) && width <= 32
    ensures Checksum(a) != Checksum(b)
  {
    hide Checksum, DataBits;
    var x, y := DataBits(a), DataBits(b);
    var lo := if start <= |x| then start else |x|;
    var hi := if start + width <= |x| then start + width else |x|;
    forall k | 0 <= k < lo || hi <= k < |x|
      ensures x[k] == y[k]
    {
      assert DataBit(a, k) == DataBit(b, k);
    }
    assert x[..lo] == y[..lo] && x[hi..] == y[hi..];
    if Checksum(a) == Checksum(b) {
      SameChecksum(a, b);
      SameWindow(x, y, lo, hi);
      DataBitsInjective(a, b);
    }
  }

  lemma SameChecksum(a: seq<byte>, b: seq<byte>)
    requires Checksum(a) == Checksum(b)
    ensures Absorb(ONES, DataBits(a)) == Absorb(ONES, DataBits(b))
  {
    var r, s := Absorb(ONES, DataBits(a)), Absorb(ONES, DataBits(b));
    NumberInjective(Xor(r, ONES), Xor(s, ONES));
    forall i | 0 <= i < 32
      ensures r[i] == s[i]
    {
      assert Xor(r, ONES)[i] == Xor(s, ONES)[i];
    }
  }

  lemma SameWindow(x: seq<bool>, y: seq<bool>, lo: nat, hi: nat)
    requires |x| == |y| && lo <= hi <= |x| && hi - lo <= 32
    requires x[..lo] == y[..lo] && x[hi..] == y[hi..]
    requires Absorb(ONES, x) == Absorb(ONES, y)
    ensures x == y
  {
    hide Absorb, Bits;
    var u, v := x[lo..hi], y[lo..hi];
    assert x == x[..lo] + (u + x[hi..]) && y == x[..lo] + (v + x[hi..]);
    var r := Absorb(ONES, x[..lo]);
    AbsorbAppend(ONES, x[..lo], u + x[hi..]);
    AbsorbAppend(ONES, x[..lo], v + x[hi..]);
    AbsorbAppend(r, u, x[hi..]);
    AbsorbAppend(r, v, x[hi..]);
    AbsorbInjective(Absorb(r, u), Absorb(r, v), x[hi..]);
    AbsorbWords(r, r, u, v);
    assert u == v;
  }
}
