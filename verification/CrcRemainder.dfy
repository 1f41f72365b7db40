/** What the checksum is: the remainder of the data, as a polynomial over the
    field of two elements, by the generator of CRC-32 (section 8 of RFC 1952). */
module CrcRemainder {
  import opened Bytes
  import opened Crc32

  /** The exponents of the generator. */
  const EXPONENTS: set<nat> := {32, 26, 23, 22, 16, 12, 11, 10, 8, 7, 5, 4, 2, 1, 0}

  // Polynomials are sequences of coefficients, the highest power first.

  function Zeros(n: nat): (z: seq<bool>)
    ensures |z| == n && forall i :: 0 <= i < n ==> !z[i]
  {
    seq(n, _ => false)
  }

  /** The generator, from its exponents. */
  function Generator(): (g: seq<bool>)
    ensures |g| == WIDTH + 1 && forall i :: 0 <= i <= WIDTH ==> (g[i] <==> WIDTH - i in EXPONENTS)
  {
    seq(WIDTH + 1, i requires 0 <= i <= WIDTH => WIDTH - i in EXPONENTS)
  }

  /** The product of a polynomial with the generator. */
  function Times(q: seq<bool>): (p: seq<bool>)
    ensures |p| == |q| + WIDTH
    decreases |q|
  {
    if q == [] then Zeros(WIDTH)
    else
      var n := |q| - 1;
      var more := if q[n] then Generator() else Zeros(WIDTH + 1);
      Xor(Times(q[..n]) + [false], Zeros(n) + more)
  }

  /** Start value and bits, with room for the remainder. */
  function Dividend(start: Register, bits: seq<bool>): (p: seq<bool>)
    ensures |p| == |bits| + WIDTH
  {
    Xor(start + Zeros(|bits|), bits + Zeros(WIDTH))
  }

  ghost predicate IsDivision(p: seq<bool>, q: seq<bool>, r: Register) {
    |p| == |q| + WIDTH && p == Xor(Times(q), Zeros(|q|) + r)
  }

  lemma PolynomialBits()
    ensures [true] + POLYNOMIAL == Generator()
  {
    hide Bits;
    var p := POLYNOMIAL;
    Hex(0xEDB88320, 32);
    Hex(0xEDB8832, 28);
    Hex(0xEDB883, 24);
    Hex(0xEDB88, 20);
    Hex(0xEDB8, 16);
    Hex(0xEDB, 12);
    Hex(0xED, 8);
    Hex(0xE, 4);
    Nibbles();
    forall i | 0 <= i <= WIDTH ensures ([true] + p)[i] == Generator()[i] {
    }
  }

  /** Four bits at a time. */
  lemma Hex(x: nat, n: nat)
    requires n >= 4
    ensures Bits(x, n) == Bits(x % 16, 4) + Bits(x / 16, n - 4)
  {
    hide Bits;
    forall i | 0 <= i < n ensures Bits(x, n)[i] == (Bits(x % 16, 4) + Bits(x / 16, n - 4))[i] {
      if i < 4 {
        LowBits(x, n, i);
      } else {
        DropFourBits(x, n, i - 4);
      }
    }
  }

  lemma {:induction false} LowBits(x: nat, n: nat, i: nat)
    requires i < 4 <= n
    ensures Bits(x, n)[i] == Bits(x % 16, 4)[i]
  {
    hide Bits;
    BitsAreBits(x, n, i);
    BitsAreBits(x % 16, 4, i);
    LowDigits(x, i);
  }

  lemma LowDigits(x: nat, i: nat)
    requires i < 4
    ensures BitOf(x, i) <==> BitOf(x % 16, i)
  {
    var q, y := x / 16, x % 16;
    assert x / 2 == 8 * q + y / 2;
    assert x / 2 / 2 == 4 * q + y / 2 / 2;
    assert x / 2 / 2 / 2 == 2 * q + y / 2 / 2 / 2;
    hide BitOf;
    Digits(x);
    Digits(y);
  }

  lemma Digits(x: nat)
    ensures BitOf(x, 0) == (x % 2 == 1) && BitOf(x, 1) == (x / 2 % 2 == 1)
    ensures BitOf(x, 2) == (x / 2 / 2 % 2 == 1) && BitOf(x, 3) == (x / 2 / 2 / 2 % 2 == 1)
  {
    assert BitOf(x / 2, 1) == BitOf(x / 2 / 2, 0);
    assert BitOf(x / 2, 2) == BitOf(x / 2 / 2, 1) == BitOf(x / 2 / 2 / 2, 0);
  }

  lemma Nibbles()
    ensures Bits(0, 4) == [false, false, false, false] && Bits(2, 4) == [false, true, false, false]
    ensures Bits(3, 4) == [true, true, false, false] && Bits(8, 4) == [false, false, false, true]
    ensures Bits(0xB, 4) == [true, true, false, true] && Bits(0xD, 4) == [true, false, true, true]
    ensures Bits(0xE, 4) == [false, true, true, true] && forall x :: Bits(x, 0) == []
  {
  }

  /** The register is the remainder. */
  lemma {:induction false} AbsorbDivides(start: Register, bits: seq<bool>) returns (q: seq<bool>)
    ensures |q| == |bits| && IsDivision(Dividend(start, bits), q, Absorb(start, bits))
    decreases |bits|
  {
    if bits == [] {
      q := [];
      assert Dividend(start, bits) == start == Xor(Times(q), Zeros(0) + start);
    } else {
      var n := |bits| - 1;
      var before := AbsorbDivides(start, bits[..n]);
      var r := Absorb(start, bits[..n]);
      AbsorbAppend(start, bits[..n], [bits[n]]);
      assert bits == bits[..n] + [bits[n]];
      assert Absorb(r, [bits[n]]) == AbsorbBit(r, bits[n]) by {
        assert Absorb(AbsorbBit(r, bits[n]), [bits[n]][1..]) == AbsorbBit(r, bits[n]);
      }
      var top := r[0] != bits[n];
      q := before + [top];
      DivisionStep(start, bits, before, r, top);
    }
  }

  lemma DivisionStep(start: Register, bits: seq<bool>, before: seq<bool>, r: Register, top: bool)
    requires bits != [] && |before| == |bits| - 1 && top == (r[0] != bits[|bits| - 1])
    requires IsDivision(Dividend(start, bits[..|bits| - 1]), before, r)
    ensures IsDivision(Dividend(start, bits), before + [top], AbsorbBit(r, bits[|bits| - 1]))
  {
    hide Times, Bits, Dividend, AbsorbBit;
    var n := |before|;
    var q, next := before + [top], AbsorbBit(r, bits[n]);
    forall i | 0 <= i < n + 1 + WIDTH ensures Dividend(start, bits)[i] == Xor(Times(q), Zeros(n + 1) + next)[i] {
      DivisionAt(start, bits, before, r, top, i);
      assert (Zeros(n + 1) + next)[i] == (i >= n + 1 && next[i - n - 1]);
    }
  }

  lemma DivisionAt(start: Register, bits: seq<bool>, before: seq<bool>, r: Register, top: bool, i: nat)
    requires bits != [] && |before| == |bits| - 1 && top == (r[0] != bits[|bits| - 1])
    requires IsDivision(Dividend(start, bits[..|bits| - 1]), before, r) && i < |bits| + WIDTH
    ensures Dividend(start, bits)[i] ==
            (Times(before + [top])[i] != (i >= |bits| && AbsorbBit(r, bits[|bits| - 1])[i - |bits|]))
  {
    hide Times, Bits, Dividend, AbsorbBit, Generator, Xor, Shift, IsDivision, Zeros;
    var n := |before|;
    DividendSnoc(start, bits, i);
    TimesSnoc(before, top, i);
    if i < n + WIDTH {
      ShorterAt(start, bits, before, r, i);
    }
    if i == n {
      GeneratorTop();
      assert r[i - n] == r[0];
    } else if i > n {
      StepBit(r, bits[n], i - n - 1);
    }
  }

  lemma ShorterAt(start: Register, bits: seq<bool>, before: seq<bool>, r: Register, i: nat)
    requires bits != [] && |before| == |bits| - 1 && i < |before| + WIDTH
    requires IsDivision(Dividend(start, bits[..|bits| - 1]), before, r)
    ensures Dividend(start, bits[..|bits| - 1])[i] == (Times(before)[i] != (i >= |before| && r[i - |before|]))
  {
    hide Times, Bits, Dividend, Xor;
    var n := |before|;
    assert (Zeros(n) + r)[i] == (i >= n && r[i - n]);
  }

  lemma GeneratorTop()
    ensures Generator()[0]
  {
  }

  lemma DividendSnoc(start: Register, bits: seq<bool>, i: nat)
    requires bits != [] && i < |bits| + WIDTH
    ensures var n := |bits| - 1;
            Dividend(start, bits)[i] ==
            ((i < n + WIDTH && Dividend(start, bits[..n])[i]) != (i == n && bits[n]))
  {
    hide Bits;
    var n := |bits| - 1;
    assert Dividend(start, bits)[i] == ((start + Zeros(n + 1))[i] != (bits + Zeros(WIDTH))[i]);
    if i < n + WIDTH {
      assert Dividend(start, bits[..n])[i] == ((start + Zeros(n))[i] != (bits[..n] + Zeros(WIDTH))[i]);
    }
  }

  lemma TimesSnoc(q: seq<bool>, b: bool, i: nat)
    requires i < |q| + 1 + WIDTH
    ensures Times(q + [b])[i] == ((i < |q| + WIDTH && Times(q)[i]) != (i >= |q| && b && Generator()[i - |q|]))
  {
    assert (q + [b])[..|q|] == q;
  }

  lemma StepBit(r: Register, bit: bool, i: nat)
    requires i < WIDTH
    ensures AbsorbBit(r, bit)[i] == ((i + 1 < WIDTH && r[i + 1]) != ((r[0] != bit) && Generator()[i + 1]))
  {
    PolynomialBits();
    assert POLYNOMIAL[i] == ([true] + POLYNOMIAL)[i + 1];
  }

  // ---------- There is only one remainder ----------

  /** The leading coefficients of a product tell the factor. */
  lemma {:induction false} FactorIsUnique(a: seq<bool>, b: seq<bool>)
    requires |a| == |b| && forall i :: 0 <= i < |a| ==> Times(a)[i] == Times(b)[i]
    ensures a == b
    decreases |a|
  {
    if a != [] {
      var n := |a| - 1;
      assert a == a[..n] + [a[n]] && b == b[..n] + [b[n]];
      forall i | 0 <= i < |a|
        ensures Times(a)[i] == ((i < n + WIDTH && Times(a[..n])[i]) != (i == n && a[n]))
        ensures Times(b)[i] == ((i < n + WIDTH && Times(b[..n])[i]) != (i == n && b[n]))
      {
        TimesSnoc(a[..n], a[n], i);
        TimesSnoc(b[..n], b[n], i);
      }
      hide Times;
      FactorIsUnique(a[..n], b[..n]);
      assert Times(a)[n] == Times(b)[n];
    }
  }

  lemma DivisionIsUnique(p: seq<bool>, q: seq<bool>, r: Register, q': seq<bool>, r': Register)
    requires IsDivision(p, q, r) && IsDivision(p, q', r')
    ensures q == q' && r == r'
  {
    hide Times;
    forall i | 0 <= i < |q| ensures Times(q)[i] == Times(q')[i] {
      assert p[i] == (Times(q)[i] != (Zeros(|q|) + r)[i]);
      assert p[i] == (Times(q')[i] != (Zeros(|q'|) + r')[i]);
    }
    FactorIsUnique(q, q');
    forall i | 0 <= i < WIDTH ensures r[i] == r'[i] {
      assert p[|q| + i] == (Times(q)[|q| + i] != (Zeros(|q|) + r)[|q| + i]);
      assert p[|q| + i] == (Times(q)[|q| + i] != (Zeros(|q|) + r')[|q| + i]);
    }
  }

  // ---------- The checksum ----------

  /** Binary digit `i`. */
  predicate BitOf(x: nat, i: nat) {
    if i == 0 then x % 2 == 1 else BitOf(x / 2, i - 1)
  }

  /** The data as the checksum takes it: each byte from its lowest bit on. */
  function Message(data: seq<byte>): (bits: seq<bool>) {
    seq(8 * |data|, k requires 0 <= k < 8 * |data| => BitOf(data[k / 8], k % 8))
  }

  lemma {:induction false} BitsAreBits(x: nat, n: nat, i: nat)
    requires i < n
    ensures Bits(x, n)[i] <==> BitOf(x, i)
    decreases n
  {
    if i > 0 {
      BitsAreBits(x / 2, n - 1, i - 1);
    }
  }

  lemma {:induction false} DataBitAt(data: seq<byte>, k: nat)
    requires k < 8 * |data|
    ensures DataBits(data)[k] == BitOf(data[k / 8], k % 8)
  {
    hide Bits, BitOf;
    if k < 8 {
      BitsAreBits(data[0], 8, k);
    } else {
      DataBitAt(data[1..], k - 8);
      assert data[1..][(k - 8) / 8] == data[k / 8];
    }
  }

  lemma MessageIsData(data: seq<byte>)
    ensures Message(data) == DataBits(data)
  {
    hide DataBits, BitOf;
    forall k | 0 <= k < 8 * |data| ensures Message(data)[k] == DataBits(data)[k] {
      DataBitAt(data, k);
    }
  }

  lemma {:induction false} NumberBits(bits: seq<bool>, i: nat)
    requires i < |bits|
    ensures BitOf(Number(bits), i) <==> bits[i]
  {
    NumberHalves(bits);
    hide Number;
    if i > 0 {
      NumberBits(bits[1..], i - 1);
    }
  }

  lemma NumberHalves(bits: seq<bool>)
    requires bits != []
    ensures (Number(bits) % 2 == 1) == bits[0] && Number(bits) / 2 == Number(bits[1..])
  {
    hide Pow2;
    var low, rest := if bits[0] then 1 else 0, Number(bits[1..]);
    assert Number(bits) == low + 2 * rest;
    hide Number;
    Halves(low, rest);
  }

  lemma Halves(low: nat, rest: nat)
    requires low < 2
    ensures (low + 2 * rest) % 2 == low && (low + 2 * rest) / 2 == rest
  {
  }

  lemma AllOnes()
    ensures forall i :: 0 <= i < WIDTH ==> ONES[i]
  {
    hide Bits;
    Hex(0xFFFFFFFF, 32);
    Hex(0xFFFFFFF, 28);
    Hex(0xFFFFFF, 24);
    Hex(0xFFFFF, 20);
    Hex(0xFFFF, 16);
    Hex(0xFFF, 12);
    Hex(0xFF, 8);
    Hex(0xF, 4);
    FifteenInBinary();
  }

  lemma FifteenInBinary()
    ensures Bits(15, 4) == [true, true, true, true] && Bits(0, 0) == []
  {
  }

  function Ones(): (r: Register)
    ensures forall i :: 0 <= i < WIDTH ==> r[i]
  {
    seq(WIDTH, _ => true)
  }

  /** The bits of the checksum are the complement of the remainder that dividing
      the data by the generator leaves, started with all ones. */
  lemma ChecksumIsRemainder(data: seq<byte>, r: Register)
    ensures (exists q :: IsDivision(Dividend(Ones(), Message(data)), q, r)) <==>
            (forall i :: 0 <= i < WIDTH ==> (BitOf(Checksum(data), i) <==> !r[i]))
  {
    hide Absorb, BitOf, Times, Bits;
    AllOnes();
    assert ONES == Ones();
    MessageIsData(data);
    var register := Absorb(ONES, DataBits(data));
    var q := AbsorbDivides(ONES, DataBits(data));
    var complement := Xor(register, ONES);
    forall i | 0 <= i < WIDTH ensures BitOf(Checksum(data), i) <==> !register[i] {
      NumberBits(complement, i);
    }
    hide Checksum;
    if exists q' :: IsDivision(Dividend(Ones(), Message(data)), q', r) {
      var q' :| IsDivision(Dividend(Ones(), Message(data)), q', r);
      DivisionIsUnique(Dividend(Ones(), Message(data)), q, register, q', r);
    }
    if forall i :: 0 <= i < WIDTH ==> (BitOf(Checksum(data), i) <==> !r[i]) {
      assert forall i :: 0 <= i < WIDTH ==> r[i] == register[i];
      assert r == register;
    }
  }
}
