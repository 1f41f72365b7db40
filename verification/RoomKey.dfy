/** The text form of room keys (internal/crypto/pin.go:14-78): base16 as in
    section 8 of RFC 4648, in groups of eight digits. Text is bytes, as in Go. */
module RoomKey {
  import opened Bytes

  const ROOM_KEY_BYTES: nat := 16
  const GROUP_SIZE: nat := 8
  const DASH: byte := 45

  type Text = seq<byte>

  datatype Error = BadLength(got: nat) | BadDigit(c: byte)
  datatype Result = Ok(raw: seq<byte>) | Err(error: Error)

  // ---------- Digits ----------

  function HexDigit(c: byte): (r: Option<nat>)
    ensures r.Some? ==> r.value < 16
  {
    if 48 <= c <= 57 then Some(c - 48)
    else if 65 <= c <= 70 then Some(c - 65 + 10)
    else if 97 <= c <= 102 then Some(c - 97 + 10)
    else None
  }

  /** The digits, in both cases, and their values. */
  lemma DigitsExactly(c: byte, v: nat)
    ensures HexDigit(c) == Some(v) <==>
            v < 16 && (c == "0123456789ABCDEF"[v] as int || c == "0123456789abcdef"[v] as int)
  {
  }

  predicate AllHex(s: Text) {
    forall i :: 0 <= i < |s| ==> HexDigit(s[i]).Some?
  }

  /** The upper-case digit for a value. */
  function Digit(n: nat): byte
    requires n < 16
  {
    if n < 10 then 48 + n else 65 + n - 10
  }

  function FoldCase(c: byte): byte { if 97 <= c <= 102 then c - 32 else c }

  function Fold(s: Text): (r: Text)
    ensures |r| == |s| && forall i :: 0 <= i < |s| ==> r[i] == FoldCase(s[i])
  {
    if s == [] then [] else [FoldCase(s[0])] + Fold(s[1..])
  }

  function Hex(raw: seq<byte>): (s: Text)
    ensures |s| == 2 * |raw|
    ensures forall i :: 0 <= i < |raw| ==> s[2 * i] == Digit(raw[i] / 16) && s[2 * i + 1] == Digit(raw[i] % 16)
  {
    if raw == [] then []
    else
      var b: nat := raw[0];
      [Digit(b / 16), Digit(b % 16)] + Hex(raw[1..])
  }

  function Unhex(s: Text): (raw: seq<byte>)
    requires |s| % 2 == 0 && AllHex(s)
    ensures |raw| == |s| / 2
    ensures forall i :: 0 <= i < |raw| ==> raw[i] == HexDigit(s[2 * i]).value * 16 + HexDigit(s[2 * i + 1]).value
  {
    if s == [] then []
    else
      assert HexDigit(s[0]).Some? && HexDigit(s[1]).Some?;
      [HexDigit(s[0]).value * 16 + HexDigit(s[1]).value] + Unhex(s[2..])
  }

  lemma DigitValue(n: nat)
    requires n < 16
    ensures HexDigit(Digit(n)) == Some(n) && Digit(n) != DASH
  {
  }

  lemma DigitOfValue(c: byte)
    requires HexDigit(c).Some?
    ensures Digit(HexDigit(c).value) == FoldCase(c)
    ensures c != DASH
  {
  }

  lemma HexIsHex(raw: seq<byte>)
    ensures AllHex(Hex(raw)) && DASH !in Hex(raw)
  {
    var s := Hex(raw);
    forall k | 0 <= k < |s| ensures HexDigit(s[k]).Some? && s[k] != DASH {
      var b: nat := raw[k / 2];
      assert s[2 * (k / 2)] == Digit(b / 16) && s[2 * (k / 2) + 1] == Digit(b % 16);
      DigitValue(b / 16);
      DigitValue(b % 16);
    }
  }

  lemma UnhexHex(raw: seq<byte>)
    ensures AllHex(Hex(raw)) && Unhex(Hex(raw)) == raw
  {
    HexIsHex(raw);
    var s := Hex(raw);
    forall i | 0 <= i < |raw| ensures Unhex(s)[i] == raw[i] {
      var b: nat := raw[i];
      DigitValue(b / 16);
      DigitValue(b % 16);
      assert s[2 * i] == Digit(b / 16) && s[2 * i + 1] == Digit(b % 16);
    }
  }

  lemma HalvesOf(hi: nat, lo: nat)
    requires lo < 16
    ensures (hi * 16 + lo) / 16 == hi && (hi * 16 + lo) % 16 == lo
  {
  }

  lemma HexUnhexAt(s: Text, i: nat)
    requires |s| % 2 == 0 && AllHex(s) && 2 * i < |s|
    ensures Hex(Unhex(s))[2 * i] == FoldCase(s[2 * i])
    ensures Hex(Unhex(s))[2 * i + 1] == FoldCase(s[2 * i + 1])
  {
    hide FoldCase, HexDigit, Digit;
    var raw := Unhex(s);
    assert HexDigit(s[2 * i]).Some? && HexDigit(s[2 * i + 1]).Some?;
    var hi, lo := HexDigit(s[2 * i]).value, HexDigit(s[2 * i + 1]).value;
    var b: nat := raw[i];
    HalvesOf(hi, lo);
    assert b / 16 == hi && b % 16 == lo;
    DigitOfValue(s[2 * i]);
    DigitOfValue(s[2 * i + 1]);
  }

  /** Formatting what was parsed gives the digits back, in upper case. */
  lemma HexUnhex(s: Text)
    requires |s| % 2 == 0 && AllHex(s)
    ensures Hex(Unhex(s)) == Fold(s)
  {
    hide FoldCase, HexDigit, Digit, Hex, Unhex, Fold, AllHex;
    forall k | 0 <= k < |s| ensures Hex(Unhex(s))[k] == Fold(s)[k] {
      HexUnhexAt(s, k / 2);
      assert k == 2 * (k / 2) || k == 2 * (k / 2) + 1;
    }
  }

  // ---------- Groups and dashes ----------

  /** The digits in groups of eight, a dash between two groups. */
  function Dashed(hex: Text): Text {
    if |hex| <= GROUP_SIZE then hex else hex[..GROUP_SIZE] + [DASH] + Dashed(hex[GROUP_SIZE..])
  }

  function Formatted(raw: seq<byte>): Text { Dashed(Hex(raw)) }

  /** The formatted text, place by place: after every eight digits a dash, and
      the digits those of the bytes, high half first, in upper case. */
  lemma FormattedAt(raw: seq<byte>, i: nat)
    requires raw != []
    ensures |Formatted(raw)| == 2 * |raw| + (2 * |raw| - 1) / 8
    ensures i < |Formatted(raw)| ==>
              if i % 9 == 8 then Formatted(raw)[i] == 45
              else
                var k := i - i / 9;
                && k / 2 < |raw|
                && Formatted(raw)[i] == UpperHex(if k % 2 == 0 then raw[k / 2] / 16 else raw[k / 2] % 16)
  {
    hide Dashed, Hex, Digit, UpperHex;
    DashedAt(Hex(raw), i);
    if i < |Formatted(raw)| && i % 9 != 8 {
      HexAt(raw, i - i / 9);
    }
  }

  lemma HexAt(raw: seq<byte>, k: nat)
    requires k < 2 * |raw|
    ensures Hex(raw)[k] == UpperHex(if k % 2 == 0 then raw[k / 2] / 16 else raw[k / 2] % 16)
  {
    var b := raw[k / 2];
    assert Hex(raw)[2 * (k / 2)] == Digit(b / 16) && Hex(raw)[2 * (k / 2) + 1] == Digit(b % 16);
    UpperHexIsDigit(b / 16);
    UpperHexIsDigit(b % 16);
    hide Hex, UpperHex, Digit;
    assert k == 2 * (k / 2) || k == 2 * (k / 2) + 1;
  }

  lemma UpperHexIsDigit(n: nat)
    requires n < 16
    ensures UpperHex(n) == Digit(n)
  {
  }

  function UpperHex(n: nat): byte
    requires n < 16
  {
    "0123456789ABCDEF"[n] as int
  }

  lemma {:induction false} DashedAt(hex: Text, i: nat)
    requires hex != []
    ensures |Dashed(hex)| == |hex| + (|hex| - 1) / 8
    ensures i < |Dashed(hex)| ==>
              if i % 9 == 8 then Dashed(hex)[i] == 45
              else i - i / 9 < |hex| && Dashed(hex)[i] == hex[i - i / 9]
    decreases |hex|
  {
    if |hex| > 8 {
      var rest := hex[8..];
      DashedAt(rest, if i < 9 then 0 else i - 9);
      assert Dashed(hex) == hex[..8] + [DASH] + Dashed(rest);
      if i >= 9 {
        assert i / 9 == (i - 9) / 9 + 1 && i % 9 == (i - 9) % 9;
      }
    }
  }

  function Strip(key: Text): (clean: Text)
    ensures DASH !in clean && |clean| <= |key|
  {
    if key == [] then []
    else Kept(key[0]) + Strip(key[1..])
  }

  function Kept(c: byte): Text { if c == DASH then [] else [c] }

  lemma StripCons(c: byte, s: Text)
    ensures Strip([c] + s) == Kept(c) + Strip(s)
  {
    assert ([c] + s)[1..] == s;
  }

  lemma SplitFirst(a: Text, b: Text)
    requires a != []
    ensures a == [a[0]] + a[1..] && a + b == [a[0]] + (a[1..] + b)
  {
  }

  lemma Associates(a: Text, b: Text, c: Text)
    ensures (a + b) + c == a + (b + c)
  {
  }

  lemma {:induction false} StripAppend(a: Text, b: Text)
    ensures Strip(a + b) == Strip(a) + Strip(b)
  {
    if a == [] {
      assert a + b == b;
    } else {
      hide Strip, Kept;
      var c, rest := a[0], a[1..];
      SplitFirst(a, b);
      StripAppend(rest, b);
      StripCons(c, rest);
      StripCons(c, rest + b);
      Associates(Kept(c), Strip(rest), Strip(b));
    }
  }

  lemma {:induction false} StripPlain(s: Text)
    requires DASH !in s
    ensures Strip(s) == s
  {
    if s != [] {
      assert s[0] != DASH && DASH !in s[1..];
      StripPlain(s[1..]);
    }
  }

  lemma {:induction false} StripDashed(hex: Text)
    requires DASH !in hex
    ensures Strip(Dashed(hex)) == hex
    decreases |hex|
  {
    if |hex| <= GROUP_SIZE {
      StripPlain(hex);
    } else {
      var first, rest := hex[..GROUP_SIZE], hex[GROUP_SIZE..];
      StripDashed(rest);
      StripPlain(first);
      StripAppend(first + [DASH], Dashed(rest));
      StripAppend(first, [DASH]);
      assert Strip([DASH]) == [];
      assert hex == first + rest;
    }
  }

  // ---------- Parsing ----------

  /** The first bad byte of the text, if any, is what parsing complains about. */
  function FirstBad(s: Text): (r: Option<byte>)
    ensures r.None? <==> AllHex(s)
  {
    if s == [] then None
    else if HexDigit(s[0]).None? then Some(s[0])
    else
      assert AllHex(s[1..]) ==> AllHex(s) by {
        assert forall i :: 0 < i < |s| ==> s[i] == s[1..][i - 1];
      }
      FirstBad(s[1..])
  }

  function Parsed(key: Text): Result {
    var clean := Strip(key);
    if |clean| != 2 * ROOM_KEY_BYTES then Err(BadLength(|clean|))
    else if AllHex(clean) then Ok(Unhex(clean))
    else Err(BadDigit(FirstBad(clean).value))
  }

  /** Every byte of the text is a dash or a hexadecimal digit. */
  predicate DashesAndDigits(key: Text) {
    forall i :: 0 <= i < |key| ==> key[i] == DASH || HexDigit(key[i]).Some?
  }

  lemma AllHexCons(c: byte, t: Text)
    ensures AllHex([c] + t) <==> HexDigit(c).Some? && AllHex(t)
  {
    hide HexDigit;
    var s := [c] + t;
    if AllHex(s) {
      assert HexDigit(s[0]).Some?;
      forall i | 0 <= i < |t| ensures HexDigit(t[i]).Some? {
        assert s[i + 1] == t[i];
      }
    }
  }

  lemma {:induction false} StripCounts(key: Text)
    ensures |Strip(key)| == |key| - multiset(key)[DASH]
    ensures AllHex(Strip(key)) <==> DashesAndDigits(key)
  {
    hide HexDigit;
    if key != [] {
      var rest := key[1..];
      StripCounts(rest);
      assert key == [key[0]] + rest && multiset(key) == multiset{key[0]} + multiset(rest);
      assert DashesAndDigits(key) <==> (key[0] == DASH || HexDigit(key[0]).Some?) && DashesAndDigits(rest);
      if key[0] != DASH {
        AllHexCons(key[0], Strip(rest));
      } else {
        assert [] + Strip(rest) == Strip(rest);
      }
    }
  }

  /** A key parses exactly when it consists of dashes, anywhere, and of 32
      hexadecimal digits; and then to 16 bytes. */
  lemma ParsesExactly(key: Text)
    ensures Parsed(key).Ok? <==> DashesAndDigits(key) && |key| - multiset(key)[DASH] == 32
    ensures Parsed(key).Ok? ==> |Parsed(key).raw| == 16
  {
    hide HexDigit;
    StripCounts(key);
    if |Strip(key)| == 32 && AllHex(Strip(key)) {
      assert |Unhex(Strip(key))| == 16;
    }
  }

  /** Parsing inverts formatting exactly on keys of 16 bytes. */
  lemma ParseFormatted(raw: seq<byte>)
    ensures Parsed(Formatted(raw)) == Ok(raw) <==> |raw| == 16
  {
    HexIsHex(raw);
    StripDashed(Hex(raw));
    UnhexHex(raw);
  }

  /** Two accepted texts mean the same key exactly when they differ in dashes
      and case only. */
  lemma SameKeyExactly(a: Text, b: Text)
    requires Parsed(a).Ok? && Parsed(b).Ok?
    ensures Parsed(a).raw == Parsed(b).raw <==> Fold(Strip(a)) == Fold(Strip(b))
  {
    hide Hex, Unhex, Fold, Strip, AllHex, HexDigit;
    var s, t := Strip(a), Strip(b);
    HexUnhex(s);
    HexUnhex(t);
    if Fold(s) == Fold(t) {
      UnhexHex(Unhex(s));
      UnhexHex(Unhex(t));
    }
  }

  /** Formatting a parsed key is the canonical form of its text. */
  lemma FormatParsed(key: Text)
    requires Parsed(key).Ok?
    ensures Formatted(Parsed(key).raw) == Dashed(Fold(Strip(key)))
    ensures Parsed(Formatted(Parsed(key).raw)) == Parsed(key)
  {
    HexUnhex(Strip(key));
    ParsesExactly(key);
    ParseFormatted(Parsed(key).raw);
  }

  /** What the digits of a text mean, and what is wrong with a bad one. */
  lemma ParsedDigits(key: Text)
    ensures Parsed(key).Ok? ==> Hex(Parsed(key).raw) == Fold(Strip(key))
    ensures Parsed(key).Err? ==> Complaint(key, Parsed(key).error)
  {
    hide HexDigit;
    StripCounts(key);
    if Parsed(key).Ok? {
      HexUnhex(Strip(key));
    } else if Parsed(key).error.BadDigit? {
      var _ := FirstBadInKey(key);
    }
  }

  /** What is wrong with a text: how many bytes it has that are no dashes, if
      not 32, and otherwise the first that is neither a dash nor a digit. */
  ghost predicate Complaint(key: Text, e: Error) {
    match e
    case BadLength(got) => got == |key| - multiset(key)[DASH] && got != 32
    case BadDigit(c) => |key| - multiset(key)[DASH] == 32 && exists i :: FirstBadIs(key, c, i)
  }

  predicate FirstBadIs(key: Text, c: byte, i: nat) {
    i < |key| && key[i] == c && c != DASH && HexDigit(c).None? && DashesAndDigits(key[..i])
  }

  lemma {:induction false} FirstBadInKey(key: Text) returns (i: nat)
    requires FirstBad(Strip(key)).Some?
    ensures FirstBadIs(key, FirstBad(Strip(key)).value, i)
  {
    hide HexDigit;
    var rest := key[1..];
    if key[0] != DASH && HexDigit(key[0]).None? {
      i := 0;
    } else {
      StripCons(key[0], rest);
      assert [key[0]] + rest == key;
      if key[0] == DASH {
        assert [] + Strip(rest) == Strip(rest);
      } else {
        assert Strip(key)[1..] == Strip(rest);
      }
      i := FirstBadInKey(rest);
      i := i + 1;
    }
    assert i > 0 ==> forall k :: 0 < k < i ==> key[..i][k] == rest[..i - 1][k - 1];
  }

  // ---------- The loops ----------

  function Join(groups: seq<Text>): Text {
    if groups == [] then []
    else if |groups| == 1 then groups[0]
    else groups[0] + [DASH] + Join(groups[1..])
  }

  /** The groups the loop has cut off, joined with the form of what is left. */
  lemma {:induction false} JoinRest(groups: seq<Text>, hex: Text)
    requires |hex| > GROUP_SIZE
    ensures Join(groups + [Dashed(hex)]) == Join(groups + [hex[..GROUP_SIZE]] + [Dashed(hex[GROUP_SIZE..])])
    decreases |groups|
  {
    var first, rest := hex[..GROUP_SIZE], Dashed(hex[GROUP_SIZE..]);
    if groups == [] {
      assert groups + [Dashed(hex)] == [Dashed(hex)];
      var two := groups + [first] + [rest];
      assert two == [first, rest] && two[1..] == [rest];
    } else {
      JoinRest(groups[1..], hex);
      var a, b := groups + [Dashed(hex)], groups + [first] + [rest];
      assert a[1..] == groups[1..] + [Dashed(hex)];
      assert b[1..] == groups[1..] + [first] + [rest];
      assert a[0] == b[0];
    }
  }

  method FormatRoomKey(raw: seq<byte>) returns (text: Text)
    ensures text == Formatted(raw)
  {
    var hex := Hex(raw);
    var groups: seq<Text> := [];
    var i := 0;
    assert hex[0..] == hex && groups + [Dashed(hex)] == [Dashed(hex)];
    while i < |hex|
      invariant 0 <= i && i % GROUP_SIZE == 0
      invariant i < |hex| ==> Join(groups + [Dashed(hex[i..])]) == Formatted(raw)
      invariant i >= |hex| ==> (if hex == [] then groups == [] else Join(groups) == Formatted(raw))
    {
      var end := i + GROUP_SIZE;
      if end > |hex| {
        end := |hex|;
      }
      if i + GROUP_SIZE < |hex| {
        JoinRest(groups, hex[i..]);
        assert hex[i..][..GROUP_SIZE] == hex[i..end] && hex[i..][GROUP_SIZE..] == hex[end..];
      } else {
        assert hex[i..end] == hex[i..];
      }
      groups := groups + [hex[i..end]];
      i := i + GROUP_SIZE;
    }
    text := Join(groups);
  }

  lemma FirstBadAt(s: Text, i: nat)
    requires i < |s| && AllHex(s[..i]) && HexDigit(s[i]).None?
    ensures FirstBad(s) == Some(s[i])
  {
    if i > 0 {
      assert s[..i][0] == s[0];
      assert s[1..][..i - 1] == s[..i][1..];
      FirstBadAt(s[1..], i - 1);
    }
  }

  lemma AllHexSnoc(s: Text, i: nat)
    requires i < |s| && AllHex(s[..i]) && HexDigit(s[i]).Some?
    ensures AllHex(s[..i + 1])
  {
    assert s[..i + 1] == s[..i] + [s[i]];
  }

  /** `raw` is what the first bytes of the text stand for. */
  predicate DecodedSoFar(s: Text, raw: seq<byte>) {
    && 2 * |raw| <= |s| && AllHex(s[..2 * |raw|])
    && raw == Unhex(s[..2 * |raw|])
  }

  lemma DecodedSnoc(s: Text, raw: seq<byte>, hi: nat, lo: nat)
    requires DecodedSoFar(s, raw) && 2 * |raw| + 1 < |s|
    requires HexDigit(s[2 * |raw|]) == Some(hi) && HexDigit(s[2 * |raw| + 1]) == Some(lo)
    ensures DecodedSoFar(s, raw + [hi * 16 + lo])
  {
    hide HexDigit, Unhex;
    var i := 2 * |raw|;
    AllHexSnoc(s, i);
    AllHexSnoc(s, i + 1);
    var before, after := s[..i], s[..i + 2];
    forall k | 0 <= k <= |raw| ensures (raw + [hi * 16 + lo])[k] == Unhex(after)[k] {
      assert after[2 * k] == s[2 * k] && after[2 * k + 1] == s[2 * k + 1];
      if k < |raw| {
        assert before[2 * k] == s[2 * k] && before[2 * k + 1] == s[2 * k + 1];
      }
    }
    assert raw + [hi * 16 + lo] == Unhex(after);
  }

  lemma DecodedNone(s: Text)
    ensures DecodedSoFar(s, [])
  {
    assert s[..0] == [];
  }

  method ParseRoomKey(key: Text) returns (r: Result)
    ensures r == Parsed(key)
    ensures r.Ok? <==> DashesAndDigits(key) && |key| - multiset(key)[DASH] == 32
    ensures r.Ok? ==> |r.raw| == 16 && Hex(r.raw) == Fold(Strip(key))
    ensures r.Err? ==> Complaint(key, r.error)
  {
    ParsesExactly(key);
    ParsedDigits(key);
    hide DashesAndDigits, Hex, Fold, Complaint;
    hide HexDigit, Strip, FirstBad, Unhex, AllHex;
    var clean := Strip(key);
    if |clean| != ROOM_KEY_BYTES * 2 {
      return Err(BadLength(|clean|));
    }
    var raw: seq<byte> := [];
    var i := 0;
    DecodedNone(clean);
    while i < |clean|
      invariant 0 <= i <= |clean| && i == 2 * |raw|
      invariant DecodedSoFar(clean, raw)
    {
      var hi := HexDigit(clean[i]);
      if hi.None? {
        FirstBadAt(clean, i);
        return Err(BadDigit(clean[i]));
      }
      AllHexSnoc(clean, i);
      var lo := HexDigit(clean[i + 1]);
      if lo.None? {
        FirstBadAt(clean, i + 1);
        return Err(BadDigit(clean[i + 1]));
      }
      DecodedSnoc(clean, raw, hi.value, lo.value);
      raw := raw + [hi.value * 16 + lo.value];
      i := i + 2;
    }
    assert clean[..i] == clean;
    return Ok(raw);
  }
}
