/**
 JSON strings in cJSON.cpp: the escapes that `print_string_ptr` writes, the escapes that
 `parse_string` reads, and the UTF-8 it produces for `\u` escapes and surrogate pairs.

 A text is a C string without its terminator: a `string` whose characters are bytes 1..255. A
 parser consumes a prefix of the text in front of it; the end of the text stands for the NUL.
 */
module JsonString {
  import BitOps

  datatype Parsed<T> = Failed | Parsed(value: T, rest: string)

  function Prepend(bytes: string, p: Parsed<string>): Parsed<string> {
    if p.Failed? then Failed else Parsed(bytes + p.value, p.rest)
  }

  predicate IsByte(c: char) { 0 < c as int < 256 }

  ghost predicate IsText(s: string) {
    forall i :: 0 <= i < |s| ==> IsByte(s[i])
  }

  function Byte(n: nat): (c: char)
    requires n < 256
    ensures c as int == n
  {
    n as char
  }

  // ----- Hexadecimal -----

  predicate IsHex(c: char) { '0' <= c <= '9' || 'A' <= c <= 'F' || 'a' <= c <= 'f' }

  function HexValue(c: char): (h: nat)
    requires IsHex(c)
    ensures h < 16
  {
    if c <= '9' then c as int - '0' as int
    else if c <= 'F' then 10 + c as int - 'A' as int
    else 10 + c as int - 'a' as int
  }

  const LOWER := "0123456789abcdef"
  const UPPER := "0123456789ABCDEF"

  function HexChar(h: nat): (c: char)
    requires h < 16
    ensures c == LOWER[h]
  {
    if h < 10 then Byte('0' as int + h) else Byte('a' as int + h - 10)
  }

  predicate AllHex(s: string) {
    |s| >= 4 && IsHex(s[0]) && IsHex(s[1]) && IsHex(s[2]) && IsHex(s[3])
  }

  // `parse_hex4`: 0 when one of the four characters is no hexadecimal digit.
  function Hex4(s: string): (h: nat)
    ensures h < 0x10000
  {
    if AllHex(s) then ((HexValue(s[0]) * 16 + HexValue(s[1])) * 16 + HexValue(s[2])) * 16 + HexValue(s[3])
    else 0
  }

  // `hex` spells `u` with four digits, highest first, each in lower or in upper case.
  predicate Spells(hex: string, u: nat) {
    && |hex| == 4 && u < 0x10000
    && IsDigitOf(hex[0], u / 0x1000) && IsDigitOf(hex[1], u / 0x100 % 16)
    && IsDigitOf(hex[2], u / 0x10 % 16) && IsDigitOf(hex[3], u % 16)
  }

  predicate IsDigitOf(c: char, h: nat) { h < 16 && (c == LOWER[h] || c == UPPER[h]) }

  lemma DigitIsRead(c: char, h: nat)
    requires h < 16
    ensures IsDigitOf(c, h) <==> IsHex(c) && HexValue(c) == h
  {
  }

  lemma NumberOfDigits(u: nat)
    requires u < 0x10000
    ensures ((u / 0x1000 * 16 + u / 0x100 % 16) * 16 + u / 0x10 % 16) * 16 + u % 16 == u
    ensures u / 0x1000 < 16
  {
    var v := u / 0x10;
    var w := v / 0x10;
    assert u / 0x100 == w && u / 0x1000 == w / 0x10;
  }

  lemma SpelledIsHex(hex: string, u: nat)
    requires Spells(hex, u)
    ensures AllHex(hex) && Hex4(hex) == u
  {
    NumberOfDigits(u);
    DigitIsRead(hex[0], u / 0x1000);
    DigitIsRead(hex[1], u / 0x100 % 16);
    DigitIsRead(hex[2], u / 0x10 % 16);
    DigitIsRead(hex[3], u % 16);
  }

  lemma DigitsSpell(hex: string, a: nat, b: nat, c: nat, d: nat, u: nat)
    requires |hex| == 4 && u == ((a * 16 + b) * 16 + c) * 16 + d
    requires IsDigitOf(hex[0], a) && IsDigitOf(hex[1], b) && IsDigitOf(hex[2], c) && IsDigitOf(hex[3], d)
    ensures Spells(hex, u)
  {
    DigitsOfSum(a, b, c, d);
  }

  lemma HexDigit(c: char) returns (h: nat)
    requires IsHex(c)
    ensures h == HexValue(c) && IsDigitOf(c, h)
  {
    h := HexValue(c);
    DigitIsRead(c, h);
  }

  lemma HexIsSpelled(hex: string)
    requires |hex| == 4 && AllHex(hex)
    ensures Spells(hex, Hex4(hex))
  {
    var a := HexDigit(hex[0]);
    var b := HexDigit(hex[1]);
    var c := HexDigit(hex[2]);
    var d := HexDigit(hex[3]);
    var u := Hex4(hex);
    assert u == ((a * 16 + b) * 16 + c) * 16 + d;
    DigitsSpell(hex, a, b, c, d, u);
  }

  // Four digits are read as the number that they spell.
  lemma SpellingIsRead(hex: string, u: nat)
    requires |hex| == 4
    ensures Spells(hex, u) <==> AllHex(hex) && Hex4(hex) == u
  {
    if Spells(hex, u) {
      SpelledIsHex(hex, u);
    }
    if AllHex(hex) {
      HexIsSpelled(hex);
    }
  }

  lemma DigitsOfSum(a: nat, b: nat, c: nat, d: nat)
    requires a < 16 && b < 16 && c < 16 && d < 16
    ensures var u := ((a * 16 + b) * 16 + c) * 16 + d;
            u / 0x1000 == a && u / 0x100 % 16 == b && u / 0x10 % 16 == c && u % 16 == d
  {
  }

  // ----- UTF-8 -----

  predicate IsHigh(u: nat) { 0xD800 <= u <= 0xDBFF }

  predicate IsLow(u: nat) { 0xDC00 <= u <= 0xDFFF }

  function Combine(high: nat, low: nat): (cp: nat)
    requires IsHigh(high) && IsLow(low)
    ensures 0x10000 <= cp < 0x110000
  {
    0x10000 + (high % 0x400) * 0x400 + low % 0x400
  }

  // The bytes are written from the last to the first, six bits each; the first one carries the
  // mark for the length.
  function Utf8(cp: nat): (bytes: string)
    requires cp < 0x110000
    ensures 1 <= |bytes| <= 4
  {
    if cp < 0x80 then [Byte(cp)]
    else if cp < 0x800 then [Byte(0xC0 + cp / 64), Tail(cp)]
    else if cp < 0x10000 then [Byte(0xE0 + cp / 64 / 64), Tail(cp / 64), Tail(cp)]
    else [Byte(0xF0 + cp / 64 / 64 / 64), Tail(cp / 64 / 64), Tail(cp / 64), Tail(cp)]
  }

  function Tail(cp: nat): (c: char)
    ensures c as int == 0x80 + cp % 64
  {
    Byte(0x80 + cp % 64)
  }

  // The well-formed byte sequences of section 4 of RFC 3629, and what they stand for.
  function CodePoint(s: string): (cp: int)
  {
    if |s| == 1 && s[0] as int < 0x80 then s[0] as int
    else if |s| == 2 && IsTail(s[1]) && 0xC2 <= s[0] as int <= 0xDF then
      (s[0] as int - 0xC0) * 64 + Low6(s[1])
    else if |s| == 3 && IsTail(s[1]) && IsTail(s[2]) && ThreeByteStart(s[0], s[1]) then
      ((s[0] as int - 0xE0) * 64 + Low6(s[1])) * 64 + Low6(s[2])
    else if |s| == 4 && IsTail(s[1]) && IsTail(s[2]) && IsTail(s[3]) && FourByteStart(s[0], s[1]) then
      (((s[0] as int - 0xF0) * 64 + Low6(s[1])) * 64 + Low6(s[2])) * 64 + Low6(s[3])
    else -1
  }

  predicate IsTail(c: char) { 0x80 <= c as int <= 0xBF }

  function Low6(c: char): int { c as int - 0x80 }

  predicate ThreeByteStart(a: char, b: char) {
    || (a as int == 0xE0 && b as int >= 0xA0)
    || (0xE1 <= a as int <= 0xEF && a as int != 0xED)
    || (a as int == 0xED && b as int <= 0x9F)
  }

  predicate FourByteStart(a: char, b: char) {
    || (a as int == 0xF0 && b as int >= 0x90)
    || 0xF1 <= a as int <= 0xF3
    || (a as int == 0xF4 && b as int <= 0x8F)
  }

  predicate IsScalar(cp: nat) { cp < 0x110000 && !IsHigh(cp) && !IsLow(cp) }

  // Every scalar value gets the one well-formed sequence that stands for it.
  lemma Utf8IsWellFormed(cp: nat)
    requires IsScalar(cp)
    ensures CodePoint(Utf8(cp)) == cp
  {
    SixBits(cp);
    SixBits(cp / 64);
    SixBits(cp / 64 / 64);
  }

  lemma SixBits(n: nat)
    ensures n / 64 * 64 + n % 64 == n
  {
  }

  lemma Utf8IsOnly(s: string)
    requires CodePoint(s) >= 0
    ensures IsScalar(CodePoint(s)) && Utf8(CodePoint(s)) == s
  {
    if |s| == 2 {
      SplitSix(s[0] as int - 0xC0, Low6(s[1]));
    } else if |s| == 3 {
      ThreeBytesAreOnly(s);
    } else if |s| == 4 {
      FourBytesAreOnly(s);
    }
  }

  lemma ThreeBytesAreOnly(s: string)
    requires |s| == 3 && CodePoint(s) >= 0
    ensures IsScalar(CodePoint(s)) && Utf8(CodePoint(s)) == s
  {
    SplitSix((s[0] as int - 0xE0) * 64 + Low6(s[1]), Low6(s[2]));
    SplitSix(s[0] as int - 0xE0, Low6(s[1]));
  }

  lemma FourBytesAreOnly(s: string)
    requires |s| == 4 && CodePoint(s) >= 0
    ensures IsScalar(CodePoint(s)) && Utf8(CodePoint(s)) == s
  {
    SplitSix(((s[0] as int - 0xF0) * 64 + Low6(s[1])) * 64 + Low6(s[2]), Low6(s[3]));
    SplitSix((s[0] as int - 0xF0) * 64 + Low6(s[1]), Low6(s[2]));
    SplitSix(s[0] as int - 0xF0, Low6(s[1]));
  }

  lemma SplitSix(high: nat, low: nat)
    requires low < 64
    ensures (high * 64 + low) / 64 == high && (high * 64 + low) % 64 == low
  {
  }

  // ----- Reading a string -----

  // What `s`, the text behind a backslash, stands for. A text that ends inside the escape is
  // outside this model: there the source reads beyond its end.
  function Escape(s: string): (r: Parsed<string>)
    ensures r.Parsed? ==> |r.rest| < |s| && |r.value| <= 4
  {
    if s == "" then Failed
    else if s[0] == 'u' then Unicode(s)
    else Parsed([Unescaped(s[0])], s[1..])
  }

  function Unescaped(c: char): char {
    match c
    case 'b' => '\U{08}'
    case 'f' => '\U{0C}'
    case 'n' => '\n'
    case 'r' => '\r'
    case 't' => '\t'
    case _ => c
  }

  // A zero, a lone surrogate, or four characters that are no number stand for nothing; so does a
  // high surrogate together with any `\u` escape behind it that is no low surrogate.
  function Unicode(s: string): (r: Parsed<string>)
    ensures r.Parsed? ==> |r.rest| + 5 <= |s| && |r.value| <= 4
  {
    if |s| < 5 then Failed
    else
      var uc := Hex4(s[1..5]);
      if IsLow(uc) || uc == 0 then Parsed("", s[5..])
      else if !IsHigh(uc) then Parsed(Utf8(uc), s[5..])
      else if !("\\u" <= s[5..]) then Parsed("", s[5..])
      else if |s| < 11 then Failed
      else
        var uc2 := Hex4(s[7..11]);
        if IsLow(uc2) then Parsed(Utf8(Combine(uc, uc2)), s[11..]) else Parsed("", s[11..])
  }

  // The string whose text, behind the opening quote, starts `s`. A missing closing quote passes.
  function Decode(s: string): (r: Parsed<string>)
    ensures r.Parsed? ==> |r.rest| <= |s|
    decreases |s|
  {
    if s == "" then Parsed("", "")
    else if s[0] == '"' then Parsed("", s[1..])
    else if s[0] != '\\' then Prepend([s[0]], Decode(s[1..]))
    else
      var e := Escape(s[1..]);
      if e.Failed? then Failed else Prepend(e.value, Decode(e.rest))
  }

  lemma PrependTwice(a: string, b: string, p: Parsed<string>)
    ensures Prepend(a, Prepend(b, p)) == Prepend(a + b, p)
    ensures Prepend("", p) == p
  {
    if p.Parsed? {
      assert a + (b + p.value) == (a + b) + p.value && "" + p.value == p.value;
    }
  }

  function ParseString(s: string): (r: Parsed<string>)
    ensures r.Parsed? ==> |r.rest| < |s|
  {
    if s == "" || s[0] != '"' then Failed else Decode(s[1..])
  }

  // ----- What escapes stand for -----

  // Section 2.2 of RFC 2781: the two surrogates of a code point above 0xFFFF.
  function HighOf(cp: nat): (u: nat)
    requires 0x10000 <= cp < 0x110000
    ensures IsHigh(u)
  {
    0xD800 + (cp - 0x10000) / 0x400
  }

  function LowOf(cp: nat): (u: nat)
    requires 0x10000 <= cp < 0x110000
    ensures IsLow(u)
  {
    0xDC00 + (cp - 0x10000) % 0x400
  }

  lemma CombineIsInverse(cp: nat)
    requires 0x10000 <= cp < 0x110000
    ensures Combine(HighOf(cp), LowOf(cp)) == cp
  {
    var v: nat := cp - 0x10000;
    Surrogate(0xD800, v / 0x400);
    Surrogate(0xDC00, v % 0x400);
  }

  lemma Surrogate(base: nat, v: nat)
    requires v < 0x400 && base % 0x400 == 0
    ensures (base + v) % 0x400 == v
  {
  }

  // Every spelling of a code point decodes to its UTF-8 bytes, whatever follows.
  lemma EscapeIsDecoded(cp: nat, hex: string, rest: string)
    requires 0 < cp < 0x10000 && IsScalar(cp) && Spells(hex, cp)
    ensures Escape("u" + hex + rest) == Parsed(Utf8(cp), rest)
  {
    SpellingIsRead(hex, cp);
    var s := "u" + hex + rest;
    assert s[1..5] == hex && s[5..] == rest;
  }

  lemma PairIsJoined(cp: nat, high: string, low: string, rest: string)
    requires 0x10000 <= cp < 0x110000 && |high| == |low| == 4 && AllHex(high) && AllHex(low)
    requires Hex4(high) == HighOf(cp) && Hex4(low) == LowOf(cp)
    ensures Escape("u" + high + "\\u" + low + rest) == Parsed(Utf8(cp), rest)
  {
    var s := "u" + high + "\\u" + low + rest;
    assert s[1..5] == high && s[5..7] == "\\u" && s[7..11] == low && s[11..] == rest;
    assert s[5..] == "\\u" + (low + rest);
    CombineIsInverse(cp);
  }

  lemma PairIsDecoded(cp: nat, high: string, low: string, rest: string)
    requires 0x10000 <= cp < 0x110000 && Spells(high, HighOf(cp)) && Spells(low, LowOf(cp))
    ensures Escape("u" + high + "\\u" + low + rest) == Parsed(Utf8(cp), rest)
  {
    SpelledIsHex(high, HighOf(cp));
    SpelledIsHex(low, LowOf(cp));
    PairIsJoined(cp, high, low, rest);
  }

  // ----- Space for the decoded string -----

  // The number that the first loop of `parse_string` counts.
  function FirstPass(s: string): (len: nat)
    decreases |s|
  {
    if s == "" || s[0] == '"' then 0
    else if s[0] == '\\' then 1 + (if |s| < 2 then 0 else FirstPass(s[2..]))
    else 1 + FirstPass(s[1..])
  }

  // No escape is cut short, and `\u` has its four hexadecimal digits.
  ghost predicate EscapesComplete(s: string)
    decreases |s|
  {
    || s == ""
    || s[0] == '"'
    || (s[0] != '\\' && EscapesComplete(s[1..]))
    || (s[0] == '\\' && |s| >= 2 && s[1] != 'u' && EscapesComplete(s[2..]))
    || (s[0] == '\\' && |s| >= 2 && s[1] == 'u' && AllHex(s[2..]) && EscapesComplete(s[6..]))
  }

  lemma UnicodeCounts(s: string)
    requires |s| >= 2 && s[0] == '\\' && s[1] == 'u' && AllHex(s[2..])
    ensures FirstPass(s) == 5 + FirstPass(s[6..])
  {
    var t := s[2..];
    assert s[2..] == t && s[6..] == t[4..];
    assert t[1..][1..] == t[2..] && t[2..][1..] == t[3..] && t[3..][1..] == t[4..];
    assert FirstPass(t) == 1 + FirstPass(t[1..]);
    assert FirstPass(t[1..]) == 1 + FirstPass(t[2..]);
    assert FirstPass(t[2..]) == 1 + FirstPass(t[3..]);
    assert FirstPass(t[3..]) == 1 + FirstPass(t[4..]);
  }

  // One escape needs no more space than the first loop counted for it.
  ghost predicate Fits(e: Parsed<string>, len: nat) {
    e.Parsed? && EscapesComplete(e.rest) && |e.value| + FirstPass(e.rest) <= len
  }

  lemma EscapeFits(s: string)
    requires s != "" && s[0] == '\\' && EscapesComplete(s)
    ensures Fits(Escape(s[1..]), FirstPass(s))
  {
    if s[1] == 'u' {
      UnicodeFits(s);
    } else {
      assert s[1..][1..] == s[2..];
    }
  }

  lemma UnicodeFits(s: string)
    requires |s| >= 2 && s[0] == '\\' && s[1] == 'u' && EscapesComplete(s)
    ensures Fits(Unicode(s[1..]), FirstPass(s))
  {
    var t := s[1..];
    UnicodeCounts(s);
    assert t[5..] == s[6..];
    if IsHigh(Hex4(t[1..5])) && "\\u" <= t[5..] {
      PairFits(t[5..]);
      assert t[11..] == t[5..][6..];
    }
  }

  lemma PairFits(s: string)
    requires "\\u" <= s && EscapesComplete(s)
    ensures |s| >= 6 && EscapesComplete(s[6..]) && FirstPass(s) == 5 + FirstPass(s[6..])
  {
    assert s[0] == '\\' && s[1] == 'u';
    UnicodeCounts(s);
  }

  // The decoded string never needs more than the first loop counted.
  lemma {:induction false} DecodedFits(s: string)
    requires EscapesComplete(s)
    ensures Decode(s).Parsed? && |Decode(s).value| <= FirstPass(s)
    decreases |s|
  {
    if s == "" || s[0] == '"' {
    } else {
      if s[0] == '\\' {
        EscapeFits(s);
        DecodedFits(Escape(s[1..]).rest);
      } else {
        DecodedFits(s[1..]);
      }
    }
  }

  // The string whose text starts `s` can be read in place: the text does not end inside an escape,
  // and the bytes fit into what the first loop counted. Complete escapes guarantee it.
  ghost predicate Readable(s: string) {
    Decode(s).Parsed? && |Decode(s).value| <= FirstPass(s)
  }

  lemma CompleteIsReadable(s: string)
    requires EscapesComplete(s)
    ensures Readable(s)
  {
    DecodedFits(s);
  }

  // ----- When the decoded string does not fit -----

  // The first loop character by character; `mid` says that a backslash stands in front of `s`.
  // `Close` is where it stops, `Count` what it still adds, with the pair it is in.
  function Close(s: string, mid: bool): (k: nat)
    ensures k <= |s|
  {
    if s == "" || (!mid && s[0] == '"') then 0 else 1 + Close(s[1..], !mid && s[0] == '\\')
  }

  function Count(s: string, mid: bool): nat {
    if s == "" then (if mid then 1 else 0)
    else if !mid && s[0] == '"' then 0
    else (if !mid && s[0] == '\\' then 0 else 1) + Count(s[1..], !mid && s[0] == '\\')
  }

  lemma {:induction false} CountIsFirstPass(s: string)
    ensures Count(s, false) == FirstPass(s)
    decreases |s|
  {
    if s == "" || s[0] == '"' {
    } else if s[0] == '\\' {
      if |s| >= 2 {
        assert s[1..][1..] == s[2..];
        CountIsFirstPass(s[2..]);
      }
    } else {
      CountIsFirstPass(s[1..]);
    }
  }

  // Whether the first loop is inside a pair, `k` characters further on.
  function MidAt(s: string, mid: bool, k: nat): bool
    requires k <= |s|
    decreases k
  {
    if k == 0 then mid else MidAt(s[1..], !mid && s[0] == '\\', k - 1)
  }

  lemma {:induction false} WalkOn(s: string, mid: bool, k: nat)
    requires k <= Close(s, mid)
    ensures var m := MidAt(s, mid, k);
            Close(s[k..], m) == Close(s, mid) - k && Count(s[k..], m) <= Count(s, mid)
    decreases k
  {
    if k == 0 {
      assert s[0..] == s;
    } else {
      WalkOn(s[1..], !mid && s[0] == '\\', k - 1);
      assert s[1..][k - 1..] == s[k..];
    }
  }

  lemma DigitsCount(t: string)
    requires AllHex(t)
    ensures Close(t, false) == 4 + Close(t[4..], false) && Count(t, false) == 4 + Count(t[4..], false)
  {
    assert t[1..][1..] == t[2..] && t[2..][1..] == t[3..] && t[3..][1..] == t[4..];
    assert Close(t[1..], false) == 1 + Close(t[2..], false) && Close(t[2..], false) == 1 + Close(t[3..], false);
    assert Count(t[1..], false) == 1 + Count(t[2..], false) && Count(t[2..], false) == 1 + Count(t[3..], false);
  }

  // The second loop, up to where the first one stops or just behind it: what it has written, and
  // the text in front of it.
  function Until(s: string, k: nat): Parsed<string>
    decreases |s|
  {
    if k == 0 || s == "" || s[0] == '"' then Parsed("", s)
    else if s[0] != '\\' then Prepend([s[0]], Until(s[1..], k - 1))
    else
      var e := Escape(s[1..]);
      if e.Failed? then Failed
      else
        var used := |s| - |e.rest|;
        Prepend(e.value, Until(e.rest, if used <= k then k - used else 0))
  }

  lemma {:induction false} DecodeUntil(s: string, k: nat)
    ensures var u := Until(s, k);
            Decode(s) == if u.Failed? then Failed else Prepend(u.value, Decode(u.rest))
    decreases |s|
  {
    if k == 0 || s == "" || s[0] == '"' {
      PrependTwice("", "", Decode(s));
    } else if s[0] != '\\' {
      DecodeUntil(s[1..], k - 1);
      PrependUntil([s[0]], Until(s[1..], k - 1));
    } else {
      var e := Escape(s[1..]);
      if e.Parsed? {
        var used := |s| - |e.rest|;
        var k' := if used <= k then k - used else 0;
        DecodeUntil(e.rest, k');
        PrependUntil(e.value, Until(e.rest, k'));
      }
    }
  }

  lemma PrependUntil(a: string, u: Parsed<string>)
    ensures u.Parsed? ==> Prepend(a, Prepend(u.value, Decode(u.rest))) == Prepend(Prepend(a, u).value, Decode(u.rest))
  {
    if u.Parsed? {
      PrependTwice(a, u.value, Decode(u.rest));
    }
  }

  // An escape that ends before the closing quote is paid for by what the first loop counts on the
  // way; one that takes the closing quote in is paid for as well.
  ghost predicate Paid(s: string, mid: bool, e: Parsed<string>) {
    e.Parsed? && |e.rest| <= |s| &&
    var used := |s| - |e.rest|;
    if used <= Close(s, mid) then |e.value| + Count(e.rest, MidAt(s, mid, used)) <= Count(s, mid)
    else |e.value| <= Count(s, mid)
  }

  lemma ShortIsPaid(s: string, mid: bool)
    requires |s| >= 2 && s[0] == '\\' && s[1] != 'u'
    ensures Paid(s, mid, Escape(s[1..]))
  {
    assert s[1..][1..] == s[2..];
    if 2 <= Close(s, mid) {
      var m := mid && s[1] == '\\';
      assert MidAt(s, mid, 2) == MidAt(s[1..], !mid, 1) == MidAt(s[2..], m, 0);
      assert Close(s, mid) == 1 + Close(s[1..], !mid) && s[1..][0] == s[1];
      if mid {
        assert Count(s[1..], false) == (if m then 0 else 1) + Count(s[2..], m);
      } else {
        assert Count(s[1..], true) == 1 + Count(s[2..], false);
      }
    }
  }

  lemma NothingIsPaid(s: string, mid: bool, e: Parsed<string>)
    requires e.Parsed? && e.value == "" && |e.rest| <= |s| && s[|s| - |e.rest|..] == e.rest
    ensures Paid(s, mid, e)
  {
    if |s| - |e.rest| <= Close(s, mid) {
      WalkOn(s, mid, |s| - |e.rest|);
    }
  }

  // Four digits stand behind `\u`: the first loop counts five for them.
  lemma DigitsArePaid(s: string, mid: bool)
    requires |s| >= 2 && s[0] == '\\' && s[1] == 'u' && AllHex(s[2..])
    ensures 6 <= Close(s, mid) && Count(s[6..], MidAt(s, mid, 6)) + 5 <= Count(s, mid)
  {
    var t := s[2..];
    assert s[1..][1..] == t && t[4..] == s[6..];
    DigitsCount(t);
    WalkOn(s, mid, 2);
    assert MidAt(s, mid, 2) == MidAt(s[1..], !mid, 1) == MidAt(t, false, 0);
    MidTwice(s, mid, 2, 4);
    assert t[1..][1..] == t[2..] && t[2..][1..] == t[3..];
    assert MidAt(t, false, 4) == MidAt(t[1..], false, 3) == MidAt(t[2..], false, 2) == MidAt(t[3..], false, 1);
  }

  lemma {:induction false} MidTwice(s: string, mid: bool, j: nat, k: nat)
    requires j + k <= |s|
    ensures MidAt(s, mid, j + k) == MidAt(s[j..], MidAt(s, mid, j), k)
    decreases j
  {
    if j == 0 {
      assert s[0..] == s;
    } else {
      MidTwice(s[1..], !mid && s[0] == '\\', j - 1, k);
      assert s[1..][j - 1..] == s[j..];
    }
  }

  lemma UnicodeIsPaid(s: string, mid: bool)
    requires |s| >= 2 && s[0] == '\\' && s[1] == 'u' && Unicode(s[1..]).Parsed?
    ensures Paid(s, mid, Unicode(s[1..]))
  {
    var t := s[1..];
    var e := Unicode(t);
    assert t[5..] == s[6..];
    if e.value == "" {
      NothingIsPaid(s, mid, e);
    } else {
      assert s[2..][..4] == t[1..5];
      DigitsArePaid(s, mid);
      if |e.rest| == |t| - 11 {
        PairIsPaid(s, mid);
      }
    }
  }

  lemma PairIsPaid(s: string, mid: bool)
    requires |s| >= 12 && s[6] == '\\' && s[7] == 'u' && AllHex(s[8..])
    requires 6 <= Close(s, mid) && Count(s[6..], MidAt(s, mid, 6)) + 5 <= Count(s, mid)
    ensures 12 <= Close(s, mid) && Count(s[12..], MidAt(s, mid, 12)) + 10 <= Count(s, mid)
  {
    assert s[6..][2..] == s[8..] && s[6..][6..] == s[12..];
    WalkOn(s, mid, 6);
    DigitsArePaid(s[6..], MidAt(s, mid, 6));
    MidTwice(s, mid, 6, 6);
  }

  ghost predicate AtEnd(s: string) { s == "" || s[0] == '"' }

  // Up to where the first loop stops, the second one has written no more than the first has
  // counted, and if it is not behind that place, it stops there or before.
  ghost predicate FitsUntil(s: string, mid: bool) {
    var u := Until(s, Close(s, mid));
    u.Parsed? ==> |u.value| <= Count(s, mid) && (|u.rest| + Close(s, mid) >= |s| ==> AtEnd(u.rest))
  }

  // So it is for every text, whatever its escapes are.
  lemma {:induction false} UntilFits(s: string, mid: bool)
    ensures FitsUntil(s, mid)
    decreases |s|
  {
    if Close(s, mid) == 0 || AtEnd(s) {
    } else if s[0] != '\\' {
      UntilFits(s[1..], false);
      PlainThenFits(s, mid);
    } else if Escape(s[1..]).Parsed? {
      var e := Escape(s[1..]);
      EscapeIsPaid(s, mid);
      var used := |s| - |e.rest|;
      if used <= Close(s, mid) {
        WalkOn(s, mid, used);
        UntilFits(e.rest, MidAt(s, mid, used));
      }
      EscapeThenFits(s, mid, e);
    }
  }

  lemma PlainThenFits(s: string, mid: bool)
    requires !AtEnd(s) && s[0] != '\\' && FitsUntil(s[1..], false)
    ensures FitsUntil(s, mid)
  {
  }

  lemma EscapeIsPaid(s: string, mid: bool)
    requires s != "" && s[0] == '\\' && Escape(s[1..]).Parsed?
    ensures var e := Escape(s[1..]);
            Paid(s, mid, e) && |e.rest| < |s| && s[|s| - |e.rest|..] == e.rest
  {
    if s[1] == 'u' {
      UnicodeIsPaid(s, mid);
    } else {
      ShortIsPaid(s, mid);
    }
  }

  lemma EscapeThenFits(s: string, mid: bool, e: Parsed<string>)
    requires s != "" && s[0] == '\\' && e == Escape(s[1..]) && Paid(s, mid, e) && 0 < Close(s, mid) && |e.rest| < |s|
    requires var used := |s| - |e.rest|;
             used <= Close(s, mid) ==> Close(e.rest, MidAt(s, mid, used)) == Close(s, mid) - used
                                       && FitsUntil(e.rest, MidAt(s, mid, used))
    ensures FitsUntil(s, mid)
  {
    UntilEscape(s, Close(s, mid), e);
  }

  lemma UntilEscape(s: string, k: nat, e: Parsed<string>)
    requires k > 0 && s != "" && s[0] == '\\' && e == Escape(s[1..]) && e.Parsed? && |e.rest| < |s|
    ensures var used := |s| - |e.rest|;
            Until(s, k) == Prepend(e.value, Until(e.rest, if used <= k then k - used else 0))
  {
  }

  // An escape takes the closing quote in: the second loop does not stop at the quote at which the
  // first one stopped.
  ghost predicate Swallows(s: string) {
    var u := Until(s, Close(s, false));
    u.Parsed? && |u.rest| + Close(s, false) < |s|
  }

  // The string does not fit exactly when the closing quote is swallowed and the text behind the
  // escape that did it decodes to more than the space that is left.
  lemma OverrunIsExact(s: string)
    requires Decode(s).Parsed?
    ensures var u := Until(s, Close(s, false));
            && u.Parsed? && Decode(u.rest).Parsed? && |u.value| <= FirstPass(s)
            && (!Readable(s) <==> Swallows(s) && |Decode(u.rest).value| > FirstPass(s) - |u.value|)
  {
    CountIsFirstPass(s);
    UntilFits(s, false);
    DecodeUntil(s, Close(s, false));
  }

  // With four digits in every `\u` escape no quote is swallowed.
  lemma {:induction false} CompleteSwallowsNothing(s: string)
    requires EscapesComplete(s)
    ensures !Swallows(s)
    decreases |s|
  {
    if AtEnd(s) {
    } else if s[0] == '\\' {
      CompleteStep(s);
      CompleteSwallowsNothing(Escape(s[1..]).rest);
    } else {
      CompleteSwallowsNothing(s[1..]);
    }
  }

  // A complete escape ends where the first loop ends it, too.
  ghost predicate InStep(s: string, e: Parsed<string>) {
    e.Parsed? && |e.rest| < |s| && Close(s, false) == |s| - |e.rest| + Close(e.rest, false)
  }

  lemma CompleteStep(s: string)
    requires s != "" && s[0] == '\\' && EscapesComplete(s)
    ensures var e := Escape(s[1..]); InStep(s, e) && EscapesComplete(e.rest)
  {
    EscapeFits(s);
    if s[1] == 'u' {
      UnicodeStep(s);
    } else {
      assert s[1..][1..] == s[2..];
    }
  }

  lemma UnicodeStep(s: string)
    requires |s| >= 2 && s[0] == '\\' && s[1] == 'u' && EscapesComplete(s)
    ensures InStep(s, Unicode(s[1..]))
  {
    var t := s[1..];
    DigitsClose(s);
    assert t[5..] == s[6..];
    if IsHigh(Hex4(t[1..5])) && "\\u" <= t[5..] {
      PairFits(t[5..]);
      DigitsClose(t[5..]);
      assert t[11..] == t[5..][6..];
    }
  }

  lemma DigitsClose(s: string)
    requires |s| >= 2 && s[0] == '\\' && s[1] == 'u' && AllHex(s[2..])
    ensures Close(s, false) == 6 + Close(s[6..], false)
  {
    var t := s[2..];
    assert s[1..][1..] == t && t[4..] == s[6..];
    DigitsCount(t);
  }

  lemma PlainIsDecoded(c: char, rest: string)
    requires c != '"' && c != '\\'
    ensures Decode([c] + rest) == Prepend([c], Decode(rest))
  {
    assert ([c] + rest)[1..] == rest;
  }

  lemma OneDigitIsSkipped(t: string)
    requires t == "u1\"aabbb"
    ensures Escape(t) == Parsed("", "bbb")
  {
    assert t[1..5] == "1\"aa" && t[5..] == "bbb";
  }

  lemma LettersAreDecoded()
    ensures Decode("bbb") == Parsed("bbb", "")
  {
    PlainIsDecoded('b', "bb");
    PlainIsDecoded('b', "b");
    PlainIsDecoded('b', "");
    assert ['b'] + "" == "b" && ['b'] + "b" == "bb" && ['b'] + "bb" == "bbb";
  }

  // One digit, and the closing quote is among the four characters that are skipped: the first loop
  // counts two, and three characters are decoded.
  lemma OverrunExample()
    ensures var s := "\\u1\"aabbb"; FirstPass(s) == 2 && Decode(s) == Parsed("bbb", "")
  {
    var s := "\\u1\"aabbb";
    OneDigitIsSkipped(s[1..]);
    LettersAreDecoded();
    PrependTwice("", "", Parsed("bbb", ""));
    assert s[2..] == "1\"aabbb" && s[2..][1..] == "\"aabbb";
  }

  // ----- String literals, piece by piece -----

  datatype Piece =
    | Plain(c: char)
    | Short(c: char)                            // a backslash and one character
    | Code(hex: string, cp: nat)                // one `\u` escape
    | Pair(high: string, low: string, cp: nat)  // a surrogate pair of them
  {
    ghost predicate Valid() {
      match this
      case Plain(c) => c != '"' && c != '\\'
      case Short(c) => c != 'u'
      case Code(hex, cp) => Spells(hex, cp) && cp > 0 && IsScalar(cp)
      case Pair(high, low, cp) => 0x10000 <= cp < 0x110000 && Spells(high, HighOf(cp)) && Spells(low, LowOf(cp))
    }

    function Text(): string {
      match this
      case Plain(c) => [c]
      case Short(c) => ['\\', c]
      case Code(hex, cp) => "\\u" + hex
      case Pair(high, low, cp) => "\\u" + high + "\\u" + low
    }

    ghost function Bytes(): string
      requires Valid()
    {
      match this
      case Plain(c) => [c]
      case Short(c) => [Meant(c)]
      case Code(hex, cp) => Utf8(cp)
      case Pair(high, low, cp) => Utf8(cp)
    }
  }

  // The two-character escapes of section 7 of RFC 8259, by code. Any other character behind a
  // backslash stands for itself.
  function Meant(c: char): char {
    if c == '"' then '\U{22}'
    else if c == '\\' then '\U{5C}'
    else if c == '/' then '\U{2F}'
    else if c == 'b' then '\U{08}'
    else if c == 'f' then '\U{0C}'
    else if c == 'n' then '\U{0A}'
    else if c == 'r' then '\U{0D}'
    else if c == 't' then '\U{09}'
    else c
  }

  ghost predicate AllValid(pieces: seq<Piece>) {
    forall i :: 0 <= i < |pieces| ==> pieces[i].Valid()
  }

  function Text(pieces: seq<Piece>): string {
    if pieces == [] then "" else pieces[0].Text() + Text(pieces[1..])
  }

  ghost function Bytes(pieces: seq<Piece>): string
    requires AllValid(pieces)
  {
    if pieces == [] then "" else pieces[0].Bytes() + Bytes(pieces[1..])
  }

  lemma Backslash(s: string, escape: string, e: Parsed<string>)
    requires s != "" && s[0] == '\\' && s[1..] == escape && e == Escape(escape) && e.Parsed?
    ensures Decode(s) == Prepend(e.value, Decode(e.rest))
  {
  }

  lemma ShortIsDecoded(c: char, rest: string)
    requires c != 'u'
    ensures Decode(['\\', c] + rest) == Prepend([Meant(c)], Decode(rest))
  {
    assert ([c] + rest)[1..] == rest;
    Backslash(['\\', c] + rest, [c] + rest, Parsed([Unescaped(c)], rest));
  }

  lemma CodeIsDecoded(hex: string, cp: nat, rest: string)
    requires Spells(hex, cp) && cp > 0 && IsScalar(cp)
    ensures Decode("\\u" + hex + rest) == Prepend(Utf8(cp), Decode(rest))
  {
    EscapeIsDecoded(cp, hex, rest);
    Backslash("\\u" + hex + rest, "u" + hex + rest, Parsed(Utf8(cp), rest));
  }

  lemma TwoCodesAreDecoded(high: string, low: string, cp: nat, rest: string)
    requires 0x10000 <= cp < 0x110000 && Spells(high, HighOf(cp)) && Spells(low, LowOf(cp))
    ensures Decode("\\u" + high + "\\u" + low + rest) == Prepend(Utf8(cp), Decode(rest))
  {
    PairIsDecoded(cp, high, low, rest);
    DropFirst("\\u", high);
    DropFirst("\\u" + high, "\\u");
    DropFirst("\\u" + high + "\\u", low);
    DropFirst("\\u" + high + "\\u" + low, rest);
    Backslash("\\u" + high + "\\u" + low + rest, "u" + high + "\\u" + low + rest, Parsed(Utf8(cp), rest));
  }

  lemma DropFirst(a: string, b: string)
    requires a != ""
    ensures (a + b)[0] == a[0] && (a + b)[1..] == a[1..] + b
  {
  }

  lemma PieceIsDecoded(p: Piece, rest: string)
    requires p.Valid()
    ensures Decode(p.Text() + rest) == Prepend(p.Bytes(), Decode(rest))
  {
    match p
    case Plain(c) => PlainIsDecoded(c, rest);
    case Short(c) => ShortIsDecoded(c, rest);
    case Code(hex, cp) => CodeIsDecoded(hex, cp, rest);
    case Pair(high, low, cp) => TwoCodesAreDecoded(high, low, cp, rest);
  }

  // A literal made of any such pieces decodes to their bytes, one after the other.
  lemma {:induction false} LiteralIsDecoded(pieces: seq<Piece>, rest: string)
    requires AllValid(pieces)
    ensures Decode(Text(pieces) + "\"" + rest) == Parsed(Bytes(pieces), rest)
    decreases |pieces|
  {
    if pieces == [] {
      assert ("" + "\"" + rest)[1..] == rest;
    } else {
      var tail := Text(pieces[1..]) + "\"" + rest;
      assert Text(pieces) + "\"" + rest == pieces[0].Text() + tail;
      PieceIsDecoded(pieces[0], tail);
      LiteralIsDecoded(pieces[1..], rest);
    }
  }

  // ----- Writing a string -----

  // What `print_string_ptr` writes for one byte.
  function Escaped(c: char): Piece
    requires IsByte(c)
  {
    match c
    case '\\' => Short('\\')
    case '"' => Short('"')
    case '\U{08}' => Short('b')
    case '\U{0C}' => Short('f')
    case '\n' => Short('n')
    case '\r' => Short('r')
    case '\t' => Short('t')
    case _ =>
      if c as int > 31 then Plain(c)
      else Code(['0', '0', HexChar(c as int / 16), HexChar(c as int % 16)], c as int)
  }

  function Pieces(s: string): (pieces: seq<Piece>)
    requires IsText(s)
    ensures |pieces| == |s| && forall i :: 0 <= i < |s| ==> pieces[i] == Escaped(s[i])
  {
    seq(|s|, i requires 0 <= i < |s| => Escaped(s[i]))
  }

  function PrintString(s: string): string
    requires IsText(s)
  {
    "\"" + Text(Pieces(s)) + "\""
  }

  lemma ControlIsSpelled(n: nat)
    requires n < 32
    ensures Spells(['0', '0', HexChar(n / 16), HexChar(n % 16)], n)
  {
    assert n / 0x1000 == 0 && n / 0x100 % 16 == 0 && n / 0x10 % 16 == n / 16;
  }

  lemma EscapedStandsForItself(c: char)
    requires IsByte(c)
    ensures Escaped(c).Valid() && Escaped(c).Bytes() == [c]
  {
    if Escaped(c).Code? {
      ControlIsSpelled(c as int);
      assert Utf8(c as int) == [c];
    }
  }

  // How a byte is written: as itself if section 7 of RFC 8259 allows it; else by its two-character
  // escape if it has one; else by its code in four lower-case digits.
  lemma EscapedIs(c: char, name: char)
    requires IsByte(c)
    ensures 0x20 <= c as int && c != '"' && c != '\\' ==> Escaped(c).Text() == [c]
    ensures c as int < 0x20 || c == '"' || c == '\\' ==>
              && (name in "\"\\bfnrt" && Meant(name) == c ==> Escaped(c).Text() == ['\\', name])
              && ((forall x :: x in "\"\\bfnrt" ==> Meant(x) != c) ==>
                    Escaped(c).Text() == "\\u00" + [LOWER[c as int / 16], LOWER[c as int % 16]])
  {
    assert "\"\\bfnrt"[0] == '"' && "\"\\bfnrt"[1] == '\\' && "\"\\bfnrt"[2] == 'b' && "\"\\bfnrt"[3] == 'f'
        && "\"\\bfnrt"[4] == 'n' && "\"\\bfnrt"[5] == 'r' && "\"\\bfnrt"[6] == 't';
    if Escaped(c).Short? {
      assert Escaped(c).c in "\"\\bfnrt" && Meant(Escaped(c).c) == c;
    }
    if Escaped(c).Code? {
      assert Escaped(c).Text() == "\\u" + ['0', '0', LOWER[c as int / 16], LOWER[c as int % 16]]
          == "\\u00" + [LOWER[c as int / 16], LOWER[c as int % 16]];
    }
  }

  lemma {:induction false} PiecesStandForText(s: string)
    requires IsText(s)
    ensures AllValid(Pieces(s)) && Bytes(Pieces(s)) == s
    decreases |s|
  {
    forall i | 0 <= i < |s|
      ensures Pieces(s)[i].Valid()
    {
      EscapedStandsForItself(s[i]);
    }
    if s != "" {
      EscapedStandsForItself(s[0]);
      assert Pieces(s)[1..] == Pieces(s[1..]);
      PiecesStandForText(s[1..]);
      assert [s[0]] + s[1..] == s;
    }
  }

  // Reading what was written gives the string back, and leaves what follows.
  lemma StringRoundTrip(s: string, rest: string)
    requires forall i :: 0 <= i < |s| ==> 1 <= s[i] as int <= 255
    ensures IsText(s) && ParseString(PrintString(s) + rest) == Parsed(s, rest)
  {
    PiecesStandForText(s);
    LiteralIsDecoded(Pieces(s), rest);
    Quoted(Text(Pieces(s)), rest);
  }

  lemma Quoted(text: string, rest: string)
    ensures ParseString(("\"" + text + "\"") + rest) == Decode(text + "\"" + rest)
  {
    assert (("\"" + text + "\"") + rest)[1..] == text + "\"" + rest;
  }

  // ----- `parse_string` itself -----

  // The bytes of one code point, written from the last to the first.
  method WriteUtf8(out: array<char>, at: nat, cp: nat) returns (end: nat)
    requires cp < 0x110000 && at + |Utf8(cp)| <= out.Length
    modifies out
    ensures end == at + |Utf8(cp)| && out[..end] == old(out[..at]) + Utf8(cp)
  {
    var uc := cp;
    var len := if cp < 0x80 then 1 else if cp < 0x800 then 2 else if cp < 0x10000 then 3 else 4;
    end := at + len;
    if len == 4 { out[at + 3], uc := TakeSixBits(uc); }
    if len >= 3 { out[at + 2], uc := TakeSixBits(uc); }
    if len >= 2 { out[at + 1], uc := TakeSixBits(uc); }
    out[at] := MarkFirst(uc, len);
  }

  // The last six bits as a continuation byte, and the bits above them.
  method TakeSixBits(uc: nat) returns (c: char, rest: nat)
    ensures c == Tail(uc) && rest == uc / 64
  {
    BitOps.SixBitsMarked(uc);
    BitOps.ShiftIsDivision(uc, 6);
    BitOps.ShiftLeftTen(uc);
    c := Byte(BitOps.And(BitOps.Or(uc, 0x80), 0xBF));
    rest := BitOps.Shift(uc, 6);
  }

  // The remaining bits under the mark for the length.
  method MarkFirst(uc: nat, len: nat) returns (c: char)
    requires (len == 1 && uc < 0x80) || (len == 2 && uc < 0x20) || (len == 3 && uc < 0x10) || (len == 4 && uc < 8)
    ensures c as int == uc + if len == 1 then 0 else if len == 2 then 0xC0 else if len == 3 then 0xE0 else 0xF0
  {
    BitOps.FirstByteMarked(uc);
    c := Byte(BitOps.Or(uc, if len == 1 then 0 else if len == 2 then 0xC0 else if len == 3 then 0xE0 else 0xF0));
  }

  method JoinPair(high: nat, low: nat) returns (cp: nat)
    requires IsHigh(high) && IsLow(low)
    ensures cp == Combine(high, low)
  {
    BitOps.TenBitsJoined(high, low);
    cp := 0x10000 + BitOps.Or(BitOps.ShiftLeft(BitOps.And(high, 0x3FF), 10), BitOps.And(low, 0x3FF));
  }

  // How far decoding has come: `done` is what the text up to `s` stands for, `whole` is all of it.
  ghost predicate Decoding(done: string, s: string, whole: Parsed<string>) {
    whole.Parsed? && whole == Prepend(done, Decode(s))
  }

  lemma PlainStep(done: string, s: string, whole: Parsed<string>)
    requires Decoding(done, s, whole) && s != "" && s[0] != '"' && s[0] != '\\'
    ensures Decoding(done + [s[0]], s[1..], whole) && |done| < |whole.value|
  {
    PrependTwice(done, [s[0]], Decode(s[1..]));
  }

  lemma EscapeStep(done: string, s: string, whole: Parsed<string>)
    requires Decoding(done, s, whole) && s != "" && s[0] == '\\'
    ensures |s| >= 2
    ensures var e := Escape(s[1..]);
            e.Parsed? && Decoding(done + e.value, e.rest, whole) && |done| + |e.value| <= |whole.value|
  {
    PrependTwice(done, Escape(s[1..]).value, Decode(Escape(s[1..]).rest));
  }

  lemma DecodingEnds(done: string, s: string, whole: Parsed<string>)
    requires Decoding(done, s, whole) && (s == "" || s[0] == '"')
    ensures whole == Parsed(done, if s == "" then "" else s[1..])
  {
    assert done + "" == done;
  }

  // One escape: `ptr` is behind the backslash.
  method ReadEscape(str: string, ptr0: nat, out: array<char>, ptr20: nat) returns (ptr: nat, ptr2: nat)
    requires ptr0 < |str|
    requires var e := Escape(str[ptr0..]); e.Parsed? && ptr20 + |e.value| <= out.Length
    modifies out
    ensures var e := Escape(str[ptr0..]);
            && ptr0 < ptr <= |str| && str[ptr..] == e.rest
            && ptr2 == ptr20 + |e.value| && out[..ptr2] == old(out[..ptr20]) + e.value
  {
    ptr, ptr2 := ptr0, ptr20;
    ghost var s := str[ptr0..];
    if str[ptr] != 'u' {
      out[ptr2] := Unescaped(str[ptr]);
      ptr, ptr2 := ptr + 1, ptr2 + 1;
      return;
    }
    assert forall i, j :: 0 <= i <= j <= |s| ==> s[i..j] == str[ptr0 + i..ptr0 + j];
    assert forall i :: 0 <= i <= |s| ==> s[i..] == str[ptr0 + i..];
    var uc := Hex4(str[ptr + 1..ptr + 5]);
    ptr := ptr + 5;
    if IsLow(uc) || uc == 0 {
      return;
    }
    if IsHigh(uc) {
      if !("\\u" <= str[ptr..]) {
        return;
      }
      var uc2 := Hex4(str[ptr + 2..ptr + 6]);
      ptr := ptr + 6;
      if !IsLow(uc2) {
        return;
      }
      uc := JoinPair(uc, uc2);
    }
    ptr2 := WriteUtf8(out, ptr2, uc);
  }

  // `overrun` says that the source would write behind the space it has allocated.
  method ReadString(str: string) returns (r: Parsed<string>, overrun: bool)
    requires str != "" && str[0] == '"' ==> Decode(str[1..]).Parsed?
    ensures overrun <==> str != "" && str[0] == '"' && !Readable(str[1..])
    ensures !overrun ==> r == ParseString(str)
  {
    overrun := false;
    if str == "" || str[0] != '"' {
      r := Failed;
      return;
    }
    var len := CountFirst(str);
    var out := new char[len + 1];
    ghost var whole := Decode(str[1..]);
    var ptr: nat, ptr2: nat := 1, 0;
    PrependTwice("", "", whole);
    r := Failed;
    while ptr < |str| && str[ptr] != '"'
      invariant 1 <= ptr <= |str| && ptr2 <= len + 1 && Decoding(out[..ptr2], str[ptr..], whole)
      decreases |str| - ptr
    {
      ghost var done := out[..ptr2];
      if str[ptr] != '\\' {
        PlainStep(done, str[ptr..], whole);
        if ptr2 == out.Length {
          overrun := true;
          return;
        }
        out[ptr2] := str[ptr];
        assert out[..ptr2 + 1] == done + [str[ptr]];
        ptr, ptr2 := ptr + 1, ptr2 + 1;
      } else {
        EscapeStep(done, str[ptr..], whole);
        assert str[ptr..][1..] == str[ptr + 1..];
        if ptr2 + |Escape(str[ptr + 1..]).value| > out.Length {
          overrun := true;
          return;
        }
        ptr, ptr2 := ReadEscape(str, ptr + 1, out, ptr2);
      }
    }
    DecodingEnds(out[..ptr2], str[ptr..], whole);
    if ptr2 == out.Length {
      overrun := true;
      return;
    }
    out[ptr2] := '\0';
    r := Parsed(out[..ptr2], if ptr < |str| then str[ptr + 1..] else "");
  }

  // The first loop.
  method CountFirst(str: string) returns (len: nat)
    requires str != ""
    ensures len == FirstPass(str[1..])
  {
    var ptr := 1;
    len := 0;
    while ptr < |str| && str[ptr] != '"'
      invariant 1 <= ptr <= |str| && len + FirstPass(str[ptr..]) == FirstPass(str[1..])
    {
      len := len + 1;
      if str[ptr] == '\\' && ptr + 1 < |str| {
        assert str[ptr..][2..] == str[ptr + 2..];
        ptr := ptr + 2;
      } else {
        assert str[ptr..][1..] == str[ptr + 1..];
        ptr := ptr + 1;
      }
    }
  }
}
