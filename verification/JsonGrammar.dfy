/**
 The JSON texts of RFC 8259 and what they stand for, apart from the parser and the printer: white
 space (section 2), keywords (3), objects (4), arrays (5), numbers (6) and strings (7). Every such
 text, with white space wherever the grammar allows it, is parsed to what it stands for.

 Texts are written in front of what follows them, `rest`.
 */
module JsonGrammar {
  import opened JsonString
  import opened Json
  import Sequences

  // ----- The grammar -----

  datatype Exp = NoExp | Exp(letter: char, sign: string, digits: string)

  // Sign, integer part, fraction without its point, exponent.
  datatype Numeral = Numeral(minus: bool, whole: string, frac: string, exp: Exp)

  datatype Syntax =
    | NullText
    | FalseText
    | TrueText
    | NumberText(n: Numeral)
    | StringText(pieces: seq<Piece>)
    | ArrayText(blank: string, elements: Elements)
    | ObjectText(blank: string, fields: Fields)

  datatype Elements = NoElement | Element(lead: string, value: Syntax, after: string, next: Elements)

  datatype Fields =
    | NoField
    | Field(lead: string, name: seq<Piece>, before: string, behind: string, value: Syntax, after: string, next: Fields)

  predicate IsWhite(c: char) { c == '\U{20}' || c == '\U{09}' || c == '\U{0A}' || c == '\U{0D}' }

  ghost predicate White(s: string) { forall i :: 0 <= i < |s| ==> IsWhite(s[i]) }

  ghost predicate AllDigits(s: string) { forall i :: 0 <= i < |s| ==> IsDigit(s[i]) }

  ghost predicate ValidExp(e: Exp) {
    e.Exp? ==>
      && (e.letter == 'e' || e.letter == 'E') && (e.sign == "" || e.sign == "+" || e.sign == "-")
      && e.digits != "" && AllDigits(e.digits)
  }

  ghost predicate ValidNumeral(n: Numeral) {
    && AllDigits(n.whole) && n.whole != "" && (n.whole[0] == '0' ==> n.whole == "0")
    && AllDigits(n.frac) && ValidExp(n.exp)
  }

  ghost predicate Valid(y: Syntax)
    decreases y
  {
    match y
    case NumberText(n) => ValidNumeral(n)
    case StringText(pieces) => AllValid(pieces)
    case ArrayText(blank, elements) => White(blank) && ValidElements(elements)
    case ObjectText(blank, fields) => White(blank) && ValidFields(fields)
    case _ => true
  }

  ghost predicate ValidElements(es: Elements)
    decreases es
  {
    es.Element? ==> White(es.lead) && Valid(es.value) && White(es.after) && ValidElements(es.next)
  }

  ghost predicate ValidFields(fs: Fields)
    decreases fs
  {
    fs.Field? ==>
      && White(fs.lead) && AllValid(fs.name) && White(fs.before) && White(fs.behind)
      && Valid(fs.value) && White(fs.after) && ValidFields(fs.next)
  }

  function ExpText(e: Exp, rest: string): string {
    match e
    case NoExp => rest
    case Exp(letter, sign, digits) => [letter] + (sign + (digits + rest))
  }

  function FracText(frac: string, rest: string): string { if frac == "" then rest else "." + (frac + rest) }

  function NumeralText(n: Numeral, rest: string): string {
    (if n.minus then "-" else "") + (n.whole + FracText(n.frac, ExpText(n.exp, rest)))
  }

  function StringOf(pieces: seq<Piece>, rest: string): string { "\"" + (Text(pieces) + ("\"" + rest)) }

  function TextOf(y: Syntax, rest: string): string
    decreases y
  {
    match y
    case NullText => "null" + rest
    case FalseText => "false" + rest
    case TrueText => "true" + rest
    case NumberText(n) => NumeralText(n, rest)
    case StringText(pieces) => StringOf(pieces, rest)
    case ArrayText(blank, elements) => "[" + (blank + ElementsText(elements, "]" + rest))
    case ObjectText(blank, fields) => "{" + (blank + FieldsText(fields, "}" + rest))
  }

  function ElementsText(es: Elements, rest: string): string
    decreases es
  {
    match es
    case NoElement => rest
    case Element(lead, value, after, next) =>
      lead + TextOf(value, after + (if next.Element? then "," + ElementsText(next, rest) else rest))
  }

  function FieldsText(fs: Fields, rest: string): string
    decreases fs
  {
    match fs
    case NoField => rest
    case Field(lead, name, before, behind, value, after, next) =>
      lead + StringOf(name, before + (":" + (behind
           + TextOf(value, after + (if next.Field? then "," + FieldsText(next, rest) else rest)))))
  }

  // ----- What a text stands for -----

  // The number that a string of digits stands for.
  function DigitsNumber(s: string): nat
    requires AllDigits(s)
    decreases |s|
  {
    if s == "" then 0 else 10 * DigitsNumber(s[..|s| - 1]) + ValueOf(s[|s| - 1])
  }

  ghost function ExpNumber(e: Exp): int
    requires ValidExp(e)
  {
    match e
    case NoExp => 0
    case Exp(_, sign, digits) => (if sign == "-" then -1 else 1) * DigitsNumber(digits)
  }

  ghost function NumeralNumber(n: Numeral): real
    requires ValidNumeral(n)
  {
    var fraction := Scaled(DigitsNumber(n.frac) as real, -|n.frac|);
    var number := Scaled(DigitsNumber(n.whole) as real + fraction, ExpNumber(n.exp));
    if n.minus then -number else number
  }

  ghost function Meaning(y: Syntax): Value
    requires Valid(y)
    decreases y
  {
    match y
    case NullText => Null
    case FalseText => False
    case TrueText => True
    case NumberText(n) => Number(NumeralNumber(n))
    case StringText(pieces) => String(Bytes(pieces))
    case ArrayText(_, elements) => Array(ItemsOf(elements))
    case ObjectText(_, fields) => Object(MembersOf(fields))
  }

  ghost function ItemsOf(es: Elements): Items
    requires ValidElements(es)
    decreases es
  {
    match es
    case NoElement => NoItem
    case Element(_, value, _, next) => Item(Meaning(value), ItemsOf(next))
  }

  ghost function MembersOf(fs: Fields): Members
    requires ValidFields(fs)
    decreases fs
  {
    match fs
    case NoField => NoMember
    case Field(_, name, _, _, value, _, next) => Member(Bytes(name), Meaning(value), MembersOf(next))
  }

  // ----- White space -----

  lemma {:induction false} SkipWhite(b: string, s: string)
    requires White(b)
    ensures Skip(b + s) == Skip(s)
    decreases |b|
  {
    if b == "" {
      assert b + s == s;
    } else {
      assert (b + s)[1..] == b[1..] + s;
      SkipWhite(b[1..], s);
    }
  }

  // The parser skips the characters with the codes 1 to 32, and no others.
  lemma {:induction false} SkipIs(s: string) returns (k: nat)
    ensures k <= |s| && Skip(s) == s[k..]
    ensures forall i :: 0 <= i < k ==> 1 <= s[i] as int <= 32
    ensures k < |s| ==> s[k] as int == 0 || s[k] as int > 32
    decreases |s|
  {
    if s == "" || !IsSpace(s[0]) {
      k := 0;
    } else {
      var j := SkipIs(s[1..]);
      k := j + 1;
      assert forall i :: 1 <= i < k ==> s[i] == s[1..][i - 1];
    }
  }

  // A text that starts with white space, or with one of these, does not continue a number.
  lemma WhiteDelimits(b: string, s: string)
    requires White(b) && (s == "" || s[0] == ',' || s[0] == ']' || s[0] == '}')
    ensures Delimits(b + s)
  {
    if b == "" {
      assert b + s == s;
    } else {
      assert (b + s)[0] == b[0];
    }
  }

  // A text that starts with something that is neither white space nor a closing bracket.
  predicate Solid(s: string) { s != "" && !IsSpace(s[0]) && s[0] != ']' && s[0] != '}' }

  lemma TextIsSolid(y: Syntax, rest: string)
    requires Valid(y)
    ensures Solid(TextOf(y, rest))
  {
    if y.NumberText? && !y.n.minus {
      assert TextOf(y, rest)[0] == y.n.whole[0];
    }
  }

  lemma SkipSolid(s: string)
    requires Solid(s)
    ensures Skip(s) == s
  {
  }

  // ----- Numbers -----

  lemma {:induction false} ScaledStep(n: real, k: int)
    ensures Scaled(n, k + 1) == 10.0 * Scaled(n, k)
  {
    if k < 0 {
      assert Scaled(n, k) == Scaled(n, k + 1) / 10.0;
    }
  }

  lemma {:induction false} ScaledSum(x: real, y: real, k: int)
    ensures Scaled(x + y, k) == Scaled(x, k) + Scaled(y, k)
    decreases if k < 0 then -k else k
  {
    if k == 0 {
    } else if k > 0 {
      ScaledSum(x, y, k - 1);
    } else {
      ScaledSum(x, y, k + 1);
    }
  }

  lemma {:induction false} ScaledTen(n: real, k: int)
    ensures Scaled(10.0 * n, k) == Scaled(n, k + 1)
    decreases if k < 0 then -k else k
  {
    if k == 0 {
      ScaledStep(n, 0);
    } else if k > 0 {
      ScaledTen(n, k - 1);
      ScaledStep(n, k);
    } else {
      ScaledTen(n, k + 1);
      ScaledStep(n, k + 1);
    }
  }

  lemma {:induction false} ScaledTwice(n: real, a: int, b: int)
    requires a >= 0
    ensures Scaled(Scaled(n, a), b) == Scaled(n, a + b)
    decreases a
  {
    if a == 0 {
    } else {
      ScaledTwice(n, a - 1, b + 1);
      ScaledTen(Scaled(n, a - 1), b);
    }
  }

  lemma {:induction false} ScaledBack(n: real, k: int)
    requires k >= 0
    ensures Scaled(Scaled(n, -k), k) == n
    decreases k
  {
    if k == 0 {
    } else {
      ScaledBack(n, k - 1);
      var y := Scaled(n, -k);
      ScaledStep(n, -k);
      assert Scaled(n, -(k - 1)) == 10.0 * y;
      ScaledTen(y, k - 1);
    }
  }

  // Digits are added from the left: to `x` they make `y`.
  lemma {:induction false} DigitsAreRead(ds: string, x: real, tail: string, y: real)
    requires AllDigits(ds) && y == Scaled(x, |ds|) + DigitsNumber(ds) as real
    ensures Digits(ds + tail, x) == Digits(tail, y)
    decreases |ds|
  {
    if ds == "" {
      assert ds + tail == tail;
    } else {
      var k := |ds| - 1;
      var last := [ds[k]];
      var z := Scaled(x, k) + DigitsNumber(ds[..k]) as real;
      DigitsAreRead(ds[..k], x, last + tail, z);
      assert ds + tail == ds[..k] + (last + tail) && (last + tail)[1..] == tail;
      ScaledStep(x, k);
      assert z * 10.0 + ValueOf(ds[k]) as real == y;
    }
  }

  lemma {:induction false} ExponentIsRead(ds: string, tail: string)
    requires AllDigits(ds)
    ensures Exponent(ds + tail, 0) == Exponent(tail, DigitsNumber(ds))
    decreases |ds|
  {
    if ds == "" {
      assert ds + tail == tail;
    } else {
      var k := |ds| - 1;
      var last := [ds[k]];
      ExponentIsRead(ds[..k], last + tail);
      assert ds + tail == ds[..k] + (last + tail) && (last + tail)[1..] == tail;
    }
  }

  // What stands behind the integer part, and behind the fraction, does not continue it.
  lemma PartsEnd(n: Numeral, rest: string)
    requires ValidNumeral(n) && Delimits(rest)
    ensures var e := ExpText(n.exp, rest);
            !IsDigit(Head(e)) && Head(e) != '.' && !IsDigit(Head(FracText(n.frac, e)))
    ensures Head(ExpText(n.exp, rest)) == 'e' || Head(ExpText(n.exp, rest)) == 'E' <==> n.exp.Exp?
  {
  }

  lemma WholeIsRead(n: Numeral, rest: string)
    requires ValidNumeral(n) && Delimits(rest)
    ensures var f := FracText(n.frac, ExpText(n.exp, rest));
            WholePart(n.whole + f) == (DigitsNumber(n.whole) as real, f)
  {
    var f := FracText(n.frac, ExpText(n.exp, rest));
    PartsEnd(n, rest);
    assert Head(n.whole + f) == n.whole[0];
    if n.whole[0] == '0' {
      assert (n.whole + f)[1..] == f && DigitsNumber("0") == 10 * DigitsNumber("0"[..0]) + 0;
    } else {
      ScaledSum(0.0, 0.0, |n.whole|);
      DigitsAreRead(n.whole, 0.0, f, DigitsNumber(n.whole) as real);
    }
  }

  lemma FracIsRead(n: Numeral, rest: string, x: real, y: real)
    requires ValidNumeral(n) && Delimits(rest) && y == Scaled(x, |n.frac|) + DigitsNumber(n.frac) as real
    ensures var e := ExpText(n.exp, rest); FracPart(FracText(n.frac, e), x) == (y, -|n.frac|, e)
  {
    var e := ExpText(n.exp, rest);
    PartsEnd(n, rest);
    if n.frac != "" {
      var f := FracText(n.frac, e);
      assert f[1..] == n.frac + e && f[1] == n.frac[0];
      DigitsAreRead(n.frac, x, e, y);
      assert Digits(f[1..], x) == (y, e);
      assert |f| == 1 + |n.frac| + |e|;
    }
  }

  lemma ExpIsRead(e: Exp, rest: string)
    requires ValidExp(e) && Delimits(rest)
    ensures ExpPart(ExpText(e, rest)) == (ExpNumber(e), rest)
  {
    if e.Exp? {
      var digits := e.digits + rest;
      ExponentIsRead(e.digits, rest);
      assert Exponent(digits, 0) == (DigitsNumber(e.digits), rest);
      assert Head(digits) == e.digits[0];
      if e.sign == "" {
        assert "" + digits == digits;
        UnsignedExp(e.letter, digits);
      } else {
        SignedExp(e.letter, e.sign, digits);
      }
    }
  }

  lemma UnsignedExp(letter: char, digits: string)
    requires (letter == 'e' || letter == 'E') && IsDigit(Head(digits))
    ensures ExpPart([letter] + digits) == Exponent(digits, 0)
  {
    assert ([letter] + digits)[1..] == digits;
  }

  lemma SignedExp(letter: char, sign: string, digits: string)
    requires (letter == 'e' || letter == 'E') && (sign == "+" || sign == "-")
    ensures var e := Exponent(digits, 0);
            ExpPart([letter] + (sign + digits)) == (if sign == "-" then -e.0 else e.0, e.1)
  {
    var s := [letter] + (sign + digits);
    assert s[1..] == sign + digits && Head(s[1..]) == sign[0] && s[2..] == digits;
  }

  lemma ScaledIs(w: real, f: real, k: int, e: int)
    requires k >= 0
    ensures Scaled(Scaled(w, k) + f, -k + e) == Scaled(w + Scaled(f, -k), e)
  {
    var g := Scaled(f, -k);
    ScaledSum(w, g, k);
    ScaledBack(f, k);
    ScaledTwice(w + g, k, -k + e);
  }

  // The number without its sign, as the parser puts it together.
  ghost function PartsNumber(n: Numeral): real
    requires ValidNumeral(n)
  {
    var digits := Scaled(DigitsNumber(n.whole) as real, |n.frac|) + DigitsNumber(n.frac) as real;
    Scaled(digits, -|n.frac| + ExpNumber(n.exp))
  }

  lemma NumberOfParts(n: Numeral)
    requires ValidNumeral(n)
    ensures Signed(n.minus, PartsNumber(n)) == NumeralNumber(n)
  {
    ScaledIs(DigitsNumber(n.whole) as real, DigitsNumber(n.frac) as real, |n.frac|, ExpNumber(n.exp));
  }

  lemma PartsNumberIs(n: Numeral, w: real, m: real)
    requires ValidNumeral(n) && w == DigitsNumber(n.whole) as real
    requires m == Scaled(w, |n.frac|) + DigitsNumber(n.frac) as real
    ensures PartsNumber(n) == Scaled(m, -|n.frac| + ExpNumber(n.exp))
  {
  }

  lemma NumeralParts(n: Numeral, rest: string) returns (s1: string, w: real, f: string, m: real, e: string)
    requires ValidNumeral(n) && Delimits(rest)
    ensures PartsNumber(n) == Scaled(m, -|n.frac| + ExpNumber(n.exp))
    ensures Unsigned(NumeralText(n, rest), n.minus, s1) && WholePart(s1) == (w, f)
    ensures FracPart(f, w) == (m, -|n.frac|, e) && ExpPart(e) == (ExpNumber(n.exp), rest)
  {
    w := DigitsNumber(n.whole) as real;
    e := ExpText(n.exp, rest);
    f := FracText(n.frac, e);
    m := Scaled(w, |n.frac|) + DigitsNumber(n.frac) as real;
    s1 := n.whole + f;
    PartsNumberIs(n, w, m);
    NumeralStart(n, rest);
    WholeIsRead(n, rest);
    FracIsRead(n, rest, w, m);
    ExpIsRead(n.exp, rest);
  }

  // `s1` is the number without its sign.
  predicate Unsigned(s: string, minus: bool, s1: string) {
    && (Head(s) == '-' || IsDigit(Head(s)))
    && (s[0] == '-' <==> minus) && s1 == (if s[0] == '-' then s[1..] else s)
  }

  lemma NumeralIsPutTogether(n: Numeral, rest: string)
    requires ValidNumeral(n) && Delimits(rest)
    ensures var s := NumeralText(n, rest);
            && (Head(s) == '-' || IsDigit(Head(s)))
            && ParseNumber(s) == Parsed(Number(Signed(n.minus, PartsNumber(n))), rest)
  {
    var s, v := NumeralText(n, rest), PartsNumber(n);
    var s1, w, f, m, e := NumeralParts(n, rest);
    PartsAreRead(s, n.minus, s1, w, f, m, -|n.frac|, e, ExpNumber(n.exp), rest, v);
  }

  // Every number of the grammar is read as the number that it stands for.
  lemma NumeralIsRead(n: Numeral, rest: string)
    requires ValidNumeral(n) && Delimits(rest)
    ensures var s := NumeralText(n, rest);
            && (Head(s) == '-' || IsDigit(Head(s)))
            && ParseNumber(s) == Parsed(Number(NumeralNumber(n)), rest)
  {
    NumeralIsPutTogether(n, rest);
    NumberOfParts(n);
  }

  lemma PartsAreRead(s: string, minus: bool, s1: string, w: real, f: string, m: real, k: int, e: string, x: int,
                     rest: string, v: real)
    requires Unsigned(s, minus, s1)
    requires WholePart(s1) == (w, f) && FracPart(f, w) == (m, k, e) && ExpPart(e) == (x, rest)
    requires v == Scaled(m, k + x)
    ensures ParseNumber(s) == Parsed(Number(Signed(minus, v)), rest)
  {
  }

  lemma NumeralStart(n: Numeral, rest: string)
    requires ValidNumeral(n)
    ensures Unsigned(NumeralText(n, rest), n.minus, n.whole + FracText(n.frac, ExpText(n.exp, rest)))
  {
    var s := NumeralText(n, rest);
    var t := n.whole + FracText(n.frac, ExpText(n.exp, rest));
    assert t[0] == n.whole[0];
    assert if n.minus then s[1..] == t else s == t;
  }

  // ----- Strings -----

  // Every string of the grammar is read as the bytes that it stands for.
  lemma StringIsRead(pieces: seq<Piece>, rest: string)
    requires AllValid(pieces)
    ensures ParseString(StringOf(pieces, rest)) == Parsed(Bytes(pieces), rest)
  {
    LiteralIsDecoded(pieces, rest);
    Sequences.Associate(Text(pieces), "\"", rest);
    Opened(Text(pieces) + ("\"" + rest));
  }

  lemma Opened(t: string)
    ensures ParseString("\"" + t) == Decode(t)
  {
    assert ("\"" + t)[1..] == t;
  }

  // ----- Arrays -----

  lemma SkipTwice(s: string)
    ensures Skip(Skip(s)) == Skip(s)
  {
  }

  // White space in front of something solid is skipped.
  lemma SkipTo(b: string, s: string)
    requires White(b) && s != "" && !IsSpace(s[0])
    ensures Skip(b + s) == s
  {
    SkipWhite(b, s);
  }

  lemma OneItem(s: string, v: Value, behind: string, tail: string)
    requires ParseValue(Skip(s)) == Parsed(v, behind) && Skip(behind) == tail
    ensures Head(tail) == ']' ==> ParseItems(s) == Parsed(Item(v, NoItem), tail[1..])
    ensures Head(tail) == ',' && ParseItems(tail[1..]).Parsed? ==>
              ParseItems(s) == Parsed(Item(v, ParseItems(tail[1..]).value), ParseItems(tail[1..]).rest)
  {
  }

  // What stands behind an element and the white space after it.
  function ElementsTail(next: Elements, rest: string): string {
    if next.Element? then "," + ElementsText(next, rest) else rest
  }

  lemma {:induction false} ElementsAreRead(es: Elements, b: string, rest: string)
    requires es.Element? && ValidElements(es) && White(b)
    ensures ParseItems(b + ElementsText(es, "]" + rest)) == Parsed(ItemsOf(es), rest)
    decreases es, 0
  {
    var tail := ElementsTail(es.next, "]" + rest);
    var text := TextOf(es.value, es.after + tail);
    TextIsSolid(es.value, es.after + tail);
    SkipTo(es.lead, text);
    SkipWhite(b, es.lead + text);
    WhiteDelimits(es.after, tail);
    ValueIsRead(es.value, es.after + tail);
    SkipTo(es.after, tail);
    OneItem(b + (es.lead + text), Meaning(es.value), es.after + tail, tail);
    if es.next.Element? {
      ElementsAreRead(es.next, "", rest);
      assert tail[1..] == ElementsText(es.next, "]" + rest) == "" + ElementsText(es.next, "]" + rest);
    } else {
      assert tail[1..] == rest;
    }
  }

  // Which branch of `parse_value` a text takes: its first character tells.
  lemma NoKeyword(s: string)
    requires s != "" && s[0] != 'n' && s[0] != 'f' && s[0] != 't'
    ensures !("null" <= s) && !("false" <= s) && !("true" <= s)
  {
  }

  lemma ArrayStep(inside: string, items: Parsed<Items>)
    requires Head(Skip(inside)) != ']' && ParseItems(inside) == items && items.Parsed?
    ensures ParseValue("[" + inside) == Parsed(Array(items.value), items.rest)
  {
    NoKeyword("[" + inside);
    SkipTwice(inside);
    assert ("[" + inside)[1..] == inside;
  }

  lemma EmptyStep(open: char, b: string, close: char, rest: string)
    requires White(b) && ((open == '[' && close == ']') || (open == '{' && close == '}'))
    ensures ParseValue([open] + (b + ([close] + rest)))
         == Parsed(if open == '[' then Array(NoItem) else Object(NoMember), rest)
  {
    var s := [open] + (b + ([close] + rest));
    NoKeyword(s);
    assert s[1..] == b + ([close] + rest);
    SkipTo(b, [close] + rest);
    assert ([close] + rest)[1..] == rest;
  }

  lemma ElementsStart(blank: string, es: Elements, rest: string)
    requires White(blank) && es.Element? && ValidElements(es)
    ensures Head(Skip(blank + ElementsText(es, rest))) != ']'
  {
    var text := TextOf(es.value, es.after + ElementsTail(es.next, rest));
    TextIsSolid(es.value, es.after + ElementsTail(es.next, rest));
    SkipTo(es.lead, text);
    SkipWhite(blank, es.lead + text);
  }

  lemma {:induction false} ArrayIsRead(blank: string, es: Elements, rest: string)
    requires White(blank) && ValidElements(es)
    ensures ParseValue(TextOf(ArrayText(blank, es), rest)) == Parsed(Array(ItemsOf(es)), rest)
    decreases es, 1
  {
    if es.NoElement? {
      EmptyStep('[', blank, ']', rest);
    } else {
      ElementsStart(blank, es, "]" + rest);
      ElementsAreRead(es, blank, rest);
      ArrayStep(blank + ElementsText(es, "]" + rest), Parsed(ItemsOf(es), rest));
    }
  }

  // ----- Objects -----

  function FieldsTail(next: Fields, rest: string): string {
    if next.Field? then "," + FieldsText(next, rest) else rest
  }

  lemma OneMember(s: string, name: string, colon: string, v: Value, behind: string, tail: string)
    requires ParseString(Skip(s)) == Parsed(name, colon) && Head(Skip(colon)) == ':'
    requires ParseValue(Skip(Skip(colon)[1..])) == Parsed(v, behind) && Skip(behind) == tail
    ensures Head(tail) == '}' ==> ParseMembers(s) == Parsed(Member(name, v, NoMember), tail[1..])
    ensures Head(tail) == ',' && ParseMembers(tail[1..]).Parsed? ==>
              ParseMembers(s) == Parsed(Member(name, v, ParseMembers(tail[1..]).value), ParseMembers(tail[1..]).rest)
  {
  }

  // The text of a field's name, in front of its colon and its value.
  lemma NameIsRead(b: string, f: Fields, value: string)
    requires f.Field? && ValidFields(f) && White(b) && value != "" && !IsSpace(value[0])
    ensures var colon := f.before + (":" + (f.behind + value));
            && ParseString(Skip(b + (f.lead + StringOf(f.name, colon)))) == Parsed(Bytes(f.name), colon)
            && Head(Skip(colon)) == ':' && Skip(Skip(colon)[1..]) == value
  {
    var colon := f.before + (":" + (f.behind + value));
    SkipWhite(b, f.lead + StringOf(f.name, colon));
    SkipTo(f.lead, StringOf(f.name, colon));
    StringIsRead(f.name, colon);
    SkipTo(f.before, ":" + (f.behind + value));
    assert (":" + (f.behind + value))[1..] == f.behind + value;
    SkipTo(f.behind, value);
  }

  lemma {:induction false} FieldsAreRead(fs: Fields, b: string, rest: string)
    requires fs.Field? && ValidFields(fs) && White(b)
    ensures ParseMembers(b + FieldsText(fs, "}" + rest)) == Parsed(MembersOf(fs), rest)
    decreases fs, 0
  {
    var tail := FieldsTail(fs.next, "}" + rest);
    var text := TextOf(fs.value, fs.after + tail);
    TextIsSolid(fs.value, fs.after + tail);
    NameIsRead(b, fs, text);
    WhiteDelimits(fs.after, tail);
    ValueIsRead(fs.value, fs.after + tail);
    SkipTo(fs.after, tail);
    var colon := fs.before + (":" + (fs.behind + text));
    OneMember(b + (fs.lead + StringOf(fs.name, colon)), Bytes(fs.name), colon,
              Meaning(fs.value), fs.after + tail, tail);
    if fs.next.Field? {
      FieldsAreRead(fs.next, "", rest);
      assert tail[1..] == FieldsText(fs.next, "}" + rest) == "" + FieldsText(fs.next, "}" + rest);
    } else {
      assert tail[1..] == rest;
    }
  }

  lemma ObjectStep(inside: string, members: Parsed<Members>)
    requires Head(Skip(inside)) != '}' && ParseMembers(inside) == members && members.Parsed?
    ensures ParseValue("{" + inside) == Parsed(Object(members.value), members.rest)
  {
    DropBrace(inside);
    MembersSkip(inside);
    ObjectBranch("{" + inside, Skip(inside), members);
  }

  lemma ObjectBranch(s: string, t: string, members: Parsed<Members>)
    requires s != "" && s[0] == '{' && t == Skip(s[1..]) && Head(t) != '}'
    requires ParseMembers(t) == members && members.Parsed?
    ensures ParseValue(s) == Parsed(Object(members.value), members.rest)
  {
    NoKeyword(s);
  }

  lemma DropBrace(inside: string)
    ensures Head("{" + inside) == '{' && ("{" + inside)[1..] == inside
  {
  }

  lemma MembersSkip(inside: string)
    ensures ParseMembers(Skip(inside)) == ParseMembers(inside)
  {
    SkipTwice(inside);
  }

  lemma FieldsStart(blank: string, fs: Fields, rest: string)
    requires White(blank) && fs.Field? && ValidFields(fs)
    ensures Head(Skip(blank + FieldsText(fs, rest))) != '}'
  {
    var colon := fs.before + (":" + (fs.behind + TextOf(fs.value, fs.after + FieldsTail(fs.next, rest))));
    SkipWhite(blank, fs.lead + StringOf(fs.name, colon));
    SkipTo(fs.lead, StringOf(fs.name, colon));
  }

  lemma {:induction false} ObjectIsRead(blank: string, fs: Fields, rest: string)
    requires White(blank) && ValidFields(fs)
    ensures ParseValue(TextOf(ObjectText(blank, fs), rest)) == Parsed(Object(MembersOf(fs)), rest)
    decreases fs, 1
  {
    if fs.NoField? {
      EmptyStep('{', blank, '}', rest);
    } else {
      FieldsStart(blank, fs, "}" + rest);
      FieldsAreRead(fs, blank, rest);
      ObjectStep(blank + FieldsText(fs, "}" + rest), Parsed(MembersOf(fs), rest));
    }
  }

  // ----- Values -----

  lemma KeywordIsRead(y: Syntax, rest: string)
    requires y.NullText? || y.FalseText? || y.TrueText?
    ensures ParseValue(TextOf(y, rest)) == Parsed(Meaning(y), rest)
  {
    var word := if y.NullText? then "null" else if y.FalseText? then "false" else "true";
    assert TextOf(y, rest)[|word|..] == rest && TextOf(y, rest)[0] == word[0];
  }

  lemma LeafIsRead(y: Syntax, rest: string)
    requires (y.NumberText? || y.StringText?) && Valid(y) && Delimits(rest)
    ensures ParseValue(TextOf(y, rest)) == Parsed(Meaning(y), rest)
  {
    if y.NumberText? {
      NumeralIsRead(y.n, rest);
    } else {
      StringIsRead(y.pieces, rest);
    }
    NoKeyword(TextOf(y, rest));
  }

  // Every text of the grammar is parsed to what it stands for, up to its end.
  lemma {:induction false} ValueIsRead(y: Syntax, rest: string)
    requires Valid(y) && Delimits(rest)
    ensures ParseValue(TextOf(y, rest)) == Parsed(Meaning(y), rest)
    decreases y, 0
  {
    match y
    case NumberText(_) => LeafIsRead(y, rest);
    case StringText(_) => LeafIsRead(y, rest);
    case ArrayText(blank, elements) => ArrayIsRead(blank, elements, rest);
    case ObjectText(blank, fields) => ObjectIsRead(blank, fields, rest);
    case _ => KeywordIsRead(y, rest);
  }

  // With white space around it, it is a whole JSON text, and `cJSON_Parse` returns what it stands
  // for.
  lemma TextIsParsed(before: string, y: Syntax, after: string, whole: bool)
    requires White(before) && Valid(y) && White(after)
    ensures Parse(before + TextOf(y, after), whole) == Parsed(Meaning(y), if whole then "" else after)
  {
    TextIsSolid(y, after);
    SkipTo(before, TextOf(y, after));
    WhiteDelimits(after, "");
    assert after + "" == after;
    ValueIsRead(y, after);
    SkipWhite(after, "");
  }
}
