/**
 JSON values in cJSON.cpp: what the printer writes, formatted or not, what the parser reads, and
 that reading what was written gives the value back.
 */
module Json {
  import opened JsonString

  // The children of an array or an object form a chain, as they do in the source.
  datatype Value =
    | Null
    | False
    | True
    | Number(d: real)
    | String(s: string)
    | Array(items: Items)
    | Object(members: Members)

  datatype Items = NoItem | Item(value: Value, next: Items)

  datatype Members = NoMember | Member(name: string, value: Value, next: Members)

  const INT_MIN: int := -0x8000_0000
  const INT_MAX: int := 0x7FFF_FFFF

  predicate IsInt32(d: real) { d == d.Floor as real && INT_MIN <= d.Floor <= INT_MAX }

  // The values that the round trip is about: 32-bit integers, and C strings.
  ghost predicate Printable(v: Value) {
    match v
    case Number(d) => IsInt32(d)
    case String(s) => IsText(s)
    case Array(items) => PrintableItems(items)
    case Object(members) => PrintableMembers(members)
    case _ => true
  }

  ghost predicate PrintableItems(items: Items) {
    items.Item? ==> Printable(items.value) && PrintableItems(items.next)
  }

  ghost predicate PrintableMembers(members: Members) {
    members.Member? ==> IsText(members.name) && Printable(members.value) && PrintableMembers(members.next)
  }

  // How many children a value has, and they have.
  ghost function Nodes(v: Value): nat {
    match v
    case Array(items) => 1 + NodesItems(items)
    case Object(members) => 1 + NodesMembers(members)
    case _ => 0
  }

  ghost function NodesItems(items: Items): nat {
    if items.NoItem? then 0 else 1 + Nodes(items.value) + NodesItems(items.next)
  }

  ghost function NodesMembers(members: Members): nat {
    if members.NoMember? then 0 else 1 + Nodes(members.value) + NodesMembers(members.next)
  }

  // ----- Numbers -----

  predicate IsDigit(c: char) { '0' <= c <= '9' }

  function DigitOf(n: nat): (c: char)
    requires n < 10
    ensures IsDigit(c)
  {
    Byte('0' as int + n)
  }

  function ValueOf(c: char): nat
    requires IsDigit(c)
  {
    c as int - '0' as int
  }

  function PrintNat(n: nat): (s: string)
    ensures s != "" && forall i :: 0 <= i < |s| ==> IsDigit(s[i])
  {
    if n < 10 then [DigitOf(n)] else PrintNat(n / 10) + [DigitOf(n % 10)]
  }

  function PrintNumber(d: real): (s: string)
    requires IsInt32(d)
  {
    if d == 0.0 then "0"
    else if d.Floor < 0 then "-" + PrintNat(-d.Floor)
    else PrintNat(d.Floor)
  }

  // Leading digits, added to `n` from the left.
  function Digits(s: string, n: real): (r: (real, string))
    ensures |r.1| <= |s|
    decreases |s|
  {
    if s != "" && IsDigit(s[0]) then Digits(s[1..], n * 10.0 + ValueOf(s[0]) as real) else (n, s)
  }

  function Exponent(s: string, n: int): (r: (int, string))
    ensures |r.1| <= |s|
    decreases |s|
  {
    if s != "" && IsDigit(s[0]) then Exponent(s[1..], n * 10 + ValueOf(s[0])) else (n, s)
  }

  // `n` times the `k`-th power of ten.
  function Scaled(n: real, k: int): real
    decreases if k < 0 then -k else k
  {
    if k == 0 then n else if k > 0 then 10.0 * Scaled(n, k - 1) else Scaled(n, k + 1) / 10.0
  }

  function Head(s: string): char { if s == "" then '\0' else s[0] }

  // The integer part; a zero may stand in front of the other digits.
  function WholePart(s: string): (r: (real, string))
    ensures |r.1| <= |s|
    ensures IsDigit(Head(s)) ==> |r.1| < |s|
  {
    var t := if Head(s) == '0' then s[1..] else s;
    if '1' <= Head(t) <= '9' then Digits(t, 0.0) else (0.0, t)
  }

  // The fraction, added to `n`, with the power of ten that it takes.
  function FracPart(s: string, n: real): (r: (real, int, string))
    ensures |r.2| <= |s|
  {
    if Head(s) == '.' && |s| >= 2 && IsDigit(s[1]) then
      var f := Digits(s[1..], n);
      (f.0, |f.1| - |s| + 1, f.1)
    else (n, 0, s)
  }

  function ExpPart(s: string): (r: (int, string))
    ensures |r.1| <= |s|
  {
    if Head(s) == 'e' || Head(s) == 'E' then
      var negative := Head(s[1..]) == '-';
      var e := Exponent(if negative || Head(s[1..]) == '+' then s[2..] else s[1..], 0);
      (if negative then -e.0 else e.0, e.1)
    else (0, s)
  }

  // Sign, integer part, fraction and exponent. A sign may stand alone. Rounding is not modelled.
  function ParseNumber(s: string): (r: Parsed<Value>)
    requires Head(s) == '-' || IsDigit(Head(s))
    ensures r.Parsed? && |r.rest| < |s|
  {
    var whole := WholePart(if s[0] == '-' then s[1..] else s);
    var fraction := FracPart(whole.1, whole.0);
    var exponent := ExpPart(fraction.2);
    Parsed(Number(Signed(s[0] == '-', Scaled(fraction.0, fraction.1 + exponent.0))), exponent.1)
  }

  function Signed(negative: bool, n: real): real { if negative then -n else n }

  // ----- Printing -----

  function Tabs(n: int): (t: string)
    ensures |t| == if n > 0 then n else 0
    ensures forall i :: 0 <= i < |t| ==> t[i] == '\t'
  {
    if n <= 0 then "" else seq(n, _ => '\t')
  }

  function If(c: bool, s: string): string { if c then s else "" }

  function Print(v: Value, depth: nat, fmt: bool): string
    requires Printable(v)
    decreases v
  {
    match v
    case Null => "null"
    case False => "false"
    case True => "true"
    case Number(d) => PrintNumber(d)
    case String(s) => PrintString(s)
    case Array(items) => "[" + PrintItems(items, depth + 1, fmt) + "]"
    case Object(NoMember) => "{" + If(fmt, "\n" + Tabs(depth - 1)) + "}"
    case Object(members) => "{" + If(fmt, "\n") + PrintMembers(members, depth + 1, fmt) + If(fmt, Tabs(depth)) + "}"
  }

  function PrintItems(items: Items, depth: nat, fmt: bool): string
    requires PrintableItems(items)
    decreases items
  {
    match items
    case NoItem => ""
    case Item(value, next) =>
      Print(value, depth, fmt) + If(next.Item?, "," + If(fmt, " ")) + PrintItems(next, depth, fmt)
  }

  function PrintMembers(members: Members, depth: nat, fmt: bool): string
    requires PrintableMembers(members)
    decreases members
  {
    match members
    case NoMember => ""
    case Member(name, value, next) =>
      If(fmt, Tabs(depth)) + PrintString(name) + ":" + If(fmt, "\t") + Print(value, depth, fmt)
      + If(next.Member?, ",") + If(fmt, "\n") + PrintMembers(next, depth, fmt)
  }

  // ----- Parsing -----

  predicate IsSpace(c: char) { 0 < c as int <= 32 }

  function Skip(s: string): (r: string)
    ensures |r| <= |s| && (r != "" ==> !IsSpace(r[0]))
    decreases |s|
  {
    if s != "" && IsSpace(s[0]) then Skip(s[1..]) else s
  }

  function ParseValue(s: string): (r: Parsed<Value>)
    ensures r.Parsed? ==> |r.rest| < |s|
    decreases |s|, 0
  {
    if "null" <= s then Parsed(Null, s[4..])
    else if "false" <= s then Parsed(False, s[5..])
    else if "true" <= s then Parsed(True, s[4..])
    else if Head(s) == '"' then
      var p := ParseString(s);
      if p.Failed? then Failed else Parsed(String(p.value), p.rest)
    else if Head(s) == '-' || IsDigit(Head(s)) then ParseNumber(s)
    else if Head(s) == '[' then
      var t := Skip(s[1..]);
      if Head(t) == ']' then Parsed(Array(NoItem), t[1..])
      else
        var p := ParseItems(t);
        if p.Failed? then Failed else Parsed(Array(p.value), p.rest)
    else if Head(s) == '{' then
      var t := Skip(s[1..]);
      if Head(t) == '}' then Parsed(Object(NoMember), t[1..])
      else
        var p := ParseMembers(t);
        if p.Failed? then Failed else Parsed(Object(p.value), p.rest)
    else Failed
  }

  // One item and those behind it, up to the closing bracket.
  function ParseItems(s: string): (r: Parsed<Items>)
    ensures r.Parsed? ==> |r.rest| < |s|
    decreases |s|, 1
  {
    var v := ParseValue(Skip(s));
    if v.Failed? then Failed
    else
      var t := Skip(v.rest);
      if Head(t) == ']' then Parsed(Item(v.value, NoItem), t[1..])
      else if Head(t) == ',' then
        var p := ParseItems(t[1..]);
        if p.Failed? then Failed else Parsed(Item(v.value, p.value), p.rest)
      else Failed
  }

  function ParseMembers(s: string): (r: Parsed<Members>)
    ensures r.Parsed? ==> |r.rest| < |s|
    decreases |s|, 1
  {
    var name := ParseString(Skip(s));
    if name.Failed? || Head(Skip(name.rest)) != ':' then Failed
    else
      var v := ParseValue(Skip(Skip(name.rest)[1..]));
      if v.Failed? then Failed
      else
        var t := Skip(v.rest);
        if Head(t) == '}' then Parsed(Member(name.value, v.value, NoMember), t[1..])
        else if Head(t) == ',' then
          var p := ParseMembers(t[1..]);
          if p.Failed? then Failed else Parsed(Member(name.value, v.value, p.value), p.rest)
        else Failed
  }

  // `cJSON_ParseWithOpts`; `whole` asks that nothing but white space follows the value.
  function Parse(s: string, whole: bool): (r: Parsed<Value>) {
    var p := ParseValue(Skip(s));
    if p.Failed? || (whole && Skip(p.rest) != "") then Failed
    else Parsed(p.value, if whole then Skip(p.rest) else p.rest)
  }

  // ----- What ends a number -----

  // What follows a number does not continue it.
  predicate Delimits(rest: string) {
    !IsDigit(Head(rest)) && Head(rest) != '.' && Head(rest) != 'e' && Head(rest) != 'E'
  }
}
