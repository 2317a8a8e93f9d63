/**
 What the printer writes is a text of the grammar that stands for the value printed, so parsing it
 gives the value back and consumes exactly the printed text, formatted or not, at every depth
 (cJSON.cpp:192-307, 357-369 and 406-658).
 */
module JsonRoundTrip {
  import opened JsonString
  import opened Json
  import opened JsonGrammar
  import Sequences

  // ----- The layout of the printed text -----

  function Layout(v: Value, depth: nat, fmt: bool): Syntax
    requires Printable(v)
    decreases v
  {
    match v
    case Null => NullText
    case False => FalseText
    case True => TrueText
    case Number(d) => NumberText(Numeral(d < 0.0, PrintNat(if d < 0.0 then -d.Floor else d.Floor), "", NoExp))
    case String(s) => StringText(Pieces(s))
    case Array(items) => ArrayText("", LayoutItems(items, depth + 1, fmt, ""))
    case Object(NoMember) => ObjectText(If(fmt, "\n" + Tabs(depth - 1)), NoField)
    case Object(members) => ObjectText("", LayoutMembers(members, depth + 1, fmt))
  }

  // An item starts on the same line, behind one space if it is not the first.
  function LayoutItems(items: Items, depth: nat, fmt: bool, lead: string): Elements
    requires PrintableItems(items)
    decreases items
  {
    match items
    case NoItem => NoElement
    case Item(value, next) =>
      Element(lead, Layout(value, depth, fmt), "", LayoutItems(next, depth, fmt, If(fmt, " ")))
  }

  // A member starts on a line of its own, one tab further in; so does the closing brace, one back.
  function LayoutMembers(members: Members, depth: nat, fmt: bool): Fields
    requires PrintableMembers(members)
    decreases members
  {
    match members
    case NoMember => NoField
    case Member(name, value, next) =>
      Field(If(fmt, "\n" + Tabs(depth)), Pieces(name), "", If(fmt, "\t"), Layout(value, depth, fmt),
            if next.NoMember? then If(fmt, "\n" + Tabs(depth - 1)) else "", LayoutMembers(next, depth, fmt))
  }

  lemma LeafIsPrinted(v: Value, depth: nat, fmt: bool, rest: string)
    requires Printable(v) && !v.Array? && !v.Object?
    ensures TextOf(Layout(v, depth, fmt), rest) == Print(v, depth, fmt) + rest
  {
    match v
    case Number(d) => NumberIsPrinted(d, rest);
    case String(s) => StringIsPrinted(s, rest);
    case _ =>
  }

  lemma NumberIsPrinted(d: real, rest: string)
    requires IsInt32(d)
    ensures TextOf(Layout(Number(d), 0, false), rest) == PrintNumber(d) + rest
  {
    var digits := PrintNat(if d < 0.0 then -d.Floor else d.Floor);
    assert d.Floor < 0 <==> d < 0.0;
    assert ("-" + digits) + rest == "-" + (digits + rest) && "" + (digits + rest) == digits + rest;
  }

  lemma StringIsPrinted(s: string, rest: string)
    requires IsText(s)
    ensures StringOf(Pieces(s), rest) == PrintString(s) + rest
  {
    var t := Text(Pieces(s));
    assert "\"" + (t + ("\"" + rest)) == ("\"" + t + "\"") + rest;
  }

  lemma {:induction false} ItemsArePrinted(items: Items, depth: nat, fmt: bool, lead: string, rest: string)
    requires items.Item? && PrintableItems(items)
    ensures ElementsText(LayoutItems(items, depth, fmt, lead), rest) == lead + (PrintItems(items, depth, fmt) + rest)
    decreases items, 0
  {
    var next := items.next;
    var tail := ElementsTail(LayoutItems(next, depth, fmt, If(fmt, " ")), rest);
    assert "" + tail == tail;
    LayoutIsPrinted(items.value, depth, fmt, tail);
    if next.Item? {
      ItemsArePrinted(next, depth, fmt, If(fmt, " "), rest);
      CommaIsPrinted(Print(items.value, depth, fmt), If(fmt, " "), PrintItems(next, depth, fmt), rest);
    } else {
      assert Print(items.value, depth, fmt) + "" + "" == Print(items.value, depth, fmt);
    }
  }

  lemma CommaIsPrinted(text: string, space: string, more: string, rest: string)
    ensures text + ("," + (space + (more + rest))) == (text + ("," + space) + more) + rest
  {
  }

  lemma {:induction false} MembersArePrinted(members: Members, depth: nat, fmt: bool, rest: string)
    requires members.Member? && PrintableMembers(members)
    ensures FieldsText(LayoutMembers(members, depth, fmt), rest)
         == If(fmt, "\n") + (PrintMembers(members, depth, fmt) + (If(fmt, Tabs(depth - 1)) + rest))
    decreases members, 0
  {
    var next, fields := members.next, LayoutMembers(members, depth, fmt);
    var behind := fields.after + FieldsTail(fields.next, rest);
    var close := If(fmt, Tabs(depth - 1)) + rest;
    LayoutIsPrinted(members.value, depth, fmt, behind);
    if next.Member? {
      MembersArePrinted(next, depth, fmt, rest);
      assert behind == "" + ("," + FieldsText(fields.next, rest)) == "," + FieldsText(fields.next, rest);
    } else {
      LastIsClosed(fmt, depth, rest);
      assert LayoutMembers(next, depth, fmt) == NoField && PrintMembers(next, depth, fmt) == "";
    }
    assert behind == If(next.Member?, ",") + (If(fmt, "\n") + (PrintMembers(next, depth, fmt) + close));
    MemberIsPrinted(members, depth, fmt, behind, close);
  }

  lemma LastIsClosed(fmt: bool, depth: nat, rest: string)
    ensures If(fmt, "\n" + Tabs(depth - 1)) + rest == "" + (If(fmt, "\n") + ("" + (If(fmt, Tabs(depth - 1)) + rest)))
  {
    var tabs := Tabs(depth - 1);
    assert ("\n" + tabs) + rest == "\n" + (tabs + rest) == "\n" + ("" + (tabs + rest));
  }

  // One member, from the line break in front of it to what stands behind its value.
  lemma MemberIsPrinted(members: Members, depth: nat, fmt: bool, behind: string, close: string)
    requires members.Member? && PrintableMembers(members)
    requires behind == If(members.next.Member?, ",")
                       + (If(fmt, "\n") + (PrintMembers(members.next, depth, fmt) + close))
    ensures If(fmt, "\n" + Tabs(depth))
            + StringOf(Pieces(members.name), "" + (":" + (If(fmt, "\t") + (Print(members.value, depth, fmt) + behind))))
         == If(fmt, "\n") + (PrintMembers(members, depth, fmt) + close)
  {
    var value := ":" + (If(fmt, "\t") + (Print(members.value, depth, fmt) + behind));
    assert "" + value == value;
    StringIsPrinted(members.name, value);
    BreakThenTabs(fmt, depth, PrintString(members.name) + value);
    Rearrange(If(fmt, Tabs(depth)), PrintString(members.name), If(fmt, "\t"), Print(members.value, depth, fmt),
              If(members.next.Member?, ","), If(fmt, "\n"), PrintMembers(members.next, depth, fmt), close);
  }

  lemma BreakThenTabs(fmt: bool, depth: nat, s: string)
    ensures If(fmt, "\n" + Tabs(depth)) + s == If(fmt, "\n") + (If(fmt, Tabs(depth)) + s)
  {
    assert ("\n" + Tabs(depth)) + s == "\n" + (Tabs(depth) + s);
    assert "" + s == s == "" + ("" + s);
  }

  lemma Rearrange(a: string, b: string, c: string, d: string, e: string, f: string, g: string, h: string)
    ensures (a + b + ":" + c + d + e + f + g) + h == a + (b + (":" + (c + (d + (e + (f + (g + h)))))))
  {
  }

  // The printed text is the text of its layout.
  lemma {:induction false} LayoutIsPrinted(v: Value, depth: nat, fmt: bool, rest: string)
    requires Printable(v)
    ensures TextOf(Layout(v, depth, fmt), rest) == Print(v, depth, fmt) + rest
    decreases v, 1
  {
    match v
    case Array(items) => ArrayIsPrinted(items, depth, fmt, rest);
    case Object(members) => ObjectIsPrinted(members, depth, fmt, rest);
    case _ => LeafIsPrinted(v, depth, fmt, rest);
  }

  lemma {:induction false} ArrayIsPrinted(items: Items, depth: nat, fmt: bool, rest: string)
    requires PrintableItems(items)
    ensures TextOf(Layout(Array(items), depth, fmt), rest) == Print(Array(items), depth, fmt) + rest
    decreases items, 1
  {
    var text := PrintItems(items, depth + 1, fmt);
    if items.Item? {
      ItemsArePrinted(items, depth + 1, fmt, "", "]" + rest);
    }
    assert ("[" + text + "]") + rest == "[" + ("" + ("" + (text + ("]" + rest))));
    assert "" + ("]" + rest) == "" + ("" + ("" + ("]" + rest)));
  }

  lemma {:induction false} ObjectIsPrinted(members: Members, depth: nat, fmt: bool, rest: string)
    requires PrintableMembers(members)
    ensures TextOf(Layout(Object(members), depth, fmt), rest) == Print(Object(members), depth, fmt) + rest
    decreases members, 1
  {
    if members.NoMember? {
      var blank := If(fmt, "\n" + Tabs(depth - 1));
      assert ("{" + blank + "}") + rest == "{" + (blank + ("}" + rest));
    } else {
      MembersArePrinted(members, depth + 1, fmt, "}" + rest);
      var text, tabs := PrintMembers(members, depth + 1, fmt), If(fmt, Tabs(depth));
      assert depth + 1 - 1 == depth;
      FiveParts("{", If(fmt, "\n"), text, tabs, rest);
    }
  }

  lemma FiveParts(a: string, b: string, c: string, d: string, rest: string)
    ensures (a + b + c + d + "}") + rest == a + ("" + (b + (c + (d + ("}" + rest)))))
  {
  }

  // ----- What the layout stands for -----

  lemma {:induction false} NatIsPrinted(n: nat)
    ensures AllDigits(PrintNat(n)) && DigitsNumber(PrintNat(n)) == n
    ensures PrintNat(n)[0] == '0' ==> PrintNat(n) == "0"
  {
    if n < 10 {
      assert DigitsNumber("") == 0 && PrintNat(n)[..0] == "";
    } else {
      NatIsPrinted(n / 10);
      var s := PrintNat(n);
      assert s[..|s| - 1] == PrintNat(n / 10);
    }
  }

  lemma NumberIsMeant(d: real)
    requires IsInt32(d)
    ensures var y := Layout(Number(d), 0, false); Valid(y) && Meaning(y) == Number(d)
  {
    NatIsPrinted(if d < 0.0 then -d.Floor else d.Floor);
    assert DigitsNumber("") == 0;
  }

  lemma StringIsMeant(s: string)
    requires IsText(s)
    ensures AllValid(Pieces(s)) && Bytes(Pieces(s)) == s
  {
    PiecesStandForText(s);
  }

  lemma IndentIsWhite(depth: int)
    ensures White("\n" + Tabs(depth))
  {
  }

  // The layout is a text of the grammar, and it stands for the value.
  lemma {:induction false} LayoutIsMeant(v: Value, depth: nat, fmt: bool)
    requires Printable(v)
    ensures Valid(Layout(v, depth, fmt)) && Meaning(Layout(v, depth, fmt)) == v
    decreases v
  {
    match v
    case Number(d) => NumberIsMeant(d);
    case String(s) => StringIsMeant(s);
    case Array(items) => ItemsAreMeant(items, depth + 1, fmt, "");
    case Object(members) =>
      IndentIsWhite(depth - 1);
      MembersAreMeant(members, depth + 1, fmt);
    case _ =>
  }

  lemma {:induction false} ItemsAreMeant(items: Items, depth: nat, fmt: bool, lead: string)
    requires PrintableItems(items) && White(lead)
    ensures var es := LayoutItems(items, depth, fmt, lead); ValidElements(es) && ItemsOf(es) == items
    decreases items
  {
    if items.NoItem? {
    } else {
      LayoutIsMeant(items.value, depth, fmt);
      ItemsAreMeant(items.next, depth, fmt, If(fmt, " "));
    }
  }

  lemma {:induction false} MembersAreMeant(members: Members, depth: nat, fmt: bool)
    requires PrintableMembers(members)
    ensures var fs := LayoutMembers(members, depth, fmt); ValidFields(fs) && MembersOf(fs) == members
    decreases members
  {
    if members.NoMember? {
    } else {
      IndentIsWhite(depth);
      IndentIsWhite(depth - 1);
      StringIsMeant(members.name);
      LayoutIsMeant(members.value, depth, fmt);
      MembersAreMeant(members.next, depth, fmt);
    }
  }

  // No white space outside strings.
  ghost predicate Compact(y: Syntax)
    decreases y
  {
    match y
    case ArrayText(blank, elements) => blank == "" && CompactElements(elements)
    case ObjectText(blank, fields) => blank == "" && CompactFields(fields)
    case _ => true
  }

  ghost predicate CompactElements(es: Elements)
    decreases es
  {
    es.Element? ==> es.lead == "" == es.after && Compact(es.value) && CompactElements(es.next)
  }

  ghost predicate CompactFields(fs: Fields)
    decreases fs
  {
    fs.Field? ==> fs.lead == "" == fs.before == fs.behind == fs.after && Compact(fs.value) && CompactFields(fs.next)
  }

  lemma {:induction false} UnformattedIsCompact(v: Value, depth: nat)
    requires Printable(v)
    ensures Compact(Layout(v, depth, false))
    decreases v
  {
    match v
    case Array(items) => ItemsAreCompact(items, depth + 1);
    case Object(members) => MembersAreCompact(members, depth + 1);
    case _ =>
  }

  lemma {:induction false} ItemsAreCompact(items: Items, depth: nat)
    requires PrintableItems(items)
    ensures CompactElements(LayoutItems(items, depth, false, ""))
    decreases items
  {
    if items.NoItem? {
    } else {
      UnformattedIsCompact(items.value, depth);
      ItemsAreCompact(items.next, depth);
    }
  }

  lemma {:induction false} MembersAreCompact(members: Members, depth: nat)
    requires PrintableMembers(members)
    ensures CompactFields(LayoutMembers(members, depth, false))
    decreases members
  {
    if members.NoMember? {
    } else {
      UnformattedIsCompact(members.value, depth);
      MembersAreCompact(members.next, depth);
    }
  }

  // The printed text is a JSON text that stands for the value printed; unformatted, it has no white
  // space outside strings.
  lemma PrintedIsJson(v: Value, depth: nat, fmt: bool) returns (y: Syntax)
    requires Printable(v)
    ensures Valid(y) && Meaning(y) == v && TextOf(y, "") == Print(v, depth, fmt) && (!fmt ==> Compact(y))
  {
    y := Layout(v, depth, fmt);
    LayoutIsMeant(v, depth, fmt);
    LayoutIsPrinted(v, depth, fmt, "");
    assert Print(v, depth, fmt) + "" == Print(v, depth, fmt);
    if !fmt {
      UnformattedIsCompact(v, depth);
    }
  }

  // ----- The round trip -----

  // Every 32-bit integer is printed, and read back, whatever delimiter follows.
  lemma NumberRoundTrip(k: int, rest: string)
    requires -0x8000_0000 <= k < 0x8000_0000 && Delimits(rest)
    ensures IsInt32(k as real)
    ensures var s := PrintNumber(k as real) + rest;
            (Head(s) == '-' || IsDigit(Head(s))) && ParseNumber(s) == Parsed(Number(k as real), rest)
  {
    var y := Layout(Number(k as real), 0, false);
    NumberIsPrinted(k as real, rest);
    NumberIsMeant(k as real);
    NumeralIsRead(y.n, rest);
  }

  lemma ValueRoundTrip(v: Value, depth: nat, fmt: bool, rest: string)
    requires Printable(v) && Delimits(rest)
    ensures ParseValue(Print(v, depth, fmt) + rest) == Parsed(v, rest)
  {
    LayoutIsMeant(v, depth, fmt);
    LayoutIsPrinted(v, depth, fmt, rest);
    ValueIsRead(Layout(v, depth, fmt), rest);
  }

  // `cJSON_Parse` of the text of `cJSON_Print` or `cJSON_PrintUnformatted` returns the same tree
  // and leaves nothing, whether or not the whole text has to be consumed.
  lemma RoundTrip(v: Value, fmt: bool, whole: bool)
    requires Printable(v)
    ensures Parse(Print(v, 0, fmt), whole) == Parsed(v, "")
  {
    var y := PrintedIsJson(v, 0, fmt);
    TextIsParsed("", y, "", whole);
    assert "" + TextOf(y, "") == TextOf(y, "");
  }

  // Different values never print alike.
  lemma PrintIsInjective(v: Value, w: Value, fmt: bool, fmt': bool)
    requires Printable(v) && Printable(w) && Print(v, 0, fmt) == Print(w, 0, fmt')
    ensures v == w
  {
    RoundTrip(v, fmt, true);
    RoundTrip(w, fmt', true);
  }
}
