/**
 Printing into one growing buffer (`cJSON_PrintBuffered`, `ensure` and `update`, cJSON.cpp:119-144,
 255-307, 345-353, 367-405 and 434-658): every write stays inside the space that `ensure` granted,
 and the buffer ends up holding the text of the plain printer.
 */
module JsonBuffer {
  import opened JsonString
  import opened Json
  import PowerOfTwo

  // Sizes up to which `pow2gt` stays within 32 bits.
  const MAX_SIZE: nat := 0x4000_0000

  // More than the printer ever asks for beyond the text it is about to write.
  const SLACK: nat := 24

  ghost predicate NoNul(t: string) {
    forall i :: 0 <= i < |t| ==> t[i] != '\0'
  }

  method NewSize(needed: nat) returns (newsize: nat)
    requires 1 <= needed <= MAX_SIZE
    ensures newsize == PowerOfTwo.Pow2gt(needed) >= needed
  {
    PowerOfTwo.Pow2gtIsLeast(needed);
    newsize := PowerOfTwo.Pow2gt(needed);
  }

  // ----- The space that strings and numbers need -----

  lemma {:induction false} TextAppend(pieces: seq<Piece>, p: Piece)
    ensures JsonString.Text(pieces + [p]) == JsonString.Text(pieces) + p.Text()
    decreases |pieces|
  {
    if pieces == [] {
      assert [p][1..] == [];
      assert p.Text() + "" == p.Text();
    } else {
      assert (pieces + [p])[1..] == pieces[1..] + [p];
      TextAppend(pieces[1..], p);
    }
  }

  // What is printed of the first `i` characters, and of one more.
  ghost function Printed(s: string, i: nat): string
    requires IsText(s) && i <= |s|
  {
    JsonString.Text(Pieces(s[..i]))
  }

  lemma OneMore(s: string, i: nat)
    requires IsText(s) && i < |s|
    ensures Printed(s, i + 1) == Printed(s, i) + Escaped(s[i]).Text()
  {
    assert Pieces(s[..i + 1]) == Pieces(s[..i]) + [Escaped(s[i])];
    TextAppend(Pieces(s[..i]), Escaped(s[i]));
  }

  lemma {:induction false} Longer(s: string, i: nat)
    requires IsText(s) && i <= |s|
    ensures |Printed(s, i)| <= |Printed(s, |s|)|
    decreases |s| - i
  {
    if i == |s| {
    } else {
      OneMore(s, i);
      Longer(s, i + 1);
    }
  }

  // What the first loop of `print_string_ptr` looks for.
  predicate NeedsEscape(c: char) { 0 < c as int < 32 || c == '"' || c == '\\' }

  lemma {:induction false} PlainText(s: string, i: nat)
    requires IsText(s) && i <= |s| && forall j :: 0 <= j < |s| ==> !NeedsEscape(s[j])
    ensures Printed(s, i) == s[..i]
    decreases i
  {
    if i == 0 {
    } else {
      PlainText(s, i - 1);
      OneMore(s, i - 1);
      assert s[..i] == s[..i - 1] + [s[i - 1]];
    }
  }

  lemma {:induction false} NatLength(n: nat, digits: nat, bound: nat)
    requires digits >= 1 && n < bound && bound <= Power10(digits)
    ensures |PrintNat(n)| <= digits
    decreases digits
  {
    if n < 10 {
    } else {
      NatLength(n / 10, digits - 1, Power10(digits - 1));
    }
  }

  ghost function Power10(k: nat): nat { if k == 0 then 1 else 10 * Power10(k - 1) }

  lemma NumberLength(d: real)
    requires IsInt32(d)
    ensures |PrintNumber(d)| <= 11
  {
    assert Power10(5) == 100_000;
    assert Power10(10) == 100_000 * 100_000;
    if d.Floor < 0 {
      NatLength(-d.Floor, 10, Power10(10));
    } else {
      NatLength(d.Floor, 10, Power10(10));
    }
  }

  class PrintBuffer {
    var buffer: array<char>
    var length: nat
    var offset: nat

    ghost predicate Valid()
      reads this
    {
      length == buffer.Length && offset <= length
    }

    // What is finished.
    ghost function Text(): string
      requires Valid()
      reads this, buffer
    {
      buffer[..offset]
    }

    // The buffer is a C string that reads `t`.
    ghost predicate Shows(t: string)
      requires Valid()
      reads this, buffer
    {
      offset <= |t| < length && buffer[..|t|] == t && buffer[|t|] == '\0'
    }

    constructor (prebuffer: nat)
      ensures Valid() && Text() == "" && offset == 0 && fresh(buffer)
    {
      buffer := new char[prebuffer];
      length, offset := prebuffer, 0;
    }

    // Room for `needed` more characters.
    method Ensure(needed: nat)
      requires Valid() && offset + needed <= MAX_SIZE
      modifies this`buffer, this`length
      ensures Valid() && offset + needed <= length
      ensures Text() == old(Text())
      ensures buffer == old(buffer) || fresh(buffer)
    {
      if offset + needed <= length {
        return;
      }
      var newsize := NewSize(offset + needed);
      var newbuffer := new char[newsize];
      forall i | 0 <= i < length {
        newbuffer[i] := buffer[i];
      }
      length := newsize;
      buffer := newbuffer;
    }

    method WriteAt(ptr: nat, text: string, ghost before: string) returns (end: nat)
      requires Valid() && offset <= ptr && ptr + |text| <= length && buffer[..ptr] == before
      modifies buffer
      ensures end == ptr + |text| && buffer[..end] == before + text
      ensures Text() == old(Text())
    {
      end := ptr + |text|;
      forall i | 0 <= i < |text| {
        buffer[ptr + i] := text[i];
      }
      assert buffer[..ptr] == before;
      assert buffer[ptr..end] == text;
      assert buffer[..end] == buffer[..ptr] + buffer[ptr..end];
      assert buffer[..offset] == before[..offset];
    }

    // Characters behind the finished text, with and without a terminator.
    method Put(text: string)
      requires Valid() && offset + |text| < length
      modifies buffer
      ensures Text() == old(Text()) && Shows(old(Text()) + text)
    {
      var end := WriteAt(offset, text, Text());
      Terminate(end, Text() + text);
    }

    method Terminate(end: nat, ghost t: string)
      requires Valid() && offset <= end == |t| < length && buffer[..end] == t
      modifies buffer
      ensures Text() == old(Text()) && Shows(t)
    {
      buffer[end] := '\0';
    }

    // `strlen` from `from` on, for a buffer that reads `t`.
    method FindEnd(from: nat, ghost t: string) returns (end: nat)
      requires Valid() && Shows(t) && from <= |t| && NoNul(t[from..])
      ensures end == |t|
    {
      end := from;
      forall i | from <= i < |t|
        ensures buffer[i] != '\0'
      {
        assert buffer[..|t|][i] == t[from..][i - from];
      }
      while buffer[end] != '\0'
        invariant from <= end <= |t|
        decreases |t| - end
      {
        end := end + 1;
      }
    }

    // Move to the terminator's place.
    method Update(ghost t: string)
      requires Valid() && Shows(t) && NoNul(t[offset..])
      modifies this`offset
      ensures Valid() && offset == |t| && Text() == t
    {
      offset := FindEnd(offset, t);
    }

    method CString(from: nat, ghost t: string) returns (s: string)
      requires Valid() && Shows(t) && from <= |t| && NoNul(t[from..])
      ensures s == t[from..]
    {
      var end := FindEnd(from, t);
      s := buffer[from..end];
      assert s == buffer[..end][from..];
    }

    // ----- Strings -----

    method PrintStringPtr(s: string) returns (out: nat)
      requires Valid() && IsText(s) && offset + |PrintString(s)| + SLACK <= MAX_SIZE
      modifies this`buffer, this`length, buffer
      ensures Valid() && out == offset && Text() == old(Text()) && Shows(old(Text()) + PrintString(s))
      ensures buffer == old(buffer) || fresh(buffer)
    {
      out := offset;
      assert s[..|s|] == s;
      var flag := FindEscape(s);
      if !flag {
        PlainText(s, |s|);
        Ensure(|s| + 3);
        Put("\"" + s + "\"");
        return;
      }
      var len := EscapedLength(s);
      Ensure(len + 3);
      WriteEscaped(s);
    }

    // The last loop: character by character, behind the opening quote.
    method WriteEscaped(s: string)
      requires Valid() && IsText(s) && offset + |PrintString(s)| < length
      modifies buffer
      ensures Text() == old(Text()) && Shows(old(Text()) + PrintString(s))
    {
      ghost var base := Text();
      Opened(base, s);
      var ptr := WriteAt(offset, "\"", base);
      var i := 0;
      while i < |s|
        invariant i <= |s| && offset <= ptr <= length && Text() == base
        invariant Escaping(buffer[..ptr], base, s, i)
      {
        EscapeOne(buffer[..ptr], base, s, i);
        ptr := WriteAt(ptr, Escaped(s[i]).Text(), buffer[..ptr]);
        i := i + 1;
      }
      EscapingEnds(buffer[..ptr], base, s);
      ptr := WriteAt(ptr, "\"", buffer[..ptr]);
      Terminate(ptr, base + PrintString(s));
    }

    // ----- Values -----

    method PrintNumberInto(d: real) returns (out: nat)
      requires Valid() && IsInt32(d) && offset + |PrintNumber(d)| + SLACK <= MAX_SIZE
      modifies this`buffer, this`length, buffer
      ensures Valid() && out == offset == old(offset) && Shows(old(Text()) + PrintNumber(d))
      ensures buffer == old(buffer) || fresh(buffer)
    {
      NumberLength(d);
      out := offset;
      if d == 0.0 {
        Ensure(2);
        Put("0");
      } else {
        Ensure(21);
        Put(PrintNumber(d));
      }
    }

    // Keywords, and the text of a container without children.
    method PutLeaf(text: string, needed: nat) returns (out: nat)
      requires Valid() && |text| < needed <= |text| + SLACK && offset + needed <= MAX_SIZE
      modifies this`buffer, this`length, buffer
      ensures Valid() && out == offset == old(offset) && Shows(old(Text()) + text)
      ensures buffer == old(buffer) || fresh(buffer)
    {
      out := offset;
      Ensure(needed);
      Put(text);
    }

    method PrintValue(v: Value, depth: nat, fmt: bool) returns (out: nat)
      requires Valid() && Printable(v) && offset + |Print(v, depth, fmt)| + SLACK <= MAX_SIZE
      modifies this, buffer
      ensures Valid() && out == old(offset) <= offset && Shows(old(Text()) + Print(v, depth, fmt))
      ensures buffer == old(buffer) || fresh(buffer)
      decreases Nodes(v), 1
    {
      match v
      case Array(Item(_, _)) => out := PrintArray(v.items, depth, fmt);
      case Object(Member(_, _, _)) => out := PrintObject(v.members, depth, fmt);
      case _ => out := PrintLeaf(v, depth, fmt);
    }

    method PrintLeaf(v: Value, depth: nat, fmt: bool) returns (out: nat)
      requires Valid() && Printable(v) && offset + |Print(v, depth, fmt)| + SLACK <= MAX_SIZE
      requires (v.Array? ==> v.items.NoItem?) && (v.Object? ==> v.members.NoMember?)
      modifies this`buffer, this`length, buffer
      ensures Valid() && out == offset == old(offset) && Shows(old(Text()) + Print(v, depth, fmt))
      ensures buffer == old(buffer) || fresh(buffer)
    {
      match v
      case Null => out := PutLeaf("null", 5);
      case False => out := PutLeaf("false", 6);
      case True => out := PutLeaf("true", 5);
      case Number(d) => out := PrintNumberInto(d);
      case String(s) => out := PrintStringPtr(s);
      case Array(_) => out := PutLeaf("[]", 3);
      case Object(_) => out := PutLeaf(Print(v, depth, fmt), if fmt then depth + 4 else 3);
    }

    method PrintArray(items: Items, depth: nat, fmt: bool) returns (out: nat)
      requires Valid() && items.Item? && Printable(Array(items))
      requires offset + |Print(Array(items), depth, fmt)| + SLACK <= MAX_SIZE
      modifies this, buffer
      ensures Valid() && out == old(offset) <= offset && Shows(old(Text()) + Print(Array(items), depth, fmt))
      ensures buffer == old(buffer) || fresh(buffer)
      decreases NodesItems(items), 1
    {
      out := offset;
      ghost var base := Text();
      ListingStarts(base, items, depth, fmt);
      Ensure(1);
      offset := WriteAt(offset, "[", base);
      var child := items;
      while child.Item?
        invariant Valid() && out <= offset && NodesItems(child) <= NodesItems(items)
        invariant buffer == old(buffer) || fresh(buffer)
        invariant Listing(Text(), base, items, child, depth, fmt)
        decreases child
      {
        ListingStep(Text(), base, items, child, depth, fmt);
        PrintItem(child, depth + 1, fmt);
        child := child.next;
      }
      ListingEnds(Text(), base, items, depth, fmt);
      Ensure(2);
      Put("]");
    }

    // One turn of the loop.
    method PrintItem(child: Items, depth: nat, fmt: bool)
      requires Valid() && child.Item? && Printable(child.value)
      requires offset + |ItemText(child, depth, fmt)| + SLACK <= MAX_SIZE
      modifies this, buffer
      ensures Valid() && old(offset) <= offset && Text() == old(Text()) + ItemText(child, depth, fmt)
      ensures buffer == old(buffer) || fresh(buffer)
      decreases NodesItems(child), 0
    {
      PrintAppended(child.value, depth, fmt);
      if child.next.Item? {
        Append(if fmt then ", " else ",");
      }
    }

    method PrintObject(members: Members, depth: nat, fmt: bool) returns (out: nat)
      requires Valid() && members.Member? && Printable(Object(members))
      requires offset + |Print(Object(members), depth, fmt)| + SLACK <= MAX_SIZE
      modifies this, buffer
      ensures Valid() && out == old(offset) <= offset && Shows(old(Text()) + Print(Object(members), depth, fmt))
      ensures buffer == old(buffer) || fresh(buffer)
      decreases NodesMembers(members), 2
    {
      out := offset;
      ghost var base := Text();
      NamingStarts(base, members, depth, fmt);
      Append(if fmt then "{\n" else "{");
      PrintAllMembers(members, depth, fmt, base);
      NamingEnds(Text(), base, members, depth, fmt);
      Ensure(if fmt then depth + 2 else 2);
      Put(If(fmt, Tabs(depth)) + "}");
    }

    method PrintAllMembers(members: Members, depth: nat, fmt: bool, ghost base: string)
      requires Valid() && Naming(Text(), base, members, members, depth, fmt)
      modifies this, buffer
      ensures Valid() && old(offset) <= offset && Naming(Text(), base, members, NoMember, depth, fmt)
      ensures buffer == old(buffer) || fresh(buffer)
      decreases NodesMembers(members), 1
    {
      var child := members;
      while child.Member?
        invariant Valid() && old(offset) <= offset && NodesMembers(child) <= NodesMembers(members)
        invariant buffer == old(buffer) || fresh(buffer)
        invariant Naming(Text(), base, members, child, depth, fmt)
        decreases child
      {
        NamingStep(Text(), base, members, child, depth, fmt);
        PrintMember(child, depth + 1, fmt);
        child := child.next;
      }
    }

    method PrintMember(child: Members, depth: nat, fmt: bool)
      requires Valid() && child.Member? && IsText(child.name) && Printable(child.value)
      requires offset + |MemberText(child, depth, fmt)| + SLACK <= MAX_SIZE
      modifies this, buffer
      ensures Valid() && old(offset) <= offset && Text() == old(Text()) + MemberText(child, depth, fmt)
      ensures buffer == old(buffer) || fresh(buffer)
      decreases NodesMembers(child), 0
    {
      ghost var before := Text();
      ghost var indent := If(fmt, Tabs(depth));
      var colon := if fmt then ":\t" else ":";
      var comma := If(child.next.Member?, ",") + If(fmt, "\n");
      MemberParts(before, child, depth, fmt);
      Indent(depth, fmt);
      assert Text() == before + indent;
      PrintName(child.name);
      AppendRaw(colon);
      assert Text() == before + indent + PrintString(child.name) + colon;
      PrintAppended(child.value, depth, fmt);
      Append(comma);
    }

    method Indent(depth: nat, fmt: bool)
      requires Valid() && offset + |If(fmt, Tabs(depth))| <= MAX_SIZE
      modifies this, buffer
      ensures Valid() && offset == old(offset) + |If(fmt, Tabs(depth))| && Text() == old(Text()) + If(fmt, Tabs(depth))
      ensures buffer == old(buffer) || fresh(buffer)
    {
      if fmt {
        AppendRaw(Tabs(depth));
      }
    }

    method PrintAppended(v: Value, depth: nat, fmt: bool)
      requires Valid() && Printable(v) && offset + |Print(v, depth, fmt)| + SLACK <= MAX_SIZE
      modifies this, buffer
      ensures Valid() && offset == old(offset) + |Print(v, depth, fmt)| && Text() == old(Text()) + Print(v, depth, fmt)
      ensures buffer == old(buffer) || fresh(buffer)
      decreases Nodes(v), 2
    {
      ghost var now := Text();
      NoNulInValue(v, depth, fmt);
      var _ := PrintValue(v, depth, fmt);
      Finish(now, Print(v, depth, fmt));
    }

    method PrintName(name: string)
      requires Valid() && IsText(name) && offset + |PrintString(name)| + SLACK <= MAX_SIZE
      modifies this, buffer
      ensures Valid() && offset == old(offset) + |PrintString(name)| && Text() == old(Text()) + PrintString(name)
      ensures buffer == old(buffer) || fresh(buffer)
    {
      ghost var now := Text();
      NoNulInString(name);
      var _ := PrintStringPtr(name);
      Finish(now, PrintString(name));
    }

    // `update` behind a printed value.
    method Finish(ghost now: string, ghost text: string)
      requires Valid() && Shows(now + text) && |now| <= offset && NoNul(text)
      modifies this`offset
      ensures Valid() && Text() == now + text
    {
      Update(now + text);
    }

    method Append(text: string)
      requires Valid() && offset + |text| + 1 <= MAX_SIZE
      modifies this, buffer
      ensures Valid() && offset == old(offset) + |text| && Text() == old(Text()) + text
      ensures buffer == old(buffer) || fresh(buffer)
    {
      Ensure(|text| + 1);
      Put(text);
      offset := offset + |text|;
    }

    // As above, without a terminator.
    method AppendRaw(text: string)
      requires Valid() && offset + |text| <= MAX_SIZE
      modifies this, buffer
      ensures Valid() && offset == old(offset) + |text| && Text() == old(Text()) + text
      ensures buffer == old(buffer) || fresh(buffer)
    {
      Ensure(|text|);
      offset := WriteAt(offset, text, Text());
    }
  }

  // The buffer while a string is written into it.
  ghost predicate Escaping(now: string, base: string, s: string, i: nat)
    requires IsText(s) && i <= |s|
  {
    now == base + ("\"" + Printed(s, i))
  }

  lemma Opened(base: string, s: string)
    requires IsText(s)
    ensures Escaping(base + "\"", base, s, 0) && |PrintString(s)| >= 2
  {
    assert "\"" + "" == "\"";
  }

  lemma EscapeOne(now: string, base: string, s: string, i: nat)
    requires IsText(s) && i < |s| && Escaping(now, base, s, i)
    ensures Escaping(now + Escaped(s[i]).Text(), base, s, i + 1)
    ensures |now| + |Escaped(s[i]).Text()| < |base| + |PrintString(s)|
  {
    OneMore(s, i);
    Grown(base, Printed(s, i), Escaped(s[i]).Text());
    Longer(s, i + 1);
    AllPrinted(s);
  }

  lemma Grown(base: string, done: string, text: string)
    ensures base + ("\"" + done) + text == base + ("\"" + (done + text))
    ensures |base + ("\"" + done)| == |base| + 1 + |done|
  {
  }

  lemma AllPrinted(s: string)
    requires IsText(s)
    ensures |PrintString(s)| == |Printed(s, |s|)| + 2
  {
    assert s[..|s|] == s;
  }

  lemma EscapingEnds(now: string, base: string, s: string)
    requires IsText(s) && Escaping(now, base, s, |s|)
    ensures now + "\"" == base + PrintString(s)
  {
    assert s[..|s|] == s;
  }

  method FindEscape(s: string) returns (flag: bool)
    ensures flag == exists j :: 0 <= j < |s| && NeedsEscape(s[j])
  {
    flag := false;
    for i := 0 to |s|
      invariant flag == exists j :: 0 <= j < i && NeedsEscape(s[j])
    {
      flag := flag || NeedsEscape(s[i]);
    }
  }

  method EscapedLength(s: string) returns (len: nat)
    requires IsText(s)
    ensures len == |Printed(s, |s|)|
  {
    len := 0;
    for i := 0 to |s|
      invariant len == |Printed(s, i)|
    {
      OneMore(s, i);
      len := len + 1;
      if s[i] in "\"\\\U{08}\U{0C}\n\r\t" {
        len := len + 1;
      } else if s[i] as int < 32 {
        len := len + 5;
      }
    }
  }

  // ----- Containers -----

  ghost function ItemText(child: Items, depth: nat, fmt: bool): string
    requires child.Item? && Printable(child.value)
  {
    Print(child.value, depth, fmt) + If(child.next.Item?, if fmt then ", " else ",")
  }

  ghost function MemberText(child: Members, depth: nat, fmt: bool): string
    requires child.Member? && IsText(child.name) && Printable(child.value)
  {
    If(fmt, Tabs(depth)) + PrintString(child.name) + (if fmt then ":\t" else ":") + Print(child.value, depth, fmt)
    + (If(child.next.Member?, ",") + If(fmt, "\n"))
  }

  // The buffer while an array is printed into it and `child` comes next.
  ghost predicate Listing(now: string, base: string, items: Items, child: Items, depth: nat, fmt: bool) {
    && PrintableItems(items) && PrintableItems(child)
    && now + (PrintItems(child, depth + 1, fmt) + "]") == base + Print(Array(items), depth, fmt)
    && |base| + |Print(Array(items), depth, fmt)| + SLACK <= MAX_SIZE
  }

  lemma ListingStarts(base: string, items: Items, depth: nat, fmt: bool)
    requires PrintableItems(items) && |base| + |Print(Array(items), depth, fmt)| + SLACK <= MAX_SIZE
    ensures Listing(base + "[", base, items, items, depth, fmt)
  {
    Enclosed(base, "[", PrintItems(items, depth + 1, fmt), "]");
  }

  lemma Enclosed(base: string, open: string, inner: string, close: string)
    ensures base + open + (inner + close) == base + (open + inner + close)
  {
  }

  lemma ListingStep(now: string, base: string, items: Items, child: Items, depth: nat, fmt: bool)
    requires child.Item? && Listing(now, base, items, child, depth, fmt)
    ensures Listing(now + ItemText(child, depth + 1, fmt), base, items, child.next, depth, fmt)
    ensures |now| + |ItemText(child, depth + 1, fmt)| + SLACK <= MAX_SIZE
  {
    ItemsSplit(child, depth + 1, fmt);
    Enclosed(now, ItemText(child, depth + 1, fmt), PrintItems(child.next, depth + 1, fmt), "]");
  }

  lemma ItemsSplit(child: Items, depth: nat, fmt: bool)
    requires child.Item? && PrintableItems(child)
    ensures PrintItems(child, depth, fmt) == ItemText(child, depth, fmt) + PrintItems(child.next, depth, fmt)
  {
    assert (if fmt then ", " else ",") == "," + If(fmt, " ");
  }

  lemma ListingEnds(now: string, base: string, items: Items, depth: nat, fmt: bool)
    requires Listing(now, base, items, NoItem, depth, fmt)
    ensures now + "]" == base + Print(Array(items), depth, fmt) && |now| + SLACK <= MAX_SIZE
  {
    assert "" + "]" == "]";
  }

  // The same for an object.
  ghost predicate Naming(now: string, base: string, members: Members, child: Members, depth: nat, fmt: bool) {
    && members.Member? && PrintableMembers(members) && PrintableMembers(child)
    && now + (PrintMembers(child, depth + 1, fmt) + (If(fmt, Tabs(depth)) + "}"))
       == base + Print(Object(members), depth, fmt)
    && |base| + |Print(Object(members), depth, fmt)| + SLACK <= MAX_SIZE
  }

  lemma NamingStarts(base: string, members: Members, depth: nat, fmt: bool)
    requires members.Member? && PrintableMembers(members)
    requires |base| + |Print(Object(members), depth, fmt)| + SLACK <= MAX_SIZE
    ensures Naming(base + (if fmt then "{\n" else "{"), base, members, members, depth, fmt)
    ensures |base| + 3 <= MAX_SIZE
  {
    ObjectParts(members, depth, fmt);
    Enclosed(base, if fmt then "{\n" else "{", PrintMembers(members, depth + 1, fmt), If(fmt, Tabs(depth)) + "}");
  }

  lemma ObjectParts(members: Members, depth: nat, fmt: bool)
    requires members.Member? && PrintableMembers(members)
    ensures Print(Object(members), depth, fmt)
         == (if fmt then "{\n" else "{") + PrintMembers(members, depth + 1, fmt) + (If(fmt, Tabs(depth)) + "}")
  {
    assert (if fmt then "{\n" else "{") == "{" + If(fmt, "\n");
    Enclosed("", "{" + If(fmt, "\n") + PrintMembers(members, depth + 1, fmt), If(fmt, Tabs(depth)), "}");
  }

  lemma MemberParts(before: string, child: Members, depth: nat, fmt: bool)
    requires child.Member? && IsText(child.name) && Printable(child.value)
    ensures var indent, name, colon := If(fmt, Tabs(depth)), PrintString(child.name), if fmt then ":\t" else ":";
            var value, comma := Print(child.value, depth, fmt), If(child.next.Member?, ",") + If(fmt, "\n");
            && |MemberText(child, depth, fmt)| == |indent| + |name| + |colon| + |value| + |comma|
            && before + MemberText(child, depth, fmt) == before + indent + name + colon + value + comma
            && |comma| <= 2
  {
    FromLeft(before, If(fmt, Tabs(depth)), PrintString(child.name), if fmt then ":\t" else ":",
             Print(child.value, depth, fmt), If(child.next.Member?, ",") + If(fmt, "\n"));
  }

  lemma FromLeft(s: string, a: string, b: string, c: string, d: string, e: string)
    ensures s + (a + b + c + d + e) == s + a + b + c + d + e
  {
  }

  lemma MembersSplit(child: Members, depth: nat, fmt: bool)
    requires child.Member? && PrintableMembers(child)
    ensures PrintMembers(child, depth, fmt) == MemberText(child, depth, fmt) + PrintMembers(child.next, depth, fmt)
  {
    var indent, name, tab := If(fmt, Tabs(depth)), PrintString(child.name), If(fmt, "\t");
    assert (if fmt then ":\t" else ":") == ":" + tab;
    MemberGrouped(indent, name, tab, Print(child.value, depth, fmt), If(child.next.Member?, ","), If(fmt, "\n"),
                  PrintMembers(child.next, depth, fmt));
  }

  lemma MemberGrouped(a: string, b: string, c: string, d: string, e: string, f: string, g: string)
    ensures a + b + ":" + c + d + e + f + g == (a + b + (":" + c) + d + (e + f)) + g
  {
  }

  lemma NamingStep(now: string, base: string, members: Members, child: Members, depth: nat, fmt: bool)
    requires child.Member? && Naming(now, base, members, child, depth, fmt)
    ensures Naming(now + MemberText(child, depth + 1, fmt), base, members, child.next, depth, fmt)
    ensures |now| + |MemberText(child, depth + 1, fmt)| + SLACK <= MAX_SIZE
  {
    MembersSplit(child, depth + 1, fmt);
    Enclosed(now, MemberText(child, depth + 1, fmt), PrintMembers(child.next, depth + 1, fmt),
             If(fmt, Tabs(depth)) + "}");
  }

  lemma NamingEnds(now: string, base: string, members: Members, depth: nat, fmt: bool)
    requires Naming(now, base, members, NoMember, depth, fmt)
    ensures now + (If(fmt, Tabs(depth)) + "}") == base + Print(Object(members), depth, fmt)
    ensures |now| + |If(fmt, Tabs(depth))| + 1 + SLACK <= MAX_SIZE
  {
    var close := If(fmt, Tabs(depth)) + "}";
    assert "" + close == close;
  }

  // ----- No terminator inside a text -----

  lemma NulFree(a: string, b: string, c: string)
    requires NoNul(a) && NoNul(b) && NoNul(c)
    ensures NoNul(a + b + c)
  {
  }

  lemma NoNulInLeaf(v: Value, depth: nat, fmt: bool)
    requires Printable(v) && !v.Array? && !v.Object? && !v.String?
    ensures NoNul(Print(v, depth, fmt))
  {
  }

  lemma {:induction false} NoNulInPieces(s: string)
    requires IsText(s)
    ensures NoNul(JsonString.Text(Pieces(s)))
    decreases |s|
  {
    if s == "" {
    } else {
      assert Pieces(s)[1..] == Pieces(s[1..]);
      NoNulInPieces(s[1..]);
      assert NoNul(Escaped(s[0]).Text());
    }
  }

  lemma NoNulInString(s: string)
    requires IsText(s)
    ensures NoNul(PrintString(s))
  {
    NoNulInPieces(s);
  }

  lemma {:induction false} NoNulInValue(v: Value, depth: nat, fmt: bool)
    requires Printable(v)
    ensures NoNul(Print(v, depth, fmt))
    decreases v, 1
  {
    match v
    case String(s) => NoNulInString(s);
    case Array(items) =>
      NoNulInItems(items, depth + 1, fmt);
      NulFree("[", PrintItems(items, depth + 1, fmt), "]");
    case Object(NoMember) => NulFree("{", If(fmt, "\n" + Tabs(depth - 1)), "}");
    case Object(members) =>
      NoNulInMembers(members, depth + 1, fmt);
      ObjectParts(members, depth, fmt);
      NulFree(if fmt then "{\n" else "{", PrintMembers(members, depth + 1, fmt), If(fmt, Tabs(depth)) + "}");
    case _ => NoNulInLeaf(v, depth, fmt);
  }

  lemma {:induction false} NoNulInItems(items: Items, depth: nat, fmt: bool)
    requires PrintableItems(items)
    ensures NoNul(PrintItems(items, depth, fmt))
    decreases items, 1
  {
    if items.NoItem? {
    } else {
      NoNulInValue(items.value, depth, fmt);
      NoNulInItems(items.next, depth, fmt);
    }
  }

  lemma {:induction false} NoNulInMembers(members: Members, depth: nat, fmt: bool)
    requires PrintableMembers(members)
    ensures NoNul(PrintMembers(members, depth, fmt))
    decreases members, 1
  {
    if members.NoMember? {
    } else {
      NoNulInMember(members, depth, fmt);
      NoNulInMembers(members.next, depth, fmt);
      MembersSplit(members, depth, fmt);
      NulFree(MemberText(members, depth, fmt), PrintMembers(members.next, depth, fmt), "");
      assert PrintMembers(members, depth, fmt) + "" == PrintMembers(members, depth, fmt);
    }
  }

  lemma {:induction false} NoNulInMember(child: Members, depth: nat, fmt: bool)
    requires PrintableMembers(child) && child.Member?
    ensures NoNul(MemberText(child, depth, fmt))
    decreases child, 0
  {
    NoNulInString(child.name);
    NoNulInValue(child.value, depth, fmt);
    NulFree(If(fmt, Tabs(depth)), PrintString(child.name), if fmt then ":\t" else ":");
    NulFree(If(fmt, Tabs(depth)) + PrintString(child.name) + (if fmt then ":\t" else ":"),
            Print(child.value, depth, fmt),
            If(child.next.Member?, ",") + If(fmt, "\n"));
  }

  // ----- `cJSON_PrintBuffered` -----

  // Whatever the first size of the buffer, the text is that of the plain printer.
  method PrintBuffered(v: Value, prebuffer: nat, fmt: bool) returns (text: string)
    requires Printable(v) && |Print(v, 0, fmt)| + SLACK <= MAX_SIZE
    ensures text == Print(v, 0, fmt)
  {
    var p := new PrintBuffer(prebuffer);
    var out := p.PrintValue(v, 0, fmt);
    assert "" + Print(v, 0, fmt) == Print(v, 0, fmt);
    NoNulInValue(v, 0, fmt);
    text := p.CString(out, Print(v, 0, fmt));
  }
}
