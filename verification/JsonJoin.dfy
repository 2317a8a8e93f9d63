/**
 The printer without a buffer (cJSON.cpp:367-405, 469-508 and 569-656): it prints every child into
 a string of its own, adds up a length, allocates it, and joins the strings. The result is the
 same text, and the length suffices.
 */
module JsonJoin {
  import opened JsonString
  import opened Json
  import JsonBuffer
  import JsonRoundTrip
  import Sequences

  // ----- Joining -----

  // `tail` follows every text, `separator` every text but the last.
  ghost function Joined(texts: seq<string>, separator: string, tail: string): string {
    if texts == [] then ""
    else texts[0] + (If(|texts| > 1, separator) + tail) + Joined(texts[1..], separator, tail)
  }

  // The lengths that `print_array` and `print_object` add up, with `extra` for each child.
  ghost function Space(texts: seq<string>, extra: nat): nat {
    if texts == [] then 0 else |texts[0]| + extra + Space(texts[1..], extra)
  }

  lemma {:induction false} JoinedFits(texts: seq<string>, separator: string, tail: string, extra: nat)
    requires |separator| + |tail| <= extra
    ensures |Joined(texts, separator, tail)| <= Space(texts, extra)
  {
    if texts == [] {
    } else {
      JoinedFits(texts[1..], separator, tail, extra);
    }
  }

  lemma {:induction false} SpaceAppend(texts: seq<string>, t: string, extra: nat)
    ensures Space(texts + [t], extra) == Space(texts, extra) + |t| + extra
  {
    if texts == [] {
      assert [t][1..] == [];
    } else {
      assert (texts + [t])[1..] == texts[1..] + [t];
      SpaceAppend(texts[1..], t, extra);
    }
  }

  method Copy(out: array<char>, ptr: nat, text: string, ghost before: string) returns (end: nat)
    requires ptr + |text| <= out.Length && out[..ptr] == before
    modifies out
    ensures end == ptr + |text| && out[..end] == before + text
  {
    end := ptr + |text|;
    forall i | 0 <= i < |text| {
      out[ptr + i] := text[i];
    }
    assert out[ptr..end] == text && out[..ptr] == before;
    assert out[..end] == out[..ptr] + out[ptr..end];
  }

  // The output while `texts[i..]` are still to come.
  ghost predicate Joining(now: string, open: string, texts: seq<string>, i: nat, separator: string, tail: string) {
    i <= |texts| && now + Joined(texts[i..], separator, tail) == open + Joined(texts, separator, tail)
  }

  lemma JoinOne(now: string, open: string, texts: seq<string>, i: nat, separator: string, tail: string)
    requires i < |texts| && Joining(now, open, texts, i, separator, tail)
    ensures var behind := If(i != |texts| - 1, separator) + tail;
            && Joining(now + texts[i] + behind, open, texts, i + 1, separator, tail)
            && |now| + |texts[i]| + |behind| <= |open| + |Joined(texts, separator, tail)|
  {
    assert texts[i..][1..] == texts[i + 1..];
    AppendThree(now, texts[i], If(i != |texts| - 1, separator) + tail, Joined(texts[i + 1..], separator, tail));
  }

  lemma AppendThree(a: string, b: string, c: string, d: string)
    ensures a + (b + c + d) == a + b + c + d
  {
  }

  // Opening text, the joined texts, and closing text, in `len` characters.
  method Join(texts: seq<string>, open: string, separator: string, tail: string, close: string, len: nat)
    returns (s: string)
    requires |open| + |Joined(texts, separator, tail)| + |close| + 1 <= len
    ensures s == open + Joined(texts, separator, tail) + close
  {
    var out := new char[len];
    var ptr: nat := Copy(out, 0, open, "");
    var i: nat := 0;
    assert texts[0..] == texts && "" + open == open;
    while i < |texts|
      invariant ptr <= len && i <= |texts| && Joining(out[..ptr], open, texts, i, separator, tail)
    {
      JoinOne(out[..ptr], open, texts, i, separator, tail);
      ptr := Copy(out, ptr, texts[i], out[..ptr]);
      ptr := Copy(out, ptr, If(i != |texts| - 1, separator) + tail, out[..ptr]);
      i := i + 1;
    }
    assert out[..ptr] + "" == out[..ptr];
    ptr := Copy(out, ptr, close, out[..ptr]);
    out[ptr] := '\0';
    s := out[..ptr];
  }

  // ----- The texts of the children -----

  ghost function ItemTexts(items: Items, depth: nat, fmt: bool): seq<string>
    requires PrintableItems(items)
  {
    if items.NoItem? then [] else [Print(items.value, depth, fmt)] + ItemTexts(items.next, depth, fmt)
  }

  lemma {:induction false} ItemsAreJoined(items: Items, depth: nat, fmt: bool)
    requires PrintableItems(items)
    ensures |ItemTexts(items, depth, fmt)| > 0 <==> items.Item?
    ensures PrintItems(items, depth, fmt) == Joined(ItemTexts(items, depth, fmt), "," + If(fmt, " "), "")
    decreases items
  {
    if items.NoItem? {
    } else {
      assert ItemTexts(items, depth, fmt)[1..] == ItemTexts(items.next, depth, fmt);
      ItemsAreJoined(items.next, depth, fmt);
      assert If(items.next.Item?, "," + If(fmt, " ")) + "" == If(items.next.Item?, "," + If(fmt, " "));
    }
  }

  function MemberText(name: string, value: string, depth: nat, fmt: bool): string {
    If(fmt, Tabs(depth)) + name + ":" + If(fmt, "\t") + value
  }

  ghost function MemberTexts(members: Members, depth: nat, fmt: bool): seq<string>
    requires PrintableMembers(members)
  {
    if members.NoMember? then []
    else
      [MemberText(PrintString(members.name), Print(members.value, depth, fmt), depth, fmt)]
      + MemberTexts(members.next, depth, fmt)
  }

  lemma {:induction false} MembersAreJoined(members: Members, depth: nat, fmt: bool)
    requires PrintableMembers(members)
    ensures |MemberTexts(members, depth, fmt)| > 0 <==> members.Member?
    ensures PrintMembers(members, depth, fmt) == Joined(MemberTexts(members, depth, fmt), ",", If(fmt, "\n"))
    decreases members
  {
    if members.NoMember? {
    } else {
      assert MemberTexts(members, depth, fmt)[1..] == MemberTexts(members.next, depth, fmt);
      MembersAreJoined(members.next, depth, fmt);
      AppendThree(MemberText(PrintString(members.name), Print(members.value, depth, fmt), depth, fmt),
              If(members.next.Member?, ","), If(fmt, "\n"), PrintMembers(members.next, depth, fmt));
      var text := MemberText(PrintString(members.name), Print(members.value, depth, fmt), depth, fmt);
      assert text + (If(members.next.Member?, ",") + If(fmt, "\n"))
          == text + If(members.next.Member?, ",") + If(fmt, "\n");
    }
  }

  // ----- The printer -----

  method PrintValue(v: Value, depth: nat, fmt: bool) returns (s: string)
    requires Printable(v)
    ensures s == Print(v, depth, fmt)
    decreases Nodes(v), 1
  {
    match v
    case Array(Item(_, _)) => s := PrintArray(v.items, depth, fmt);
    case Object(Member(_, _, _)) => s := PrintObject(v.members, depth, fmt);
    case _ => s := Print(v, depth, fmt);
  }

  method PrintArray(items: Items, depth: nat, fmt: bool) returns (s: string)
    requires items.Item? && Printable(Array(items))
    ensures s == Print(Array(items), depth, fmt)
    decreases NodesItems(items), 0
  {
    var entries, len, child: Items := [], 5, items;
    ghost var texts := ItemTexts(items, depth + 1, fmt);
    var extra := 2 + if fmt then 1 else 0;
    while child.Item?
      invariant PrintableItems(child) && NodesItems(child) <= NodesItems(items)
      invariant entries + ItemTexts(child, depth + 1, fmt) == texts && len == 5 + Space(entries, extra)
      decreases child
    {
      var ret := PrintValue(child.value, depth + 1, fmt);
      SpaceAppend(entries, ret, extra);
      Sequences.Associate(entries, [ret], ItemTexts(child.next, depth + 1, fmt));
      entries := entries + [ret];
      len := len + |ret| + 2 + if fmt then 1 else 0;
      child := child.next;
    }
    assert entries == texts;
    ItemsAreJoined(items, depth + 1, fmt);
    JoinedFits(entries, "," + If(fmt, " "), "", extra);
    s := Join(entries, "[", "," + If(fmt, " "), "", "]", len);
  }

  method PrintObject(members: Members, depth: nat, fmt: bool) returns (s: string)
    requires members.Member? && Printable(Object(members))
    ensures s == Print(Object(members), depth, fmt)
    decreases NodesMembers(members), 0
  {
    var texts, child: Members := [], members;
    var len: nat := 7 + if fmt then depth + 1 else 0;
    ghost var all := MemberTexts(members, depth + 1, fmt);
    while child.Member?
      invariant PrintableMembers(child) && NodesMembers(child) <= NodesMembers(members)
      invariant Collected(texts, child, all, len, depth + 1, fmt)
      decreases child
    {
      var str := PrintString(child.name);
      var ret := PrintValue(child.value, depth + 1, fmt);
      CollectOne(texts, child, all, len, depth + 1, fmt);
      texts := texts + [MemberText(str, ret, depth + 1, fmt)];
      len := len + |ret| + |str| + 2 + if fmt then 2 + (depth + 1) else 0;
      child := child.next;
    }
    CollectedAll(texts, members, all, len, depth, fmt);
    s := Join(texts, if fmt then "{\n" else "{", ",", If(fmt, "\n"), If(fmt, Tabs(depth)) + "}", len);
  }

  // The members printed so far, the ones to come, and the length added up.
  ghost predicate Collected(texts: seq<string>, child: Members, all: seq<string>, len: nat, depth: nat, fmt: bool) {
    && PrintableMembers(child) && texts + MemberTexts(child, depth, fmt) == all
    && len == 7 + (if fmt then depth else 0) + Space(texts, if fmt then 2 else 1)
  }

  lemma CollectOne(texts: seq<string>, child: Members, all: seq<string>, len: nat, depth: nat, fmt: bool)
    requires child.Member? && Collected(texts, child, all, len, depth, fmt)
    ensures var str, ret := PrintString(child.name), Print(child.value, depth, fmt);
            Collected(texts + [MemberText(str, ret, depth, fmt)], child.next, all,
                      len + |ret| + |str| + 2 + (if fmt then 2 + depth else 0), depth, fmt)
  {
    var text := MemberText(PrintString(child.name), Print(child.value, depth, fmt), depth, fmt);
    SpaceAppend(texts, text, if fmt then 2 else 1);
    Sequences.Associate(texts, [text], MemberTexts(child.next, depth, fmt));
  }

  lemma CollectedAll(texts: seq<string>, members: Members, all: seq<string>, len: nat, depth: nat, fmt: bool)
    requires members.Member? && PrintableMembers(members) && all == MemberTexts(members, depth + 1, fmt)
    requires Collected(texts, NoMember, all, len, depth + 1, fmt)
    ensures var open, tail, close := if fmt then "{\n" else "{", If(fmt, "\n"), If(fmt, Tabs(depth)) + "}";
            && |open| + |Joined(texts, ",", tail)| + |close| + 1 <= len
            && open + Joined(texts, ",", tail) + close == Print(Object(members), depth, fmt)
  {
    assert texts == all;
    MembersAreJoined(members, depth + 1, fmt);
    JsonBuffer.ObjectParts(members, depth, fmt);
    LengthSuffices(texts, len, depth, fmt);
  }

  lemma LengthSuffices(texts: seq<string>, len: nat, depth: nat, fmt: bool)
    requires len == 7 + (if fmt then depth + 1 else 0) + Space(texts, if fmt then 2 else 1)
    ensures |if fmt then "{\n" else "{"| + |Joined(texts, ",", If(fmt, "\n"))| + |If(fmt, Tabs(depth)) + "}"| + 1 <= len
  {
    JoinedFits(texts, ",", If(fmt, "\n"), if fmt then 2 else 1);
  }

  // ----- Both printers -----

  // With enough memory, the buffered printer and the joining one print the same text for every
  // tree, first buffer size and format, and that text reads back as the tree.
  method PrintersAgree(v: Value, prebuffer: nat, fmt: bool) returns (plain: string, buffered: string)
    requires Printable(v) && |Print(v, 0, fmt)| + JsonBuffer.SLACK <= JsonBuffer.MAX_SIZE
    ensures plain == buffered && Parse(buffered, true) == Parsed(v, "")
  {
    plain := PrintValue(v, 0, fmt);
    buffered := JsonBuffer.PrintBuffered(v, prebuffer, fmt);
    JsonRoundTrip.RoundTrip(v, fmt, true);
  }
}
