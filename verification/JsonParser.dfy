/**
 The parser with its loops (`parse_value`, `parse_array` and `parse_object`, cJSON.cpp:357-363,
 406-432 and 512-547): each loop appends one child after the other to the chain, and the result
 is the one that `Json.ParseValue` defines by recursion.
 */
module JsonParser {
  import opened JsonString
  import opened Json

  // The chain of the children appended so far, in front of `rest`.
  function Chain(done: seq<Value>, rest: Items): Items {
    if done == [] then rest else Item(done[0], Chain(done[1..], rest))
  }

  function Named(done: seq<(string, Value)>, rest: Members): Members {
    if done == [] then rest else Member(done[0].0, done[0].1, Named(done[1..], rest))
  }

  lemma {:induction false} ChainAppend(done: seq<Value>, v: Value, rest: Items)
    ensures Chain(done + [v], rest) == Chain(done, Item(v, rest))
  {
    if done == [] {
    } else {
      assert (done + [v])[1..] == done[1..] + [v];
      ChainAppend(done[1..], v, rest);
    }
  }

  lemma {:induction false} NamedAppend(done: seq<(string, Value)>, m: (string, Value), rest: Members)
    ensures Named(done + [m], rest) == Named(done, Member(m.0, m.1, rest))
  {
    if done == [] {
    } else {
      assert (done + [m])[1..] == done[1..] + [m];
      NamedAppend(done[1..], m, rest);
    }
  }

  // What comes of the loop when `done` is parsed and `s` is the text behind it.
  function ItemsBehind(done: seq<Value>, s: string): Parsed<Items> {
    if Head(s) == ']' then Parsed(Chain(done, NoItem), s[1..])
    else if Head(s) != ',' || ParseItems(s[1..]).Failed? then Failed
    else Parsed(Chain(done, ParseItems(s[1..]).value), ParseItems(s[1..]).rest)
  }

  lemma ItemsStep(done: seq<Value>, s: string)
    requires Head(s) == ','
    ensures var v := ParseValue(Skip(s[1..]));
            ItemsBehind(done, s) == if v.Failed? then Failed else ItemsBehind(done + [v.value], Skip(v.rest))
  {
    var v := ParseValue(Skip(s[1..]));
    if v.Parsed? {
      var t := Skip(v.rest);
      ChainAppend(done, v.value, NoItem);
      if Head(t) == ',' && ParseItems(t[1..]).Parsed? {
        ChainAppend(done, v.value, ParseItems(t[1..]).value);
      }
    }
  }

  lemma FirstItem(s: string)
    ensures var v := ParseValue(Skip(s));
            ParseItems(s) == if v.Failed? then Failed else ItemsBehind([v.value], Skip(v.rest))
  {
    var v := ParseValue(Skip(s));
    if v.Parsed? {
      var t := Skip(v.rest);
      ChainAppend([], v.value, NoItem);
      assert [] + [v.value] == [v.value];
      if Head(t) == ',' && ParseItems(t[1..]).Parsed? {
        ChainAppend([], v.value, ParseItems(t[1..]).value);
      }
    }
  }

  // One `name : value`.
  function OneMember(s: string): (r: Parsed<(string, Value)>)
    ensures r.Parsed? ==> |r.rest| < |s|
  {
    var name := ParseString(Skip(s));
    if name.Failed? || Head(Skip(name.rest)) != ':' then Failed
    else
      var v := ParseValue(Skip(Skip(name.rest)[1..]));
      if v.Failed? then Failed else Parsed((name.value, v.value), v.rest)
  }

  function MembersBehind(done: seq<(string, Value)>, s: string): Parsed<Members> {
    if Head(s) == '}' then Parsed(Named(done, NoMember), s[1..])
    else if Head(s) != ',' || ParseMembers(s[1..]).Failed? then Failed
    else Parsed(Named(done, ParseMembers(s[1..]).value), ParseMembers(s[1..]).rest)
  }

  lemma MembersStep(done: seq<(string, Value)>, s: string)
    requires Head(s) == ','
    ensures var m := OneMember(s[1..]);
            MembersBehind(done, s) == if m.Failed? then Failed else MembersBehind(done + [m.value], Skip(m.rest))
  {
    var m := OneMember(s[1..]);
    if m.Parsed? {
      var t := Skip(m.rest);
      NamedAppend(done, m.value, NoMember);
      if Head(t) == ',' && ParseMembers(t[1..]).Parsed? {
        NamedAppend(done, m.value, ParseMembers(t[1..]).value);
      }
    }
  }

  lemma FirstMember(s: string)
    ensures var m := OneMember(s);
            ParseMembers(s) == if m.Failed? then Failed else MembersBehind([m.value], Skip(m.rest))
  {
    var m := OneMember(s);
    if m.Parsed? {
      var t := Skip(m.rest);
      NamedAppend([], m.value, NoMember);
      assert [] + [m.value] == [m.value];
      if Head(t) == ',' && ParseMembers(t[1..]).Parsed? {
        NamedAppend([], m.value, ParseMembers(t[1..]).value);
      }
    }
  }

  // ----- The parser -----

  method ReadValue(s: string) returns (r: Parsed<Value>)
    ensures r == ParseValue(s)
    decreases |s|, 1
  {
    if "null" <= s || "false" <= s || "true" <= s {
      r := ParseValue(s);
    } else if Head(s) == '[' {
      r := ReadArray(s);
    } else if Head(s) == '{' {
      r := ReadObject(s);
    } else {
      r := ParseValue(s);
    }
  }

  method ReadArray(s: string) returns (r: Parsed<Value>)
    requires Head(s) == '['
    ensures r == ParseValue(s)
    decreases |s|, 0
  {
    var value := Skip(s[1..]);
    if Head(value) == ']' {
      return Parsed(Array(NoItem), value[1..]);
    }
    var items := ReadItems(value);
    r := if items.Failed? then Failed else Parsed(Array(items.value), items.rest);
  }

  method ReadItems(s: string) returns (r: Parsed<Items>)
    ensures r == ParseItems(s)
    decreases |s|, 2
  {
    FirstItem(s);
    var child := ReadValue(Skip(s));
    if child.Failed? {
      return Failed;
    }
    var done := [child.value];
    var value := Skip(child.rest);
    while Head(value) == ','
      invariant |value| < |s| && ParseItems(s) == ItemsBehind(done, value)
      decreases |value|
    {
      ItemsStep(done, value);
      child := ReadValue(Skip(value[1..]));
      if child.Failed? {
        return Failed;
      }
      done := done + [child.value];
      value := Skip(child.rest);
    }
    r := if Head(value) == ']' then Parsed(Chain(done, NoItem), value[1..]) else Failed;
  }

  method ReadObject(s: string) returns (r: Parsed<Value>)
    requires Head(s) == '{'
    ensures r == ParseValue(s)
    decreases |s|, 0
  {
    var value := Skip(s[1..]);
    if Head(value) == '}' {
      return Parsed(Object(NoMember), value[1..]);
    }
    var members := ReadMembers(value);
    r := if members.Failed? then Failed else Parsed(Object(members.value), members.rest);
  }

  method ReadMembers(s: string) returns (r: Parsed<Members>)
    ensures r == ParseMembers(s)
    decreases |s|, 3
  {
    FirstMember(s);
    var child := ReadMember(s);
    if child.Failed? {
      return Failed;
    }
    var done := [child.value];
    var value := Skip(child.rest);
    while Head(value) == ','
      invariant |value| < |s| && ParseMembers(s) == MembersBehind(done, value)
      decreases |value|
    {
      MembersStep(done, value);
      child := ReadMember(value[1..]);
      if child.Failed? {
        return Failed;
      }
      done := done + [child.value];
      value := Skip(child.rest);
    }
    r := if Head(value) == '}' then Parsed(Named(done, NoMember), value[1..]) else Failed;
  }

  method ReadMember(s: string) returns (r: Parsed<(string, Value)>)
    ensures r == OneMember(s)
    decreases |s|, 2
  {
    var name := ParseString(Skip(s));
    if name.Failed? || Head(Skip(name.rest)) != ':' {
      return Failed;
    }
    var v := ReadValue(Skip(Skip(name.rest)[1..]));
    r := if v.Failed? then Failed else Parsed((name.value, v.value), v.rest);
  }
}
