/** Printing and parsing undo each other. */
module JsonRoundTrip {
  import opened JsonText
  import opened JsonTree

  lemma SkipWhite(c: char, x: string)
    requires White(c)
    ensures Skip([c] + x) == Skip(x)
  {
    assert ([c] + x)[1..] == x;
  }

  lemma SkipBlack(x: string)
    requires x == "" || !White(x[0])
    ensures Skip(x) == x
  {
  }

  lemma {:induction false} SkipTabs(n: int, x: string)
    ensures Skip(Tabs(n) + x) == Skip(x)
  {
    if n > 0 {
      assert Tabs(n) + x == ['\t'] + (Tabs(n - 1) + x);
      SkipWhite('\t', Tabs(n - 1) + x);
      SkipTabs(n - 1, x);
    } else {
      assert Tabs(n) + x == x;
    }
  }

  /** The characters with which a printed value can start. */
  predicate StartsValue(c: char) {
    c == 'n' || c == 'f' || c == 't' || c == '-' || Digit(c) || c == '"' || c == '[' || c == '{'
  }

  lemma PrintStarts(j: Json, depth: nat, fmt: bool)
    ensures Print(j, depth, fmt) != "" && StartsValue(Print(j, depth, fmt)[0])
  {
    hide PrintItems, PrintMembers, EscapeAll;
  }

  // ----- values

  lemma {:induction false} ValueRoundTrip(j: Json, depth: nat, fmt: bool, r: string)
    requires Printable(j) && EndsNumber(r)
    ensures ParseValue(Print(j, depth, fmt) + r) == Parsed(j, r)
    decreases j
  {
    hide PrintItems, PrintMembers, ParseItems, ParseMembers, PrintInt, ParseNumber, PrintString, ParseString, Tabs;
    Keywords(Print(j, depth, fmt) + r);
    match j
    case Null => assert ("null" + r)[4..] == r;
    case False => assert ("false" + r)[5..] == r;
    case True => assert ("true" + r)[4..] == r;
    case Num(v) =>
      NumberRoundTrip(v.mant, r);
    case Str(s) =>
      StringRoundTrip(s, r);
      StringStarts(s, r);
    case Arr(items) => ArrayRoundTrip(items, depth, fmt, r);
    case Obj(members) => ObjectRoundTrip(members, depth, fmt, r);
  }

  lemma Keywords(s: string)
    ensures ("null" <= s ==> s[0] == 'n') && ("false" <= s ==> s[0] == 'f') && ("true" <= s ==> s[0] == 't')
  {
  }

  lemma StringStarts(s: string, r: string)
    ensures PrintString(s) + r != "" && (PrintString(s) + r)[0] == '"'
  {
  }

  lemma ParseBrackets(s: string, body: string)
    ensures s == "[" + body ==> ParseValue(s) == ParseArray(body)
    ensures s == "{" + body ==> ParseValue(s) == ParseObject(body)
  {
    hide ParseArray, ParseObject;
    Keywords(s);
    if s == "[" + body || s == "{" + body {
      assert s[1..] == body;
    }
  }

  // ----- arrays

  lemma {:induction false} ArrayRoundTrip(items: seq<Json>, depth: nat, fmt: bool, r: string)
    requires Printable(Arr(items))
    ensures ParseValue(Print(Arr(items), depth, fmt) + r) == Parsed(Arr(items), r)
    decreases items, 1
  {
    hide PrintMembers, ParseItems, ParseMembers, ParseValue, PrintString, ParseString;
    var body := PrintItems(items, depth + 1, fmt) + ("]" + r);
    assert Print(Arr(items), depth, fmt) + r == "[" + body;
    ParseBrackets("[" + body, body);
    if items == [] {
      assert body == "]" + r;
      SkipBlack(body);
      assert ("]" + r)[1..] == r;
    } else {
      PrintStarts(items[0], depth + 1, fmt);
      SkipBlack(body);
      ItemsRoundTrip(items, depth + 1, fmt, r);
    }
  }

  lemma {:induction false} ItemsRoundTrip(items: seq<Json>, depth: nat, fmt: bool, r: string)
    requires items != [] && forall i :: 0 <= i < |items| ==> Printable(items[i])
    ensures ParseItems(PrintItems(items, depth, fmt) + ("]" + r)) == Parsed(items, r)
    decreases items, 0
  {
    hide Print, ParseValue, PrintMembers, ParseMembers, Printable, Skip;
    var v := Print(items[0], depth, fmt);
    var more := PrintItems(items[1..], depth, fmt) + ("]" + r);
    var tail := Comma(|items| > 1, fmt) + more;
    assert PrintItems(items, depth, fmt) + ("]" + r) == v + tail;
    PrintStarts(items[0], depth, fmt);
    SkipBlack(v + tail);
    if |items| == 1 {
      assert tail == "]" + r;
      ValueRoundTrip(items[0], depth, fmt, tail);
      SkipBlack(tail);
      assert tail[1..] == r && [items[0]] == items;
    } else {
      assert tail[0] == ',';
      ValueRoundTrip(items[0], depth, fmt, tail);
      SkipBlack(tail);
      ItemsRoundTrip(items[1..], depth, fmt, r);
      AfterComma(tail, more, fmt);
      assert [items[0]] + items[1..] == items;
    }
  }

  lemma AfterComma(tail: string, more: string, fmt: bool)
    requires tail == Comma(true, fmt) + more
    ensures ParseItems(tail[1..]) == ParseItems(more)
  {
    hide ParseValue;
    if fmt {
      assert tail[1..] == [' '] + more;
      SkipWhite(' ', more);
    } else {
      assert tail[1..] == more;
    }
  }

  // ----- objects

  function NewLine(fmt: bool): string { if fmt then "\n" else "" }

  function Indent(depth: int, fmt: bool): string { if fmt then Tabs(depth) else "" }

  lemma SkipLine(depth: int, fmt: bool, x: string)
    ensures Skip(Indent(depth, fmt) + x) == Skip(x) && Skip(NewLine(fmt) + x) == Skip(x)
  {
    if fmt {
      SkipTabs(depth, x);
      SkipWhite('\n', x);
      assert NewLine(fmt) == ['\n'];
    } else {
      assert Indent(depth, fmt) + x == x && NewLine(fmt) + x == x;
    }
  }

  /** The closing brace and what comes before it. */
  function Close(depth: int, fmt: bool, r: string): string { Indent(depth, fmt) + ("}" + r) }

  lemma SkipClose(depth: int, fmt: bool, r: string)
    ensures Skip(Close(depth, fmt, r)) == "}" + r && Skip(NewLine(fmt) + Close(depth, fmt, r)) == "}" + r
  {
    SkipLine(depth, fmt, "}" + r);
    SkipLine(depth, fmt, Close(depth, fmt, r));
    SkipBlack("}" + r);
  }

  lemma {:induction false} ObjectRoundTrip(members: seq<Member>, depth: nat, fmt: bool, r: string)
    requires Printable(Obj(members))
    ensures ParseValue(Print(Obj(members), depth, fmt) + r) == Parsed(Obj(members), r)
    decreases members, 2
  {
    hide PrintItems, ParseItems, PrintMembers, ParseMembers, ParseValue, PrintString, ParseString, Tabs, Skip;
    if members == [] {
      var body := NewLine(fmt) + Close(depth - 1, fmt, r);
      assert Print(Obj(members), depth, fmt) + r == "{" + body;
      ParseBrackets("{" + body, body);
      SkipClose(depth - 1, fmt, r);
      assert ("}" + r)[1..] == r;
    } else {
      var inner := PrintMembers(members, depth + 1, fmt) + Close(depth, fmt, r);
      var body := NewLine(fmt) + inner;
      assert Print(Obj(members), depth, fmt) + r == "{" + body;
      ParseBrackets("{" + body, body);
      MembersStart(members, depth + 1, fmt, Close(depth, fmt, r));
      SkipLine(0, fmt, inner);
      SkipBlack(Skip(body));
      MembersRoundTrip(members, depth + 1, fmt, r);
      SameMembers(Skip(body), inner);
    }
  }

  lemma MembersStart(members: seq<Member>, depth: nat, fmt: bool, x: string)
    requires members != []
    ensures var s := Skip(PrintMembers(members, depth, fmt) + x); s != "" && s[0] == '"'
  {
    hide Print, PrintString, PrintMembers, MemberRest, Skip, Tabs;
    var rest := MemberRest(members, depth, fmt, x);
    WholeMember(members, depth, fmt, x);
    StringStarts(members[0].key, rest);
    SkipLine(depth, fmt, PrintString(members[0].key) + rest);
    SkipBlack(PrintString(members[0].key) + rest);
  }

  /** What follows the first name. */
  function MemberRest(members: seq<Member>, depth: nat, fmt: bool, x: string): string
    requires members != []
  {
    (if fmt then ":\t" else ":") + (Print(members[0].value, depth, fmt) + MemberTail(members, depth, fmt, x))
  }

  /** What follows the first member. */
  function MemberTail(members: seq<Member>, depth: nat, fmt: bool, x: string): string
    requires members != []
  {
    (if |members| > 1 then "," else "") + (NewLine(fmt) + (PrintMembers(members[1..], depth, fmt) + x))
  }

  /** White space in front of members does not matter. */
  lemma SameMembers(s: string, x: string)
    requires Skip(s) == Skip(x)
    ensures ParseMembers(s) == ParseMembers(x)
  {
    hide ParseString, ParseValue, Skip;
    SameMember(s, x);
  }

  lemma SameMember(s: string, x: string)
    requires Skip(s) == Skip(x)
    ensures ParseMember(s) == ParseMember(x)
  {
    hide ParseString, ParseValue, Skip;
  }

  lemma {:induction false} MembersRoundTrip(members: seq<Member>, depth: nat, fmt: bool, r: string)
    requires members != [] && depth >= 1
    requires forall i :: 0 <= i < |members| ==> IsText(members[i].key) && Printable(members[i].value)
    ensures ParseMembers(PrintMembers(members, depth, fmt) + Close(depth - 1, fmt, r)) == Parsed(members, r)
    decreases members, 1
  {
    hide Print, ParseValue, PrintString, ParseString, ParseMember, Printable, Skip, Close;
    var x := Close(depth - 1, fmt, r);
    var tail := MemberTail(members, depth, fmt, x);
    var more := PrintMembers(members[1..], depth, fmt) + x;
    TailEnds(members, depth, fmt, r);
    MemberRoundTrip(members, depth, fmt, x);
    if |members| == 1 {
      assert PrintMembers(members[1..], depth, fmt) + x == x;
      SkipClose(depth - 1, fmt, r);
      assert tail == NewLine(fmt) + x;
      assert ("}" + r)[1..] == r && [members[0]] == members;
    } else {
      assert tail == "," + (NewLine(fmt) + more);
      SkipBlack(tail);
      assert tail[1..] == NewLine(fmt) + more;
      SkipLine(0, fmt, more);
      SameMembers(NewLine(fmt) + more, more);
      MembersRoundTrip(members[1..], depth, fmt, r);
      assert [members[0]] + members[1..] == members;
    }
  }

  lemma TailEnds(members: seq<Member>, depth: nat, fmt: bool, r: string)
    requires members != [] && depth >= 1
    ensures EndsNumber(MemberTail(members, depth, fmt, Close(depth - 1, fmt, r)))
  {
    hide Print, PrintString;
    var x := Close(depth - 1, fmt, r);
    if |members| == 1 {
      assert MemberTail(members, depth, fmt, x) == NewLine(fmt) + x;
    }
  }

  lemma MemberRoundTrip(members: seq<Member>, depth: nat, fmt: bool, x: string)
    requires members != [] && IsText(members[0].key) && Printable(members[0].value)
    requires EndsNumber(MemberTail(members, depth, fmt, x))
    ensures ParseMember(PrintMembers(members, depth, fmt) + x) == Parsed(members[0], MemberTail(members, depth, fmt, x))
    decreases members, 0
  {
    hide Print, ParseValue, PrintString, ParseString, Printable, Skip, IsText, MemberTail;
    var m, tail := members[0], MemberTail(members, depth, fmt, x);
    var v := Print(m.value, depth, fmt) + tail;
    var rest := MemberRest(members, depth, fmt, x);
    WholeMember(members, depth, fmt, x);
    SkipLine(depth, fmt, PrintString(m.key) + rest);
    StringStarts(m.key, rest);
    SkipBlack(PrintString(m.key) + rest);
    StringRoundTrip(m.key, rest);
    SkipBlack(rest);
    assert rest[1..] == if fmt then ['\t'] + v else v;
    SkipWhite('\t', v);
    PrintStarts(m.value, depth, fmt);
    SkipBlack(v);
    ValueRoundTrip(m.value, depth, fmt, tail);
  }

  lemma WholeMember(members: seq<Member>, depth: nat, fmt: bool, x: string)
    requires members != []
    ensures PrintMembers(members, depth, fmt) + x
      == Indent(depth, fmt) + (PrintString(members[0].key) + MemberRest(members, depth, fmt, x))
  {
    hide Print, PrintString, Tabs;
    Regroup(Indent(depth, fmt), PrintString(members[0].key), if fmt then ":\t" else ":",
            Print(members[0].value, depth, fmt),
            if |members| > 1 then "," else "", NewLine(fmt), PrintMembers(members[1..], depth, fmt), x);
  }

  lemma Regroup(a: string, b: string, c: string, d: string, e: string, f: string, g: string, x: string)
    ensures a + b + c + d + e + f + g + x == a + (b + (c + (d + (e + (f + (g + x))))))
  {
  }

  /** Formatted or not, at any depth: what is printed is parsed to the tree it was printed from, and nothing is left. */
  lemma RoundTrip(j: Json, fmt: bool)
    requires Printable(j)
    ensures Parse(Print(j, 0, fmt)) == Parsed(j, "")
  {
    hide Print, ParseValue;
    ValueRoundTrip(j, 0, fmt, "");
    assert Print(j, 0, fmt) + "" == Print(j, 0, fmt);
    PrintStarts(j, 0, fmt);
    SkipBlack(Print(j, 0, fmt));
  }
}
