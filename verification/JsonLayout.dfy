/** The layout of formatted printouts. */
module JsonLayout {
  import opened JsonText
  import opened JsonTree

  function TabCount(s: string): (k: nat)
    ensures k <= |s|
  {
    if s != "" && s[0] == '\t' then 1 + TabCount(s[1..]) else 0
  }

  /** Each line of the text starts with as many tabs as there are brackets and braces open in front of it, not
      counting a brace that the line starts by closing. Strings are passed over. */
  predicate Neat(s: string, open: int, quoted: bool)
    decreases |s|
  {
    if s == "" then true
    else if quoted then
      if s[0] == '\\' && |s| >= 2 then Neat(s[2..], open, true) else Neat(s[1..], open, s[0] != '"')
    else if s[0] == '"' then Neat(s[1..], open, true)
    else if s[0] == '{' || s[0] == '[' then Neat(s[1..], open + 1, false)
    else if s[0] == '}' || s[0] == ']' then Neat(s[1..], open - 1, false)
    else if s[0] == '\n' then
      var k := TabCount(s[1..]);
      var line := s[1 + k..];
      k == (if line != "" && line[0] == '}' then open - 1 else open) && Neat(line, open, false)
    else Neat(s[1..], open, false)
  }

  /** No object in the tree is empty, except at the top. */
  predicate NoHollow(j: Json, depth: nat)
    decreases j
  {
    match j
    case Arr(items) => forall i :: 0 <= i < |items| ==> NoHollow(items[i], depth + 1)
    case Obj(members) =>
      && (members == [] ==> depth == 0)
      && forall i :: 0 <= i < |members| ==> NoHollow(members[i].value, depth + 1)
    case _ => true
  }

  predicate Calm(x: string) {
    forall i :: 0 <= i < |x| ==> x[i] !in {'"', '{', '[', '}', ']', '\n'}
  }

  lemma {:induction false} CalmNeat(x: string, r: string, open: int)
    requires Calm(x)
    ensures Neat(x + r, open, false) <==> Neat(r, open, false)
  {
    if x == "" {
      assert x + r == r;
    } else {
      assert (x + r)[1..] == x[1..] + r;
      CalmNeat(x[1..], r, open);
    }
  }

  lemma EscapeNeat(c: char, r: string, open: int)
    ensures Neat(Escape(c) + r, open, true) <==> Neat(r, open, true)
  {
    hide HexDigit, Letter;
    var x := Escape(c);
    if |x| == 1 {
      assert (x + r)[1..] == r;
    } else if |x| == 2 {
      assert (x + r)[2..] == r;
    } else {
      HexPlain(c as int / 16);
      HexPlain(c as int % 16);
      var y := x[2..];
      assert (x + r)[2..] == y + r;
      InsideNeat(y, r, open);
    }
  }

  lemma {:induction false} InsideNeat(x: string, r: string, open: int)
    requires forall i :: 0 <= i < |x| ==> x[i] != '"' && x[i] != '\\'
    ensures Neat(x + r, open, true) <==> Neat(r, open, true)
  {
    if x == "" {
      assert x + r == r;
    } else {
      assert (x + r)[1..] == x[1..] + r;
      InsideNeat(x[1..], r, open);
    }
  }

  lemma {:induction false} EscapedNeat(t: string, r: string, open: int)
    ensures Neat(EscapeAll(t) + r, open, true) <==> Neat(r, open, true)
  {
    hide Neat, Escape;
    if t == "" {
      assert "" + r == r;
    } else {
      assert EscapeAll(t) + r == Escape(t[0]) + (EscapeAll(t[1..]) + r);
      EscapeNeat(t[0], EscapeAll(t[1..]) + r, open);
      EscapedNeat(t[1..], r, open);
    }
  }

  lemma StringNeat(t: string, r: string, open: int)
    ensures Neat(PrintString(t) + r, open, false) <==> Neat(r, open, false)
  {
    hide EscapeAll;
    var s := PrintString(t) + r;
    var x := EscapeAll(t) + ("\"" + r);
    assert s == "\"" + x && s[1..] == x;
    EscapedNeat(t, "\"" + r, open);
    assert ("\"" + r)[1..] == r;
  }

  lemma {:induction false} NatCalm(n: nat)
    ensures Calm(PrintNat(n))
  {
    if n >= 10 {
      NatCalm(n / 10);
    }
  }

  lemma {:induction false} TabsAre(n: int, r: string)
    requires r == "" || r[0] != '\t'
    ensures var k := if n < 0 then 0 else n; |Tabs(n)| == k && TabCount(Tabs(n) + r) == k && (Tabs(n) + r)[k..] == r
    ensures Calm(Tabs(n))
    decreases if n < 0 then 0 else n
  {
    if n <= 0 {
      assert "" + r == r;
    } else {
      assert (Tabs(n) + r)[1..] == Tabs(n - 1) + r;
      TabsAre(n - 1, r);
    }
  }

  /** A new line with n tabs. */
  lemma LineNeat(n: int, r: string, open: int)
    requires r != "" && r[0] != '\t'
    ensures
      var k := if n < 0 then 0 else n;
      Neat("\n" + (Tabs(n) + r), open, false) <==>
        k == (if r[0] == '}' then open - 1 else open) && Neat(r, open, false)
  {
    hide Tabs;
    var x := Tabs(n) + r;
    assert ("\n" + x)[1..] == x;
    TabsAre(n, r);
    var k := TabCount(x);
    assert ("\n" + x)[1 + k..] == x[k..];
  }

  lemma OpenNeat(c: char, x: string, open: int)
    requires c == '{' || c == '['
    ensures Neat([c] + x, open, false) <==> Neat(x, open + 1, false)
  {
    assert ([c] + x)[1..] == x;
  }

  lemma CloseNeat(c: char, x: string, open: int)
    requires c == '}' || c == ']'
    ensures Neat([c] + x, open, false) <==> Neat(x, open - 1, false)
  {
    assert ([c] + x)[1..] == x;
  }

  lemma NumberNeat(n: int, r: string, open: int)
    ensures Neat(PrintInt(n) + r, open, false) <==> Neat(r, open, false)
  {
    hide PrintNat, Neat;
    NatCalm(if n < 0 then -n else n);
    CalmNeat(PrintInt(n), r, open);
  }

  lemma {:induction false} PrintNeat(j: Json, depth: nat, r: string)
    ensures Neat(Print(j, depth, true) + r, depth, false) <==> NoHollow(j, depth) && Neat(r, depth, false)
    decreases j, 2
  {
    hide Neat, PrintString, PrintInt, PrintItems, PrintMembers, Tabs;
    match j
    case Null => CalmNeat("null", r, depth);
    case False => CalmNeat("false", r, depth);
    case True => CalmNeat("true", r, depth);
    case Num(v) => NumberNeat(v.mant, r, depth);
    case Str(t) => StringNeat(t, r, depth);
    case Arr(items) =>
      var x := PrintItems(items, depth + 1, true);
      assert "[" + x + "]" + r == "[" + (x + ("]" + r));
      OpenNeat('[', x + ("]" + r), depth);
      ItemsNeat(items, depth + 1, "]" + r);
      CloseNeat(']', r, depth + 1);
    case Obj(members) => ObjectNeat(members, depth, r);
  }

  lemma {:induction false} ItemsNeat(items: seq<Json>, depth: nat, r: string)
    ensures Neat(PrintItems(items, depth, true) + r, depth, false) <==>
      (forall i :: 0 <= i < |items| ==> NoHollow(items[i], depth)) && Neat(r, depth, false)
    decreases items, 1
  {
    hide Neat, Print, NoHollow;
    if items == [] {
      assert "" + r == r;
    } else {
      var more := PrintItems(items[1..], depth, true) + r;
      var comma := Comma(|items| > 1, true);
      assert PrintItems(items, depth, true) + r == Print(items[0], depth, true) + (comma + more);
      PrintNeat(items[0], depth, comma + more);
      CalmNeat(comma, more, depth);
      ItemsNeat(items[1..], depth, r);
      assert forall i :: 1 <= i < |items| ==> items[i] == items[1..][i - 1];
      AllOf(items, depth);
    }
  }

  lemma AllOf(items: seq<Json>, depth: nat)
    requires items != []
    ensures (forall i :: 0 <= i < |items| ==> NoHollow(items[i], depth)) <==>
      NoHollow(items[0], depth) && forall i :: 0 <= i < |items[1..]| ==> NoHollow(items[1..][i], depth)
  {
    hide NoHollow;
    assert forall i :: 1 <= i < |items| ==> items[i] == items[1..][i - 1];
  }

  lemma {:induction false} ObjectNeat(members: seq<Member>, depth: nat, r: string)
    ensures Neat(Print(Obj(members), depth, true) + r, depth, false) <==>
      NoHollow(Obj(members), depth) && Neat(r, depth, false)
    decreases members, 1
  {
    hide Neat, PrintMembers, Tabs;
    if members == [] {
      var x := Tabs(depth - 1) + ("}" + r);
      assert Print(Obj(members), depth, true) + r == "{" + ("\n" + x);
      OpenNeat('{', "\n" + x, depth);
      LineNeat(depth - 1, "}" + r, depth + 1);
    } else {
      var x := PrintMembers(members, depth + 1, true) + (Tabs(depth) + ("}" + r));
      assert Print(Obj(members), depth, true) + r == "{" + ("\n" + x);
      OpenNeat('{', "\n" + x, depth);
      MembersNeat(members, depth + 1, r);
    }
    CloseNeat('}', r, depth + 1);
  }

  ghost predicate AllNoHollow(members: seq<Member>, depth: nat) {
    forall i :: 0 <= i < |members| ==> NoHollow(members[i].value, depth)
  }

  /** The lines of the members and the line that closes the object. */
  lemma {:induction false} MembersNeat(members: seq<Member>, depth: nat, r: string)
    requires depth >= 1
    ensures
      var x := PrintMembers(members, depth, true) + (Tabs(depth - 1) + ("}" + r));
      Neat("\n" + x, depth, false) <==> AllNoHollow(members, depth) && Neat("}" + r, depth, false)
    decreases members, 0
  {
    hide Neat, Print, NoHollow, Tabs, PrintString, AllNoHollow;
    var end := Tabs(depth - 1) + ("}" + r);
    if members == [] {
      assert "" + end == end;
      assert PrintMembers(members, depth, true) == "";
      LineNeat(depth - 1, "}" + r, depth);
      assert AllNoHollow(members, depth) by { NoneHollow(depth); }
    } else {
      var m, comma := members[0], if |members| > 1 then "," else "";
      var more := "\n" + (PrintMembers(members[1..], depth, true) + end);
      var line := PrintString(m.key) + (":\t" + (Print(m.value, depth, true) + (comma + more)));
      MemberLine(members, depth, end, line, more);
      LineNeat(depth, line, depth);
      StringNeat(m.key, ":\t" + (Print(m.value, depth, true) + (comma + more)), depth);
      CalmNeat(":\t", Print(m.value, depth, true) + (comma + more), depth);
      PrintNeat(m.value, depth, comma + more);
      CalmNeat(comma, more, depth);
      MembersNeat(members[1..], depth, r);
      AllOfMembers(members, depth);
    }
  }

  lemma NoneHollow(depth: nat)
    ensures AllNoHollow([], depth)
  {
  }

  lemma AllOfMembers(members: seq<Member>, depth: nat)
    requires members != []
    ensures AllNoHollow(members, depth) <==> NoHollow(members[0].value, depth) && AllNoHollow(members[1..], depth)
  {
    hide NoHollow;
    assert forall i :: 1 <= i < |members| ==> members[i] == members[1..][i - 1];
  }

  lemma MemberLine(members: seq<Member>, depth: nat, end: string, line: string, more: string)
    requires members != [] && more == "\n" + (PrintMembers(members[1..], depth, true) + end)
    requires
      var m, comma := members[0], if |members| > 1 then "," else "";
      line == PrintString(m.key) + (":\t" + (Print(m.value, depth, true) + (comma + more)))
    ensures PrintMembers(members, depth, true) + end == Tabs(depth) + line && line != "" && line[0] == '"'
  {
    hide Print, EscapeAll, Tabs;
    var m, comma := members[0], if |members| > 1 then "," else "";
    var k, v, t := PrintString(m.key), Print(m.value, depth, true), Tabs(depth);
    Regroup(t, k, ":\t", v, comma, "\n", PrintMembers(members[1..], depth, true), end);
  }

  lemma Regroup(a: string, b: string, c: string, d: string, e: string, f: string, g: string, h: string)
    ensures a + b + c + d + e + f + g + h == a + (b + (c + (d + (e + (f + (g + h))))))
  {
  }

  /** A formatted printout is neatly laid out if and only if there is no empty object in the tree below the top: such an
      object is closed one tab too far to the left. */
  lemma LayoutIff(j: Json)
    ensures Neat(Print(j, 0, true), 0, false) <==> NoHollow(j, 0)
  {
    hide Neat, Print, NoHollow;
    PrintNeat(j, 0, "");
    assert Print(j, 0, true) + "" == Print(j, 0, true);
    assert Neat("", 0, false) by { NothingNeat(); }
  }

  /** The shortest printout that is not. */
  lemma HollowExample()
    ensures !Neat(Print(Arr([Obj([])]), 0, true), 0, false)
  {
    hide Neat, Print;
    var j := Arr([Obj([])]);
    LayoutIff(j);
    assert !NoHollow(j.items[0], 1);
  }

  lemma NothingNeat()
    ensures Neat("", 0, false)
  {
  }
}
