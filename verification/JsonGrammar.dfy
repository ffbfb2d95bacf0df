/** The texts that cJSON reads, written down as trees with all that stands in them, and what they stand for. */
module JsonGrammar {
  import opened JsonText
  import opened JsonTree
  import opened JsonBounds
  import opened JsonNumerals
  import opened JsonPieces

  /** White space is everything up to 32. */
  predicate Spaces(ws: string) { forall i :: 0 <= i < |ws| ==> ws[i] as int <= 32 }

  lemma {:induction false} SkipSpaces(ws: string, x: string)
    requires Spaces(ws) && (x == "" || x[0] as int > 32)
    ensures Skip(ws + x) == x
  {
    if ws == "" {
      assert ws + x == x;
    } else {
      assert (ws + x)[1..] == ws[1..] + x;
      SkipSpaces(ws[1..], x);
    }
  }

  lemma {:induction false} SpacesAre(s: string) returns (ws: string)
    ensures Spaces(ws) && s == ws + Skip(s)
  {
    if s != "" && White(s[0]) {
      var more := SpacesAre(s[1..]);
      ws := [s[0]] + more;
      assert s == [s[0]] + s[1..];
    } else {
      ws := "";
    }
  }

  // ----- strings

  /** The \u escapes of the pieces have four digits. */
  predicate Whole(ps: seq<Piece>) {
    forall i :: 0 <= i < |ps| ==>
      (ps[i].Uni? ==> AllHex(ps[i].x)) && (ps[i].Two? ==> AllHex(ps[i].x) && AllHex(ps[i].y))
  }

  lemma {:induction false} WholeProper(ps: seq<Piece>, r: string)
    requires Whole(ps) && PiecesOk(ps, "\"" + r)
    ensures Proper(TextOf(ps) + ("\"" + r))
    decreases |ps|
  {
    if ps == [] {
      assert "" + ("\"" + r) == "\"" + r;
    } else {
      var more := TextOf(ps[1..]) + ("\"" + r);
      assert TextOf(ps) + ("\"" + r) == ps[0].Text() + more;
      assert forall i :: 0 <= i < |ps[1..]| ==> ps[1..][i] == ps[i + 1];
      WholeProper(ps[1..], r);
      PieceProper(ps[0], more);
    }
  }

  lemma PieceProper(p: Piece, more: string)
    requires p.Ok() && (p.Uni? ==> AllHex(p.x)) && (p.Two? ==> AllHex(p.x) && AllHex(p.y)) && Proper(more)
    ensures Proper(p.Text() + more)
  {
    hide CodeOf, Proper, AllHex;
    match p
    case Plain(c) => PlainProper(c, more);
    case Short(c) => ShortProper(c, more);
    case Uni(x) => UniProper(x, more);
    case Two(x, y) =>
      UniProper(y, more);
      UniProper(x, "\\u" + y + more);
      assert p.Text() + more == "\\u" + x + ("\\u" + y + more);
  }

  lemma PlainProper(c: char, more: string)
    requires c != '"' && c != '\\' && Proper(more)
    ensures Proper([c] + more)
  {
    assert ([c] + more)[1..] == more;
  }

  lemma ShortProper(c: char, more: string)
    requires c != 'u' && Proper(more)
    ensures Proper("\\" + [c] + more)
  {
    assert ("\\" + [c] + more)[2..] == more;
  }

  lemma UniProper(x: string, more: string)
    requires |x| == 4 && AllHex(x) && Proper(more)
    ensures Proper("\\u" + x + more)
  {
    hide HexVal;
    var s := "\\u" + x + more;
    assert s[2..6] == x && s[6..] == more;
  }

  lemma StringParses(ps: seq<Piece>, r: string)
    requires Whole(ps) && PiecesOk(ps, "\"" + r)
    ensures ParseString("\"" + (TextOf(ps) + ("\"" + r))) == Parsed(ValueOf(ps), r)
  {
    hide Proper, InBounds, PiecesOk, Unquote, FirstPass, TextOf, ValueOf;
    var x := TextOf(ps) + ("\"" + r);
    assert ("\"" + x)[1..] == x;
    WholeProper(ps, r);
    ProperInBounds(x);
    StringOverruns("\"" + x);
    PiecesParse(ps, true, r);
  }

  lemma StringIs(s: string) returns (ps: seq<Piece>, closed: bool)
    requires ParseString(s).Parsed?
    ensures
      var Parsed(t, rest) := ParseString(s);
      && PiecesOk(ps, End(closed, rest)) && t == ValueOf(ps) && s == "\"" + (TextOf(ps) + End(closed, rest))
      && (!closed ==> rest == "")
  {
    hide Unquote, FirstPass, PiecesOk, TextOf, ValueOf, End;
    ps, closed := PiecesAre(s[1..]);
    assert s == "\"" + s[1..];
  }

  // ----- trees

  datatype Tree =
    | Word(v: Json)
    | Number(n: Numeral)
    | String(ps: seq<Piece>)
    | Array(ws: string, items: Items)
    | Object(ws: string, members: Members)

  /** Values with commas between them, and white space on both sides. */
  datatype Items = NoItems | Item(before: string, value: Tree, after: string, more: Items)

  /** Names and values with colons and commas between them, and white space on both sides of each. */
  datatype Members =
    | NoMembers
    | Named(before: string, name: seq<Piece>, mid: string, mid': string, value: Tree, after: string, more: Members)

  function WordText(v: Json): string { match v case Null => "null" case False => "false" case _ => "true" }

  /** The text of a tree, with r behind it. */
  function Write(t: Tree, r: string): string
    decreases t
  {
    match t
    case Word(v) => WordText(v) + r
    case Number(n) => n.Text() + r
    case String(ps) => WriteString(ps, r)
    case Array(ws, items) => "[" + if items.NoItems? then ws + ("]" + r) else WriteItems(items, r)
    case Object(ws, members) => "{" + if members.NoMembers? then ws + ("}" + r) else WriteMembers(members, r)
  }

  function WriteString(ps: seq<Piece>, r: string): string { "\"" + (TextOf(ps) + ("\"" + r)) }

  function WriteItems(items: Items, r: string): string
    requires items.Item?
    decreases items
  {
    var next := if items.more.NoItems? then "]" + r else "," + WriteItems(items.more, r);
    items.before + Write(items.value, items.after + next)
  }

  function WriteMembers(m: Members, r: string): string
    requires m.Named?
    decreases m
  {
    var next := if m.more.NoMembers? then "}" + r else "," + WriteMembers(m.more, r);
    m.before + WriteString(m.name, m.mid + (":" + (m.mid' + Write(m.value, m.after + next))))
  }

  /** What the text stands for. */
  function Value(t: Tree): Json
    requires Ok(t)
    decreases t
  {
    match t
    case Word(v) => v
    case Number(n) => Num(n.Value())
    case String(ps) => Str(ValueOf(ps))
    case Array(_, items) => Arr(ItemValues(items))
    case Object(_, members) => Obj(MemberValues(members))
  }

  function ItemValues(items: Items): seq<Json>
    requires ItemsOk(items)
    decreases items
  {
    if items.NoItems? then [] else [Value(items.value)] + ItemValues(items.more)
  }

  function MemberValues(m: Members): seq<Member>
    requires MembersOk(m)
    decreases m
  {
    if m.NoMembers? then [] else [Member(ValueOf(m.name), Value(m.value))] + MemberValues(m.more)
  }

  predicate Ok(t: Tree)
    decreases t
  {
    match t
    case Word(v) => v.Null? || v.False? || v.True?
    case Number(n) => n.Ok()
    case String(ps) => PiecesOk(ps, "\"")
    case Array(ws, items) => Spaces(ws) && ItemsOk(items)
    case Object(ws, members) => Spaces(ws) && MembersOk(members)
  }

  predicate ItemsOk(items: Items)
    decreases items
  {
    items.Item? ==> Spaces(items.before) && Spaces(items.after) && Ok(items.value) && ItemsOk(items.more)
  }

  predicate MembersOk(m: Members)
    decreases m
  {
    m.Named? ==>
      && Spaces(m.before) && Spaces(m.mid) && Spaces(m.mid') && Spaces(m.after)
      && PiecesOk(m.name, "\"") && Ok(m.value) && MembersOk(m.more)
  }

  /** All \u escapes have four digits. */
  predicate AllWhole(t: Tree)
    decreases t
  {
    match t
    case String(ps) => Whole(ps)
    case Array(_, items) => ItemsWhole(items)
    case Object(_, members) => MembersWhole(members)
    case _ => true
  }

  predicate ItemsWhole(items: Items)
    decreases items
  {
    items.Item? ==> AllWhole(items.value) && ItemsWhole(items.more)
  }

  predicate MembersWhole(m: Members)
    decreases m
  {
    m.Named? ==> Whole(m.name) && AllWhole(m.value) && MembersWhole(m.more)
  }

  /** What may follow a value. */
  predicate Follows(t: Tree, r: string) { t.Number? ==> Ends(r) }

  /** Pieces that are pieces in front of a quote are so whatever follows the quote. */
  lemma {:induction false} QuoteEnds(ps: seq<Piece>, r: string)
    ensures PiecesOk(ps, "\"") <==> PiecesOk(ps, "\"" + r)
    decreases |ps|
  {
    hide Piece.Ok, CodeOf;
    if ps != [] {
      QuoteEnds(ps[1..], r);
      SameStart(TextOf(ps[1..]), r);
    }
  }

  lemma SameStart(x: string, r: string)
    ensures "\\u" <= x + "\"" <==> "\\u" <= x + ("\"" + r)
  {
    var a, b := x + "\"", x + ("\"" + r);
    assert a[0] == b[0] && (|a| >= 2 ==> a[1] == b[1]);
  }

  // ----- every such text is read as what it stands for

  lemma NumeralStarts(n: Numeral, r: string)
    requires n.Ok()
    ensures var s := n.Text() + r; s != "" && (s[0] == '-' || Digit(s[0]))
  {
  }

  /** The text of a value starts with none of the characters that the parser looks for around values. */
  lemma WriteStarts(t: Tree, r: string)
    requires Ok(t)
    ensures var s := Write(t, r); s != "" && s[0] as int > 32 && s[0] != ']' && s[0] != '}'
  {
    hide Numeral.Ok, Numeral.Text, WriteItems, WriteMembers;
    if t.Number? {
      NumeralStarts(t.n, r);
    }
  }

  lemma WordParses(v: Json, r: string)
    requires v.Null? || v.False? || v.True?
    ensures ParseValue(WordText(v) + r) == Parsed(v, r)
  {
    hide ParseString, ParseNumber, ParseArray, ParseObject;
    var s := WordText(v) + r;
    assert s[|WordText(v)|..] == r && WordText(v) <= s;
    assert v.False? ==> s[0] == 'f';
    assert v.True? ==> s[0] == 't';
  }

  lemma TextParses(s: string)
    requires s != "" && s[0] == '"' && ParseString(s).Parsed?
    ensures ParseValue(s) == Parsed(Str(ParseString(s).value), ParseString(s).rest)
  {
    hide ParseString, ParseNumber, ParseArray, ParseObject;
  }

  lemma NumberParses(n: Numeral, r: string)
    requires n.Ok() && Ends(r)
    ensures ParseValue(n.Text() + r) == Parsed(Num(n.Value()), r)
  {
    hide Numeral.Ok, Numeral.Text, Numeral.Value, ParseNumber, ParseArray, ParseObject, ParseString;
    NumeralStarts(n, r);
    NumeralParses(n, r);
  }

  lemma SkipTwice(s: string)
    ensures Skip(Skip(s)) == Skip(s)
  {
  }

  /** Behind a value come white space and a comma or a bracket, and these end a number. */
  lemma EndsBehind(after: string, next: string)
    requires Spaces(after) && next != "" && (next[0] == ',' || next[0] == ']' || next[0] == '}')
    ensures Ends(after + next) && Skip(after + next) == next
  {
    SkipSpaces(after, next);
  }

  lemma {:induction false} TreeParses(t: Tree, r: string)
    requires Ok(t) && AllWhole(t) && Follows(t, r)
    ensures ParseValue(Write(t, r)) == Parsed(Value(t), r)
    decreases t
  {
    hide PiecesOk, Numeral.Ok, Numeral.Text, Numeral.Value, ParseString, ParseNumber, ParseArray, ParseObject, Whole,
         ValueOf, TextOf, WriteItems, WriteMembers;
    match t
    case Word(v) => WordParses(v, r);
    case Number(n) => NumberParses(n, r);
    case String(ps) =>
      QuoteEnds(ps, r);
      StringParses(ps, r);
      TextParses(WriteString(ps, r));
    case Array(ws, items) => ArrayParses(ws, items, r);
    case Object(ws, members) => ObjectParses(ws, members, r);
  }

  lemma {:induction false} ArrayParses(ws: string, items: Items, r: string)
    requires Spaces(ws) && ItemsOk(items) && ItemsWhole(items)
    ensures ParseValue(Write(Array(ws, items), r)) == Parsed(Arr(ItemValues(items)), r)
    decreases items, 1
  {
    hide ParseValue, ParseItems, WriteItems, Skip, ItemsOk, ItemsWhole;
    var x := if items.NoItems? then ws + ("]" + r) else WriteItems(items, r);
    Opened(x);
    if items.NoItems? {
      SkipSpaces(ws, "]" + r);
      assert ("]" + r)[1..] == r;
    } else {
      ItemsParse(items, r);
      ItemsStart(items, r);
      SkipTwice(x);
    }
  }

  lemma Opened(x: string)
    ensures ParseValue("[" + x) == ParseArray(x) && ParseValue("{" + x) == ParseObject(x)
  {
    hide ParseString, ParseNumber, ParseArray, ParseObject;
    var a, b := "[" + x, "{" + x;
    assert a[0] == '[' && a[1..] == x && b[0] == '{' && b[1..] == x;
  }

  lemma ItemsStart(items: Items, r: string)
    requires items.Item? && ItemsOk(items)
    ensures
      var x := WriteItems(items, r);
      Skip(x) != "" && Skip(x)[0] != ']' && ParseItems(Skip(x)) == ParseItems(x)
  {
    hide Write, ParseValue, Skip;
    var next := if items.more.NoItems? then "]" + r else "," + WriteItems(items.more, r);
    WriteStarts(items.value, items.after + next);
    SkipSpaces(items.before, Write(items.value, items.after + next));
    SkipTwice(WriteItems(items, r));
  }

  lemma {:induction false} ItemsParse(items: Items, r: string)
    requires items.Item? && ItemsOk(items) && ItemsWhole(items)
    ensures ParseItems(WriteItems(items, r)) == Parsed(ItemValues(items), r)
    decreases items, 0
  {
    hide Write, ParseValue, Skip, Value, Ok, AllWhole;
    var next := if items.more.NoItems? then "]" + r else "," + WriteItems(items.more, r);
    WriteStarts(items.value, items.after + next);
    SkipSpaces(items.before, Write(items.value, items.after + next));
    EndsBehind(items.after, next);
    TreeParses(items.value, items.after + next);
    assert next[1..] == if items.more.NoItems? then r else WriteItems(items.more, r);
    if items.more.Item? {
      ItemsParse(items.more, r);
    } else {
      assert [Value(items.value)] + [] == [Value(items.value)];
    }
  }

  lemma {:induction false} ObjectParses(ws: string, members: Members, r: string)
    requires Spaces(ws) && MembersOk(members) && MembersWhole(members)
    ensures ParseValue(Write(Object(ws, members), r)) == Parsed(Obj(MemberValues(members)), r)
    decreases members, 2
  {
    hide ParseValue, ParseMembers, WriteMembers, Skip, MembersOk, MembersWhole;
    var x := if members.NoMembers? then ws + ("}" + r) else WriteMembers(members, r);
    Opened(x);
    if members.NoMembers? {
      SkipSpaces(ws, "}" + r);
      assert ("}" + r)[1..] == r;
    } else {
      MembersParse(members, r);
      MembersStart(members, r);
    }
  }

  lemma MembersStart(m: Members, r: string)
    requires m.Named? && MembersOk(m)
    ensures
      var x := WriteMembers(m, r);
      Skip(x) != "" && Skip(x)[0] != '}' && ParseMembers(Skip(x)) == ParseMembers(x)
  {
    hide Write, ParseString, ParseValue, Skip;
    var next := if m.more.NoMembers? then "}" + r else "," + WriteMembers(m.more, r);
    SkipSpaces(m.before, WriteString(m.name, m.mid + (":" + (m.mid' + Write(m.value, m.after + next)))));
    SkipTwice(WriteMembers(m, r));
  }

  lemma {:induction false} MembersParse(m: Members, r: string)
    requires m.Named? && MembersOk(m) && MembersWhole(m)
    ensures ParseMembers(WriteMembers(m, r)) == Parsed(MemberValues(m), r)
    decreases m, 1
  {
    hide Write, ParseMember, Skip, Value, Ok, AllWhole, WriteString, PiecesOk, Whole;
    var next := if m.more.NoMembers? then "}" + r else "," + WriteMembers(m.more, r);
    MemberParses(m, next);
    EndsBehind(m.after, next);
    assert next[1..] == if m.more.NoMembers? then r else WriteMembers(m.more, r);
    if m.more.Named? {
      MembersParse(m.more, r);
    } else {
      assert [Member(ValueOf(m.name), Value(m.value))] + [] == [Member(ValueOf(m.name), Value(m.value))];
    }
  }

  lemma {:induction false} MemberParses(m: Members, next: string)
    requires m.Named? && MembersOk(m) && MembersWhole(m)
    requires next != "" && (next[0] == ',' || next[0] == '}')
    ensures
      var x := m.before + WriteString(m.name, m.mid + (":" + (m.mid' + Write(m.value, m.after + next))));
      ParseMember(x) == Parsed(Member(ValueOf(m.name), Value(m.value)), m.after + next)
    decreases m, 0
  {
    hide Write, ParseString, ParseValue, Skip, Value, Ok, AllWhole, PiecesOk, Whole, TextOf, ValueOf;
    var v := Write(m.value, m.after + next);
    var colon := ":" + (m.mid' + v);
    EndsBehind(m.after, next);
    WriteStarts(m.value, m.after + next);
    SkipSpaces(m.before, WriteString(m.name, m.mid + colon));
    QuoteEnds(m.name, m.mid + colon);
    StringParses(m.name, m.mid + colon);
    SkipSpaces(m.mid, colon);
    assert colon[1..] == m.mid' + v;
    SkipSpaces(m.mid', v);
    TreeParses(m.value, m.after + next);
  }

  // ----- and what is read is such a text

  lemma WordIs(s: string) returns (v: Json)
    requires "null" <= s || "false" <= s || "true" <= s
    ensures Ok(Word(v)) && ParseValue(s).Parsed? && ParseValue(s).value == v && s == Write(Word(v), ParseValue(s).rest)
  {
    hide ParseString, ParseNumber, ParseArray, ParseObject;
    v := if "null" <= s then Null else if "false" <= s then False else True;
    assert s == s[..|WordText(v)|] + s[|WordText(v)|..];
  }

  /** A tree is found again in the text; only the end of the text can stand for a closing quote. */
  lemma {:induction false} TreeIs(s: string) returns (t: Tree, closed: bool)
    requires ParseValue(s).Parsed?
    ensures closed ==> Ok(t) && s == Write(t, ParseValue(s).rest) && ParseValue(s).value == Value(t)
    ensures !closed ==>
      && ParseValue(s).rest == "" && t.String? && PiecesOk(t.ps, "") && s == "\"" + TextOf(t.ps)
      && ParseValue(s).value == Str(ValueOf(t.ps))
    decreases |s|, 0
  {
    hide PiecesOk, Numeral.Ok, Numeral.Text, Numeral.Value, ParseString, ParseNumber, ParseArray, ParseObject, ValueOf,
         TextOf, WriteItems, WriteMembers, End;
    closed := true;
    if "null" <= s || "false" <= s || "true" <= s {
      var v := WordIs(s);
      t := Word(v);
    } else if s[0] == '"' {
      var ps;
      ps, closed := StringIs(s);
      t := String(ps);
      StringEnds(ps, closed, ParseString(s).rest);
    } else if s[0] == '-' || Digit(s[0]) {
      var n := NumeralIs(s);
      t := Number(n);
    } else if s[0] == '[' {
      t := ArrayIs(s[1..]);
      assert s == "[" + s[1..];
    } else {
      t := ObjectIs(s[1..]);
      assert s == "{" + s[1..];
    }
  }

  lemma StringEnds(ps: seq<Piece>, closed: bool, rest: string)
    requires PiecesOk(ps, End(closed, rest)) && (!closed ==> rest == "")
    ensures closed ==> PiecesOk(ps, "\"") && TextOf(ps) + End(closed, rest) == TextOf(ps) + ("\"" + rest)
    ensures !closed ==> PiecesOk(ps, "") && TextOf(ps) + End(closed, rest) == TextOf(ps)
  {
    hide PiecesOk, TextOf;
    QuoteEnds(ps, rest);
    if !closed {
      assert End(closed, rest) == "" && TextOf(ps) + "" == TextOf(ps);
    }
  }

  lemma {:induction false} ArrayIs(s: string) returns (t: Tree)
    requires ParseArray(s).Parsed?
    ensures Ok(t) && "[" + s == Write(t, ParseArray(s).rest) && ParseArray(s).value == Value(t)
    decreases |s|, 3
  {
    hide ParseItems, WriteItems, Skip, ItemsOk;
    var ws := SpacesAre(s);
    var s1 := Skip(s);
    if s1 != "" && s1[0] == ']' {
      t := Array(ws, NoItems);
      assert s1 == "]" + s1[1..];
      assert ItemsOk(NoItems) by { NothingOk(); }
    } else {
      var items := ItemsAre(s1);
      t := Array("", MoreBefore(ws, items));
      Before(ws, items, ParseArray(s).rest);
    }
  }

  lemma NothingOk()
    ensures ItemsOk(NoItems) && MembersOk(NoMembers)
  {
  }

  function MoreBefore(ws: string, items: Items): Items
    requires items.Item?
  {
    items.(before := ws + items.before)
  }

  lemma Before(ws: string, items: Items, r: string)
    requires items.Item? && ItemsOk(items) && Spaces(ws)
    ensures ItemsOk(MoreBefore(ws, items)) && ItemValues(MoreBefore(ws, items)) == ItemValues(items)
    ensures WriteItems(MoreBefore(ws, items), r) == ws + WriteItems(items, r)
  {
    hide Write, Value, Ok;
  }

  lemma {:induction false} ItemsAre(s: string) returns (items: Items)
    requires ParseItems(s).Parsed?
    ensures items.Item? && ItemsOk(items) && s == WriteItems(items, ParseItems(s).rest)
    ensures ParseItems(s).value == ItemValues(items)
    decreases |s|, 2
  {
    hide ParseValue, Skip, Write, Value, Ok;
    var before := SpacesAre(s);
    var s0 := Skip(s);
    var v, closed := TreeIs(s0);
    var rest := ParseValue(s0).rest;
    var after := SpacesAre(rest);
    var s1 := Skip(rest);
    NotAtEnd(rest);
    assert s1 == [s1[0]] + s1[1..];
    if s1[0] == ']' {
      items := Item(before, v, after, NoItems);
      assert [Value(v)] + [] == [Value(v)];
    } else {
      var more := ItemsAre(s1[1..]);
      items := Item(before, v, after, more);
    }
  }

  lemma NotAtEnd(rest: string)
    ensures rest == "" ==> Skip(rest) == ""
  {
  }

  lemma {:induction false} ObjectIs(s: string) returns (t: Tree)
    requires ParseObject(s).Parsed?
    ensures Ok(t) && "{" + s == Write(t, ParseObject(s).rest) && ParseObject(s).value == Value(t)
    decreases |s|, 3
  {
    hide ParseMembers, WriteMembers, Skip, MembersOk;
    var ws := SpacesAre(s);
    var s1 := Skip(s);
    if s1 != "" && s1[0] == '}' {
      t := Object(ws, NoMembers);
      assert s1 == "}" + s1[1..];
      assert MembersOk(NoMembers) by { NothingOk(); }
    } else {
      var members := MembersAre(s1);
      t := Object("", members.(before := ws + members.before));
      BeforeName(ws, members, ParseObject(s).rest);
    }
  }

  lemma BeforeName(ws: string, m: Members, r: string)
    requires m.Named? && MembersOk(m) && Spaces(ws)
    ensures
      var m' := m.(before := ws + m.before);
      MembersOk(m') && MemberValues(m') == MemberValues(m) && WriteMembers(m', r) == ws + WriteMembers(m, r)
  {
    hide Write, Value, Ok, WriteString, ValueOf, PiecesOk;
  }

  lemma {:induction false} MembersAre(s: string) returns (m: Members)
    requires ParseMembers(s).Parsed?
    ensures m.Named? && MembersOk(m) && s == WriteMembers(m, ParseMembers(s).rest)
    ensures ParseMembers(s).value == MemberValues(m)
    decreases |s|, 2
  {
    hide ParseMember, Skip, Write, Value, Ok, WriteString, PiecesOk, ValueOf;
    var rest := ParseMember(s).rest;
    var after := SpacesAre(rest);
    var s1 := Skip(rest);
    NotAtEnd(rest);
    assert s1 == [s1[0]] + s1[1..];
    m := MemberIs(s, after, s1);
    if s1[0] == '}' {
      assert [Member(ValueOf(m.name), Value(m.value))] + [] == [Member(ValueOf(m.name), Value(m.value))];
    } else {
      var more := MembersAre(s1[1..]);
      m := m.(more := more);
    }
  }

  /** The first member, with nothing behind it yet. */
  lemma {:induction false} MemberIs(s: string, after: string, next: string) returns (m: Members)
    requires ParseMember(s).Parsed? && Spaces(after) && ParseMember(s).rest == after + next && next != ""
    ensures m.Named? && MembersOk(m) && m.after == after && m.more.NoMembers?
    ensures s == m.before + WriteString(m.name, m.mid + (":" + (m.mid' + Write(m.value, after + next))))
    ensures ParseMember(s).value == Member(ValueOf(m.name), Value(m.value))
    decreases |s|, 1
  {
    hide ParseValue, ParseString, Skip, Write, Value, Ok, PiecesOk, ValueOf, TextOf, End;
    var before := SpacesAre(s);
    var s0 := Skip(s);
    var name, closed := StringIs(s0);
    var rest := ParseString(s0).rest;
    StringEnds(name, closed, rest);
    var mid := SpacesAre(rest);
    var s1 := Skip(rest);
    NotAtEnd(rest);
    assert s1 == ":" + s1[1..];
    var mid' := SpacesAre(s1[1..]);
    var v, whole := TreeIs(Skip(s1[1..]));
    m := Named(before, name, mid, mid', v, after, NoMembers);
    NothingOk();
  }

  // ----- both

  /** cJSON_Parse reads every text of the grammar as what it stands for, if all of its \u escapes have four digits. */
  lemma GrammarParses(ws: string, t: Tree, r: string)
    requires Spaces(ws) && Ok(t) && AllWhole(t) && Follows(t, r)
    ensures Parse(ws + Write(t, r)) == Parsed(Value(t), r)
  {
    hide Write, ParseValue, Ok, AllWhole, Value;
    WriteStarts(t, r);
    SkipSpaces(ws, Write(t, r));
    TreeParses(t, r);
  }

  /** And what it reads is such a text, or a string that the end of the text closes. */
  lemma ParsedIsGrammar(s: string) returns (ws: string, t: Tree, closed: bool)
    requires Parse(s).Parsed?
    ensures Spaces(ws)
    ensures closed ==> Ok(t) && s == ws + Write(t, Parse(s).rest) && Parse(s).value == Value(t)
    ensures !closed ==>
      && Parse(s).rest == "" && t.String? && PiecesOk(t.ps, "") && s == ws + ("\"" + TextOf(t.ps))
      && Parse(s).value == Str(ValueOf(t.ps))
  {
    hide Write, ParseValue, Ok, Value, PiecesOk, ValueOf, TextOf;
    ws := SpacesAre(s);
    t, closed := TreeIs(Skip(s));
  }
}
