/** The printing functions of cJSON, with the sizes of the buffers they fill. */
module JsonPrinter {
  import opened JsonText
  import opened JsonTree

  /** The first loop of print_string_ptr: how long the escaped string will be. */
  method EscapedSize(str: string) returns (len: nat)
    ensures len == |EscapeAll(str)|
  {
    hide Escape;
    len := 0;
    var i := 0;
    assert str[0..] == str;
    while i < |str|
      invariant 0 <= i <= |str| && len + |EscapeAll(str[i..])| == |EscapeAll(str)|
    {
      len := len + 1;
      if Short(str[i]) {
        len := len + 1;
      } else if str[i] < ' ' {
        len := len + 5;
      }
      EscapeSize(str[i]);
      assert str[i..][1..] == str[i + 1..];
      i := i + 1;
    }
  }

  /** The characters with an escape of two characters. */
  predicate Short(c: char) {
    c == '"' || c == '\\' || c == '\U{8}' || c == '\U{C}' || c == '\n' || c == '\r' || c == '\t'
  }

  lemma EscapeSize(c: char)
    ensures |Escape(c)| == if Short(c) then 2 else if c < ' ' then 6 else 1
  {
  }

  /** print_string_ptr: the buffer has exactly the size that is needed. */
  method PrintStringPtr(str: string) returns (out: array<char>)
    ensures fresh(out) && out.Length == |PrintString(str)| + 1
    ensures out[..out.Length - 1] == PrintString(str) && out[out.Length - 1] == '\0'
  {
    hide Escape, EscapeAll;
    var len := EscapedSize(str);
    out := new char[len + 3];
    out[0] := '"';
    var p, i := 1, 0;
    Edges(str);
    assert out[..1] == ['"'];
    while i < |str|
      invariant 0 <= i <= |str| && p == 1 + |EscapeAll(str[..i])| && p + |EscapeAll(str[i..])| == len + 1
      invariant out[..p] == ['"'] + EscapeAll(str[..i])
    {
      EscapeFront(str, i);
      Associative(['"'], EscapeAll(str[..i]), Escape(str[i]));
      p := PutEscape(out, p, str[i]);
      i := i + 1;
    }
    assert str[..i] == str;
    out[p] := '"';
    assert out[..p + 1] == out[..p] + ['"'];
    out[p + 1] := '\0';
  }

  lemma Edges(str: string)
    ensures EscapeAll(str[..0]) == "" && EscapeAll(str[0..]) == EscapeAll(str) && EscapeAll(str[|str|..]) == ""
  {
    assert str[0..] == str;
  }

  lemma Associative(a: string, b: string, c: string)
    ensures (a + b) + c == a + (b + c)
  {
  }

  lemma EscapeFront(str: string, i: nat)
    requires i < |str|
    ensures EscapeAll(str[i..]) == Escape(str[i]) + EscapeAll(str[i + 1..])
    ensures EscapeAll(str[..i + 1]) == EscapeAll(str[..i]) + Escape(str[i])
  {
    hide Escape;
    assert str[i..][1..] == str[i + 1..];
    assert str[..i + 1] == str[..i] + [str[i]];
    EscapeSnoc(str[..i], str[i]);
  }

  lemma {:induction false} EscapeSnoc(t: string, c: char)
    ensures EscapeAll(t + [c]) == EscapeAll(t) + Escape(c)
  {
    hide Escape;
    if t == "" {
      assert t + [c] == [c] && [c][1..] == "";
    } else {
      assert (t + [c])[1..] == t[1..] + [c];
      EscapeSnoc(t[1..], c);
    }
  }

  /** One character, as it is or escaped. */
  method PutEscape(out: array<char>, p0: nat, c: char) returns (p: nat)
    requires p0 + |Escape(c)| <= out.Length
    modifies out
    ensures p == p0 + |Escape(c)| && out[..p] == old(out[..p0]) + Escape(c)
  {
    hide HexDigit, Letter;
    p := p0;
    if c > '\U{1F}' && c != '"' && c != '\\' {
      p := PutChar(out, p, c);
      return;
    }
    p := PutChar(out, p, '\\');
    p := PutChar(out, p, Letter(c));
    if Letter(c) == 'u' {
      ghost var mid := out[..p];
      out[p], out[p + 1] := '0', '0';
      out[p + 2], out[p + 3] := HexDigit(c as int / 16), HexDigit(c as int % 16);
      assert out[..p] == mid;
      assert out[..p + 4] == mid + ['0', '0', HexDigit(c as int / 16), HexDigit(c as int % 16)];
      p := p + 4;
    }
  }

  /** *ptr2++ = c. */
  method PutChar(out: array<char>, p0: nat, c: char) returns (p: nat)
    requires p0 < out.Length
    modifies out
    ensures p == p0 + 1 && out[..p] == old(out[..p0]) + [c]
  {
    out[p0] := c;
    p := p0 + 1;
  }

  // ----- arrays

  /** The lengths of the entries, n characters added to each. */
  function Total(entries: seq<string>, n: nat): nat {
    if entries == [] then 0 else Total(entries[..|entries| - 1], n) + |entries[|entries| - 1]| + n
  }

  /** The entries from the k-th on, with commas between them. */
  function Joined(entries: seq<string>, k: nat, fmt: bool): string
    decreases |entries| - k
  {
    if k >= |entries| then "" else entries[k] + Comma(k + 1 < |entries|, fmt) + Joined(entries, k + 1, fmt)
  }

  lemma {:induction false} JoinedItems(items: seq<Json>, entries: seq<string>, k: nat, depth: nat, fmt: bool)
    requires |entries| == |items| && k <= |items|
    requires forall i :: 0 <= i < |items| ==> entries[i] == Print(items[i], depth, fmt)
    ensures Joined(entries, k, fmt) == PrintItems(items[k..], depth, fmt)
    decreases |items| - k
  {
    hide Print;
    if k < |items| {
      JoinedItems(items, entries, k + 1, depth, fmt);
      assert items[k..][1..] == items[k + 1..];
    }
  }

  /** Puts the entries of an array together: the buffer is large enough. */
  method JoinEntries(entries: seq<string>, len: nat, fmt: bool) returns (out: string)
    requires entries != [] && len == 5 + Total(entries, if fmt then 3 else 2)
    ensures out == "[" + Joined(entries, 0, fmt) + "]" && |out| < len
  {
    hide Joined, Total;
    out := "[";
    ghost var n := if fmt then 3 else 2;
    TotalNone(entries, n);
    var i := 0;
    while i < |entries|
      invariant 0 <= i <= |entries| && out + Joined(entries, i, fmt) == "[" + Joined(entries, 0, fmt)
      invariant |out| <= 1 + Total(entries[..i], n)
    {
      JoinedNext(entries, i, fmt);
      TotalNext(entries, i, n);
      ghost var before := out;
      out := out + entries[i];
      if i != |entries| - 1 {
        out := out + ",";
        if fmt {
          out := out + " ";
        }
      }
      assert out == before + (entries[i] + Comma(i + 1 < |entries|, fmt));
      Associative(before, entries[i] + Comma(i + 1 < |entries|, fmt), Joined(entries, i + 1, fmt));
      i := i + 1;
    }
    assert entries[..i] == entries;
    JoinedNone(entries, fmt);
    out := out + "]";
  }

  lemma JoinedNext(entries: seq<string>, i: nat, fmt: bool)
    requires i < |entries|
    ensures Joined(entries, i, fmt) == entries[i] + Comma(i + 1 < |entries|, fmt) + Joined(entries, i + 1, fmt)
  {
  }

  lemma JoinedNone(entries: seq<string>, fmt: bool)
    ensures Joined(entries, |entries|, fmt) == ""
  {
  }

  lemma TotalNone(entries: seq<string>, n: nat)
    ensures Total(entries[..0], n) == 0
  {
  }

  lemma TotalNext(entries: seq<string>, i: nat, n: nat)
    requires i < |entries|
    ensures Total(entries[..i + 1], n) == Total(entries[..i], n) + |entries[i]| + n
  {
    assert entries[..i + 1][..i] == entries[..i];
  }

  /** print_array. */
  method PrintArray(items: seq<Json>, depth: nat, fmt: bool) returns (out: string)
    requires Printable(Arr(items))
    ensures out == Print(Arr(items), depth, fmt)
    decreases items, 1
  {
    hide Print, Printable, Total;
    if |items| == 0 {
      EmptyArray(depth, fmt);
      return "[]";
    }
    var entries: seq<string> := [];
    var len, i := 5, 0;
    TotalNone(entries, if fmt then 3 else 2);
    while i < |items|
      invariant 0 <= i <= |items| && |entries| == i && len == 5 + Total(entries, if fmt then 3 else 2)
      invariant forall k :: 0 <= k < i ==> entries[k] == Print(items[k], depth + 1, fmt)
    {
      PrintableItem(items, i);
      var ret := PrintValue(items[i], depth + 1, fmt);
      TotalNext(entries + [ret], i, if fmt then 3 else 2);
      assert (entries + [ret])[..i] == entries && (entries + [ret])[..i + 1] == entries + [ret];
      entries := entries + [ret];
      len := len + |ret| + 2 + if fmt then 1 else 0;
      i := i + 1;
    }
    out := JoinEntries(entries, len, fmt);
    JoinedItems(items, entries, 0, depth + 1, fmt);
    assert items[0..] == items;
    ArrayText(items, depth, fmt);
  }

  lemma EmptyArray(depth: nat, fmt: bool)
    ensures Print(Arr([]), depth, fmt) == "[]"
  {
  }

  lemma ArrayText(items: seq<Json>, depth: nat, fmt: bool)
    ensures Print(Arr(items), depth, fmt) == "[" + PrintItems(items, depth + 1, fmt) + "]"
  {
  }

  lemma PrintableItem(items: seq<Json>, i: nat)
    requires Printable(Arr(items)) && i < |items|
    ensures Printable(items[i])
  {
  }

  // ----- objects

  method PutTabs(out0: string, n: int) returns (out: string)
    ensures out == out0 + Tabs(n)
  {
    out := out0;
    var i := 0;
    while i < n
      invariant i <= n || i == 0
      invariant out + Tabs(n - i) == out0 + Tabs(n)
    {
      Associative(out, "\t", Tabs(n - i - 1));
      out := out + "\t";
      i := i + 1;
    }
  }

  /** A member with its line. */
  function Line(name: string, entry: string, more: bool, depth: nat, fmt: bool): string {
    (if fmt then Tabs(depth) else "") + name + (if fmt then ":\t" else ":") + entry + (if more then "," else "")
      + (if fmt then "\n" else "")
  }

  function Lines(names: seq<string>, entries: seq<string>, k: nat, depth: nat, fmt: bool): string
    requires |names| == |entries|
    decreases |entries| - k
  {
    if k >= |entries| then ""
    else Line(names[k], entries[k], k + 1 < |entries|, depth, fmt) + Lines(names, entries, k + 1, depth, fmt)
  }

  lemma {:induction false} LinesMembers(members: seq<Member>, names: seq<string>, entries: seq<string>, k: nat,
                                        depth: nat, fmt: bool)
    requires |names| == |entries| == |members| && k <= |members|
    requires forall i :: 0 <= i < |members| ==>
      names[i] == PrintString(members[i].key) && entries[i] == Print(members[i].value, depth, fmt)
    ensures Lines(names, entries, k, depth, fmt) == PrintMembers(members[k..], depth, fmt)
    decreases |members| - k
  {
    hide Print, PrintString, Tabs;
    if k < |members| {
      LinesMembers(members, names, entries, k + 1, depth, fmt);
      assert members[k..][1..] == members[k + 1..];
    }
  }

  lemma {:induction false} TabsLength(n: int)
    ensures |Tabs(n)| == if n <= 0 then 0 else n
  {
    if n > 0 {
      TabsLength(n - 1);
    }
  }

  lemma LineLength(name: string, entry: string, more: bool, depth: nat, fmt: bool)
    ensures |Line(name, entry, more, depth, fmt)| <= |name| + |entry| + 2 + if fmt then 2 + depth else 0
  {
    TabsLength(depth);
  }

  /** Adds a member to the text. */
  method PutLine(out0: string, name: string, entry: string, more: bool, depth: nat, fmt: bool) returns (out: string)
    ensures out == out0 + Line(name, entry, more, depth, fmt)
  {
    hide Tabs;
    out := out0;
    if fmt {
      out := PutTabs(out, depth);
    }
    out := out + name;
    out := out + ":";
    if fmt {
      out := out + "\t";
    }
    out := out + entry;
    if more {
      out := out + ",";
    }
    if fmt {
      out := out + "\n";
    }
    LineParts(out0, if fmt then Tabs(depth) else "", name, fmt, entry, more);
  }

  lemma LineParts(o: string, t: string, name: string, fmt: bool, entry: string, more: bool)
    ensures
      var c, m, n := if fmt then ":\t" else ":", if more then "," else "", if fmt then "\n" else "";
      && o + (t + name + c + entry + m + n) == o + t + name + c + entry + m + n
      && o + t + name + ":" + "\t" == o + t + name + ":\t"
  {
  }

  /** The room that is counted for the members. */
  function Room(names: seq<string>, entries: seq<string>, n: nat): nat
    requires |names| == |entries|
  {
    if entries == [] then 0
    else Room(names[..|names| - 1], entries[..|entries| - 1], n) + |names[|names| - 1]| + |entries[|entries| - 1]| + n
  }

  lemma RoomNext(names: seq<string>, entries: seq<string>, i: nat, n: nat)
    requires i < |names| == |entries|
    ensures Room(names[..i + 1], entries[..i + 1], n)
      == Room(names[..i], entries[..i], n) + |names[i]| + |entries[i]| + n
  {
    assert entries[..i + 1][..i] == entries[..i] && names[..i + 1][..i] == names[..i];
  }

  lemma RoomNone(names: seq<string>, entries: seq<string>, n: nat)
    requires |names| == |entries|
    ensures Room(names[..0], entries[..0], n) == 0
  {
  }

  /** Puts the members of an object together: the buffer is large enough. */
  method JoinMembers(names: seq<string>, entries: seq<string>, len: nat, depth: nat, fmt: bool) returns (out: string)
    requires |names| == |entries| > 0 && depth >= 1
    requires len == 7 + (if fmt then depth else 0) + Room(names, entries, 2 + if fmt then 2 + depth else 0)
    ensures out == "{" + (if fmt then "\n" else "") + Lines(names, entries, 0, depth, fmt)
      + (if fmt then Tabs(depth - 1) else "") + "}"
    ensures |out| < len
  {
    hide Lines, Line, Room, Tabs;
    out := "{";
    if fmt {
      out := out + "\n";
    }
    ghost var head, n := out, 2 + if fmt then 2 + depth else 0;
    RoomNone(names, entries, n);
    var i := 0;
    while i < |entries|
      invariant 0 <= i <= |entries|
      invariant out + Lines(names, entries, i, depth, fmt) == head + Lines(names, entries, 0, depth, fmt)
      invariant |out| <= 2 + Room(names[..i], entries[..i], n)
    {
      LinesNext(names, entries, i, depth, fmt);
      RoomNext(names, entries, i, n);
      ghost var line := Line(names[i], entries[i], i + 1 < |entries|, depth, fmt);
      LineLength(names[i], entries[i], i + 1 < |entries|, depth, fmt);
      Associative(out, line, Lines(names, entries, i + 1, depth, fmt));
      out := PutLine(out, names[i], entries[i], i + 1 < |entries|, depth, fmt);
      i := i + 1;
    }
    assert entries[..i] == entries && names[..i] == names;
    LinesNone(names, entries, depth, fmt);
    TabsLength(depth - 1);
    assert out == head + Lines(names, entries, 0, depth, fmt) && head == "{" + if fmt then "\n" else "";
    if fmt {
      out := PutTabs(out, depth - 1);
    } else {
      assert out + "" == out;
    }
    out := out + "}";
  }

  lemma LinesNext(names: seq<string>, entries: seq<string>, i: nat, depth: nat, fmt: bool)
    requires i < |names| == |entries|
    ensures Lines(names, entries, i, depth, fmt) ==
      Line(names[i], entries[i], i + 1 < |entries|, depth, fmt) + Lines(names, entries, i + 1, depth, fmt)
  {
  }

  lemma LinesNone(names: seq<string>, entries: seq<string>, depth: nat, fmt: bool)
    requires |names| == |entries|
    ensures Lines(names, entries, |entries|, depth, fmt) == ""
  {
  }

  /** print_object. */
  method PrintObject(members: seq<Member>, depth0: nat, fmt: bool) returns (out: string)
    requires Printable(Obj(members))
    ensures out == Print(Obj(members), depth0, fmt)
    decreases members, 1
  {
    hide Print, Printable, Room, PrintString;
    if |members| == 0 {
      out := "{";
      if fmt {
        out := out + "\n";
        out := PutTabs(out, depth0 - 1);
      }
      out := out + "}";
      EmptyText(depth0, fmt);
      return;
    }
    var entries: seq<string>, names: seq<string> := [], [];
    var depth := depth0 + 1;
    var len := 7 + if fmt then depth else 0;
    ghost var n := 2 + if fmt then 2 + depth else 0;
    RoomNone(names, entries, n);
    var i := 0;
    while i < |members|
      invariant 0 <= i <= |members| && |entries| == |names| == i
      invariant len == 7 + (if fmt then depth else 0) + Room(names, entries, n)
      invariant forall k :: 0 <= k < i ==>
        names[k] == PrintString(members[k].key) && entries[k] == Print(members[k].value, depth, fmt)
    {
      PrintableMember(members, i);
      var buf := PrintStringPtr(members[i].key);
      var str := buf[..buf.Length - 1];
      var ret := PrintValue(members[i].value, depth, fmt);
      RoomNext(names + [str], entries + [ret], i, n);
      assert (entries + [ret])[..i] == entries && (entries + [ret])[..i + 1] == entries + [ret];
      assert (names + [str])[..i] == names && (names + [str])[..i + 1] == names + [str];
      names, entries := names + [str], entries + [ret];
      len := len + |ret| + |str| + 2 + if fmt then 2 + depth else 0;
      i := i + 1;
    }
    out := JoinMembers(names, entries, len, depth, fmt);
    LinesMembers(members, names, entries, 0, depth, fmt);
    assert members[0..] == members;
    ObjectText(members, depth0, fmt);
  }

  lemma EmptyText(depth: nat, fmt: bool)
    ensures Print(Obj([]), depth, fmt) == if fmt then "{" + "\n" + Tabs(depth - 1) + "}" else "{" + "}"
  {
  }

  lemma ObjectText(members: seq<Member>, depth: nat, fmt: bool)
    requires members != []
    ensures Print(Obj(members), depth, fmt) ==
      "{" + (if fmt then "\n" else "") + PrintMembers(members, depth + 1, fmt) + (if fmt then Tabs(depth) else "") + "}"
  {
  }

  lemma PrintableMember(members: seq<Member>, i: nat)
    requires Printable(Obj(members)) && i < |members|
    ensures IsText(members[i].key) && Printable(members[i].value)
  {
  }

  /** print_value. */
  method PrintValue(j: Json, depth: nat, fmt: bool) returns (out: string)
    requires Printable(j)
    ensures out == Print(j, depth, fmt)
    decreases j, 0
  {
    hide PrintItems, PrintMembers, PrintString, PrintNat;
    match j
    case Null => out := "null";
    case False => out := "false";
    case True => out := "true";
    case Num(v) => out := PrintInt(v.mant);
    case Str(s) =>
      var buf := PrintStringPtr(s);
      out := buf[..buf.Length - 1];
    case Arr(items) => out := PrintArray(items, depth, fmt);
    case Obj(members) => out := PrintObject(members, depth, fmt);
  }
}
