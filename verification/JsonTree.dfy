/** JSON trees, printed and parsed as cJSON does it. */
module JsonTree {
  import opened JsonText

  datatype Json = Null | False | True | Num(value: Decimal) | Str(s: string) | Arr(items: seq<Json>)
    | Obj(members: seq<Member>)

  datatype Member = Member(key: string, value: Json)

  // ----- printing

  function Tabs(n: int): string { if n <= 0 then "" else "\t" + Tabs(n - 1) }

  /** The trees that can be printed here: numbers are integers of 32 bits. */
  predicate Printable(j: Json) {
    match j
    case Num(v) => v.exp == 0 && -0x8000_0000 <= v.mant < 0x8000_0000
    case Str(s) => IsText(s)
    case Arr(items) => forall i :: 0 <= i < |items| ==> Printable(items[i])
    case Obj(members) => forall i :: 0 <= i < |members| ==> IsText(members[i].key) && Printable(members[i].value)
    case _ => true
  }

  /** print_value. */
  function Print(j: Json, depth: nat, fmt: bool): string
    decreases j
  {
    match j
    case Null => "null"
    case False => "false"
    case True => "true"
    case Num(v) => PrintInt(v.mant)
    case Str(s) => PrintString(s)
    case Arr(items) => "[" + PrintItems(items, depth + 1, fmt) + "]"
    case Obj(members) =>
      if members == [] then "{" + (if fmt then "\n" + Tabs(depth - 1) else "") + "}"
      else
        "{" + (if fmt then "\n" else "") + PrintMembers(members, depth + 1, fmt)
        + (if fmt then Tabs(depth) else "") + "}"
  }

  function Comma(more: bool, fmt: bool): string { if !more then "" else if fmt then ", " else "," }

  function PrintItems(items: seq<Json>, depth: nat, fmt: bool): string
    decreases items
  {
    if items == [] then ""
    else Print(items[0], depth, fmt) + Comma(|items| > 1, fmt) + PrintItems(items[1..], depth, fmt)
  }

  function PrintMembers(members: seq<Member>, depth: nat, fmt: bool): string
    decreases members
  {
    if members == [] then ""
    else
      (if fmt then Tabs(depth) else "") + PrintString(members[0].key) + (if fmt then ":\t" else ":")
        + Print(members[0].value, depth, fmt)
      + (if |members| > 1 then "," else "") + (if fmt then "\n" else "") + PrintMembers(members[1..], depth, fmt)
  }

  // ----- parsing

  /** parse_value. */
  function ParseValue(s: string): (r: Parsed<Json>)
    ensures r.Parsed? ==> |r.rest| < |s|
    decreases |s|, 0
  {
    if "null" <= s then Parsed(Null, s[4..])
    else if "false" <= s then Parsed(False, s[5..])
    else if "true" <= s then Parsed(True, s[4..])
    else if s == "" then Fail
    else if s[0] == '"' then
      match ParseString(s) {
        case Fail => Fail
        case Overrun => Overrun
        case Parsed(t, rest) => Parsed(Str(t), rest)
      }
    else if s[0] == '-' || Digit(s[0]) then
      NumberMoves(s);
      var (v, rest) := ParseNumber(s);
      Parsed(Num(v), rest)
    else if s[0] == '[' then ParseArray(s[1..])
    else if s[0] == '{' then ParseObject(s[1..])
    else Fail
  }

  /** parse_array, behind the opening bracket. */
  function ParseArray(s: string): (r: Parsed<Json>)
    ensures r.Parsed? ==> |r.rest| < |s|
    decreases |s|, 3
  {
    var s1 := Skip(s);
    if s1 != "" && s1[0] == ']' then Parsed(Arr([]), s1[1..])
    else match ParseItems(s1) {
      case Fail => Fail
      case Overrun => Overrun
      case Parsed(items, rest) => Parsed(Arr(items), rest)
    }
  }

  /** parse_object, behind the opening brace. */
  function ParseObject(s: string): (r: Parsed<Json>)
    ensures r.Parsed? ==> |r.rest| < |s|
    decreases |s|, 3
  {
    var s1 := Skip(s);
    if s1 != "" && s1[0] == '}' then Parsed(Obj([]), s1[1..])
    else match ParseMembers(s1) {
      case Fail => Fail
      case Overrun => Overrun
      case Parsed(members, rest) => Parsed(Obj(members), rest)
    }
  }

  lemma NumberMoves(s: string)
    requires s != "" && (s[0] == '-' || Digit(s[0]))
    ensures |ParseNumber(s).1| < |s|
  {
  }

  /** Values with commas between them, and the closing bracket. */
  function ParseItems(s: string): (r: Parsed<seq<Json>>)
    ensures r.Parsed? ==> |r.rest| < |s|
    decreases |s|, 2
  {
    match ParseValue(Skip(s))
    case Fail => Fail
    case Overrun => Overrun
    case Parsed(v, rest) =>
      var s1 := Skip(rest);
      if s1 == "" then Fail
      else if s1[0] == ']' then Parsed([v], s1[1..])
      else if s1[0] == ',' then
        match ParseItems(s1[1..]) {
          case Fail => Fail
          case Overrun => Overrun
          case Parsed(vs, rest') => Parsed([v] + vs, rest')
        }
      else Fail
  }

  /** A name, a colon and a value. */
  function ParseMember(s: string): (r: Parsed<Member>)
    ensures r.Parsed? ==> |r.rest| < |s|
    decreases |s|, 1
  {
    match ParseString(Skip(s))
    case Fail => Fail
    case Overrun => Overrun
    case Parsed(key, rest) =>
      var s1 := Skip(rest);
      if s1 == "" || s1[0] != ':' then Fail
      else match ParseValue(Skip(s1[1..])) {
        case Fail => Fail
        case Overrun => Overrun
        case Parsed(v, rest') => Parsed(Member(key, v), rest')
      }
  }

  /** Members with commas between them, and the closing brace. */
  function ParseMembers(s: string): (r: Parsed<seq<Member>>)
    ensures r.Parsed? ==> |r.rest| < |s|
    decreases |s|, 2
  {
    match ParseMember(s)
    case Fail => Fail
    case Overrun => Overrun
    case Parsed(m, rest) =>
      var s1 := Skip(rest);
      if s1 == "" then Fail
      else if s1[0] == '}' then Parsed([m], s1[1..])
      else if s1[0] == ',' then
        match ParseMembers(s1[1..]) {
          case Fail => Fail
          case Overrun => Overrun
          case Parsed(ms, rest') => Parsed([m] + ms, rest')
        }
      else Fail
  }

  /** cJSON_Parse. */
  function Parse(s: string): Parsed<Json> { ParseValue(Skip(s)) }
}
