/** The parsing functions of cJSON: a pointer moves through the text. */
module JsonParser {
  import opened Common
  import opened JsonText
  import opened JsonTree
  import opened JsonBounds

  /** The pointer is in front of the text r. */
  predicate At(t: string, i: nat, r: string) { i <= |t| && t[i..] == r }

  lemma AtNext(t: string, i: nat)
    requires i < |t|
    ensures t[i..][0] == t[i] && t[i..] != "" && t[i..][1..] == t[i + 1..]
  {
  }

  method SkipAt(t: string, i: nat) returns (j: nat)
    requires i <= |t|
    ensures i <= j && At(t, j, Skip(t[i..]))
  {
    j := i;
    while j < |t| && t[j] <= ' '
      invariant i <= j <= |t| && Skip(t[j..]) == Skip(t[i..])
    {
      AtNext(t, j);
      j := j + 1;
    }
    if j < |t| {
      AtNext(t, j);
    }
  }

  // ----- strings

  /** The first pass of parse_string: it counts the characters; not ok if a backslash is the last of the text. */
  method CountAt(t: string, i: nat) returns (ok: bool, len: nat)
    requires i <= |t|
    ensures ok <==> FirstPass(t[i..]).Some?
    ensures ok ==> len == FirstPass(t[i..]).value.size
  {
    hide FirstPass;
    len := 0;
    var j := i;
    ghost var all := FirstPass(t[i..]);
    while j < |t| && t[j] != '"'
      invariant i <= j <= |t| && all == Further(j - i, len, FirstPass(t[j..]))
    {
      FirstPassStep(t, j);
      len := len + 1;
      if t[j] == '\\' {
        j := j + 1;
        if j == |t| {
          return false, len;
        }
      }
      j := j + 1;
    }
    FirstPassEnd(t, j);
    ok := true;
  }

  lemma FirstPassStep(t: string, j: nat)
    requires j < |t| && t[j] != '"'
    ensures
      FirstPass(t[j..]) ==
        if t[j] != '\\' then Further(1, 1, FirstPass(t[j + 1..]))
        else if j + 1 == |t| then None
        else Further(2, 1, FirstPass(t[j + 2..]))
  {
    AtNext(t, j);
    if j + 1 < |t| {
      assert t[j..][2..] == t[j + 2..];
    }
  }

  lemma FirstPassEnd(t: string, j: nat)
    requires j <= |t| && (j < |t| ==> t[j] == '"')
    ensures FirstPass(t[j..]) == Some(Pass(0, 0))
  {
  }

  /** parse_string, with a buffer of the size that the first pass gives. */
  method ParseStringAt(t: string, i: nat) returns (res: Outcome, str: string, j: nat)
    requires i <= |t|
    ensures res == ParseString(t[i..]).Kind()
    ensures i < |t| && t[i] == '"' ==> (res == Overran <==> !InBounds(t[i + 1..]))
    ensures res == Done ==> i < j && str == ParseString(t[i..]).value && At(t, j, ParseString(t[i..]).rest)
  {
    hide Unquote, Unescape, FirstPass, InBounds;
    str, j := "", i;
    if i == |t| || t[i] != '"' {
      return Failed, str, j;
    }
    AtNext(t, i);
    StringOverruns(t[i..]);
    var ok, len := CountAt(t, i + 1);
    if !ok {
      return Overran, str, j;
    }
    var out := new char[len + 1];
    j := i + 1;
    var n: nat := 0;
    ghost var all := Unquote(t[j..]);
    Nothing(all);
    assert out[..0] == "";
    while j < |t| && t[j] != '"'
      invariant i < j <= |t| && n <= out.Length && all == Prepend(out[..n], Unquote(t[j..]))
      decreases |t| - j
    {
      UnquoteStep(t, j);
      if t[j] == '\\' && j + 1 == |t| {
        return Overran, str, j;
      }
      var (e, k) := if t[j] != '\\' then ([t[j]], 1) else Unescape(t[j..]);
      TooLong(out[..n], e, Unquote(t[j..]), if j + k <= |t| then Unquote(t[j + k..]) else None);
      if n + |e| > out.Length || j + k > |t| {
        return Overran, str, j;
      }
      Put(out, n, e);
      n, j := n + |e|, j + k;
    }
    UnquoteEnd(t, j);
    assert out[..n] + "" == out[..n];
    if n == out.Length {
      return Overran, str, j;
    }
    out[n] := '\0';
    if j < |t| {
      j := j + 1;
    }
    res, str := Done, out[..n];
  }

  method Put(out: array<char>, n: nat, e: string)
    requires n + |e| <= out.Length
    modifies out
    ensures out[..n + |e|] == old(out[..n]) + e
  {
    forall k | 0 <= k < |e| {
      out[n + k] := e[k];
    }
  }

  lemma Nothing(r: Option<(string, string)>)
    ensures Prepend("", r) == r
  {
    if r.Some? {
      assert "" + r.value.0 == r.value.0;
    }
  }

  /** What follows out is e and what more stands for. */
  lemma TooLong(out: string, e: string, r: Option<(string, string)>, more: Option<(string, string)>)
    requires r == Prepend(e, more)
    ensures Prepend(out, r) == Prepend(out + e, more)
    ensures Prepend(out, r).Some? ==> |Prepend(out, r).value.0| >= |out| + |e|
  {
    if more.Some? {
      assert out + (e + more.value.0) == (out + e) + more.value.0;
    }
  }

  lemma UnquoteStep(t: string, j: nat)
    requires j < |t| && t[j] != '"'
    ensures
      Unquote(t[j..]) ==
        if t[j] != '\\' then Prepend([t[j]], Unquote(t[j + 1..]))
        else if j + 1 == |t| then None
        else
          var (e, k) := Unescape(t[j..]);
          if j + k > |t| then None else Prepend(e, Unquote(t[j + k..]))
    ensures t[j] == '\\' && j + 1 < |t| ==> Unescape(t[j..]).1 >= 2
  {
    hide Unescape;
    AtNext(t, j);
    if t[j] == '\\' && j + 1 < |t| {
      UnescapeMoves(t[j..]);
      var k := Unescape(t[j..]).1;
      if j + k <= |t| {
        assert t[j..][k..] == t[j + k..];
      }
    }
  }

  lemma UnquoteEnd(t: string, j: nat)
    requires j <= |t| && (j < |t| ==> t[j] == '"')
    ensures Unquote(t[j..]) == Some(("", t[if j < |t| then j + 1 else j..]))
  {
    if j < |t| {
      AtNext(t, j);
    }
  }

  // ----- numbers

  method ReadDigits(t: string, i: nat, n0: nat) returns (n: nat, j: nat)
    requires i <= |t|
    ensures i <= j && n == Digits(t[i..], n0).0 && j - i == Digits(t[i..], n0).1 && At(t, j, Digits(t[i..], n0).2)
  {
    hide Digits;
    n, j := n0, i;
    ghost var all := Digits(t[i..], n0);
    while j < |t| && '0' <= t[j] <= '9'
      invariant i <= j <= |t|
      invariant all == (Digits(t[j..], n).0, (j - i) + Digits(t[j..], n).1, Digits(t[j..], n).2)
    {
      DigitsStep(t, j, n);
      n := 10 * n + (t[j] as int - '0' as int);
      j := j + 1;
    }
    DigitsStep(t, j, n);
  }

  lemma DigitsStep(t: string, j: nat, n: nat)
    requires j <= |t|
    ensures
      if j < |t| && Digit(t[j]) then
        var d := Digits(t[j + 1..], 10 * n + DigitVal(t[j]));
        Digits(t[j..], n) == (d.0, d.1 + 1, d.2)
      else Digits(t[j..], n) == (n, 0, t[j..])
  {
    if j < |t| {
      AtNext(t, j);
    }
  }

  method ParseWholeAt(t: string, i: nat) returns (n: nat, j: nat)
    requires i <= |t|
    ensures n == ParseWhole(t[i..]).0 && At(t, j, ParseWhole(t[i..]).1)
  {
    hide Digits;
    n, j := 0, i;
    if j < |t| && t[j] == '0' {
      AtNext(t, j);
      j := j + 1;
    }
    if j < |t| && '1' <= t[j] <= '9' {
      n, j := ReadDigits(t, j, 0);
    }
  }

  method ParseFractionAt(t: string, i: nat, n0: nat) returns (n: nat, scale: nat, j: nat)
    requires i <= |t|
    ensures (n, scale) == (ParseFraction(t[i..], n0).0, ParseFraction(t[i..], n0).1)
    ensures At(t, j, ParseFraction(t[i..], n0).2)
  {
    hide Digits;
    n, scale, j := n0, 0, i;
    if j + 1 < |t| && t[j] == '.' && '0' <= t[j + 1] <= '9' {
      AtNext(t, j);
      n, j := ReadDigits(t, i + 1, n0);
      scale := j - (i + 1);
    }
  }

  method ParseNumberAt(t: string, i: nat) returns (v: Decimal, j: nat)
    requires i <= |t|
    ensures v == ParseNumber(t[i..]).0 && At(t, j, ParseNumber(t[i..]).1)
  {
    hide ParseWhole, ParseFraction, ParseExponent;
    j := i;
    var neg := false;
    if j < |t| && t[j] == '-' {
      AtNext(t, j);
      neg, j := true, j + 1;
    }
    var n, scale, e;
    n, j := ParseWholeAt(t, j);
    n, scale, j := ParseFractionAt(t, j, n);
    e, j := ParseExponentAt(t, j);
    v := Decimal(if neg then -(n as int) else n, e - scale);
  }

  method ParseExponentAt(t: string, i: nat) returns (e: int, j: nat)
    requires i <= |t|
    ensures e == ParseExponent(t[i..]).0 && At(t, j, ParseExponent(t[i..]).1)
  {
    hide Digits;
    e, j := 0, i;
    if j < |t| && (t[j] == 'e' || t[j] == 'E') {
      AtNext(t, j);
      j := j + 1;
      var neg := false;
      if j < |t| && t[j] == '+' {
        AtNext(t, j);
        j := j + 1;
      } else if j < |t| && t[j] == '-' {
        AtNext(t, j);
        neg, j := true, j + 1;
      }
      e, j := ReadDigits(t, j, 0);
      e := if neg then -e else e;
    }
  }

  // ----- arrays and objects

  /** What is left to do behind some items, in front of s. */
  function MoreItems(items: seq<Json>, s: string): Parsed<seq<Json>> {
    if s == "" then Fail
    else if s[0] == ']' then Parsed(items, s[1..])
    else if s[0] == ',' then
      match ParseItems(s[1..]) {
        case Fail => Fail
        case Overrun => Overrun
        case Parsed(vs, rest) => Parsed(items + vs, rest)
      }
    else Fail
  }

  function MoreMembers(members: seq<Member>, s: string): Parsed<seq<Member>> {
    if s == "" then Fail
    else if s[0] == '}' then Parsed(members, s[1..])
    else if s[0] == ',' then
      match ParseMembers(s[1..]) {
        case Fail => Fail
        case Overrun => Overrun
        case Parsed(ms, rest) => Parsed(members + ms, rest)
      }
    else Fail
  }

  /** One item more. */
  lemma NextItem(items: seq<Json>, s: string)
    ensures
      match ParseValue(Skip(s))
      case Fail => ParseItems(s) == Fail
      case Overrun => ParseItems(s) == Overrun
      case Parsed(v, rest) =>
        && ParseItems(s) == MoreItems([v], Skip(rest))
        && (match ParseItems(s) {
          case Fail => Fail
          case Overrun => Overrun
          case Parsed(vs, r) => Parsed(items + vs, r)
        }) == MoreItems(items + [v], Skip(rest))
  {
    hide ParseValue, Skip;
    match ParseValue(Skip(s))
    case Fail =>
    case Overrun =>
    case Parsed(v, rest) =>
      var s1 := Skip(rest);
      if s1 != "" && s1[0] == ',' && ParseItems(s1[1..]).Parsed? {
        var vs := ParseItems(s1[1..]).value;
        assert items + ([v] + vs) == (items + [v]) + vs;
      }
  }

  lemma NextMember(members: seq<Member>, s: string)
    ensures
      match ParseMember(s)
      case Fail => ParseMembers(s) == Fail
      case Overrun => ParseMembers(s) == Overrun
      case Parsed(m, rest) =>
        && ParseMembers(s) == MoreMembers([m], Skip(rest))
        && (match ParseMembers(s) {
          case Fail => Fail
          case Overrun => Overrun
          case Parsed(ms, r) => Parsed(members + ms, r)
        }) == MoreMembers(members + [m], Skip(rest))
  {
    hide ParseMember, Skip;
    match ParseMember(s)
    case Fail =>
    case Overrun =>
    case Parsed(m, rest) =>
      var s1 := Skip(rest);
      if s1 != "" && s1[0] == ',' && ParseMembers(s1[1..]).Parsed? {
        var ms := ParseMembers(s1[1..]).value;
        assert members + ([m] + ms) == (members + [m]) + ms;
      }
  }

  /** A value with white space around it. */
  method PaddedValue(t: string, i: nat) returns (res: Outcome, v: Json, j: nat)
    requires i <= |t|
    ensures res == ParseValue(Skip(t[i..])).Kind()
    ensures res == Done ==>
      i < j && v == ParseValue(Skip(t[i..])).value && At(t, j, Skip(ParseValue(Skip(t[i..])).rest))
    decreases |t| - i, 1
  {
    hide ParseValue, Skip;
    j := SkipAt(t, i);
    res, v, j := ParseValueAt(t, j);
    if res == Done {
      j := SkipAt(t, j);
    }
  }

  /** parse_array, behind the opening bracket. */
  method ParseArrayAt(t: string, i: nat) returns (res: Outcome, v: Json, j: nat)
    requires i <= |t|
    ensures res == ParseArray(t[i..]).Kind()
    ensures res == Done ==> i < j && v == ParseArray(t[i..]).value && At(t, j, ParseArray(t[i..]).rest)
    decreases |t| - i, 2
  {
    hide ParseValue, Skip, ParseItems;
    v := Null;
    j := SkipAt(t, i);
    if j < |t| && t[j] == ']' {
      AtNext(t, j);
      return Done, Arr([]), j + 1;
    }
    ghost var s := t[j..];
    var item;
    NextItem([], s);
    res, item, j := PaddedValue(t, j);
    if res != Done {
      return;
    }
    var items := [item];
    while j < |t| && t[j] == ','
      invariant i < j <= |t| && ParseItems(s) == MoreItems(items, t[j..])
      decreases |t| - j
    {
      AtNext(t, j);
      NextItem(items, t[j + 1..]);
      res, item, j := PaddedValue(t, j + 1);
      if res != Done {
        return;
      }
      items := items + [item];
    }
    res := if j < |t| && t[j] == ']' then Done else Failed;
    if res == Done {
      AtNext(t, j);
      v, j := Arr(items), j + 1;
    }
  }

  /** A name, a colon and a value, with white space around them. */
  method MemberAt(t: string, i: nat) returns (res: Outcome, m: Member, j: nat)
    requires i <= |t|
    ensures res == ParseMember(t[i..]).Kind()
    ensures res == Done ==> i < j && m == ParseMember(t[i..]).value && At(t, j, Skip(ParseMember(t[i..]).rest))
    decreases |t| - i, 2
  {
    hide ParseValue, Skip, ParseString;
    m := Member("", Null);
    var key, v;
    j := SkipAt(t, i);
    res, key, j := ParseStringAt(t, j);
    if res != Done {
      return;
    }
    j := SkipAt(t, j);
    if j == |t| || t[j] != ':' {
      return Failed, m, j;
    }
    AtNext(t, j);
    res, v, j := PaddedValue(t, j + 1);
    m := Member(key, v);
  }

  /** parse_object, behind the opening brace. */
  method ParseObjectAt(t: string, i: nat) returns (res: Outcome, v: Json, j: nat)
    requires i <= |t|
    ensures res == ParseObject(t[i..]).Kind()
    ensures res == Done ==> i < j && v == ParseObject(t[i..]).value && At(t, j, ParseObject(t[i..]).rest)
    decreases |t| - i, 3
  {
    hide ParseMember, Skip, ParseMembers;
    v := Null;
    j := SkipAt(t, i);
    if j < |t| && t[j] == '}' {
      AtNext(t, j);
      return Done, Obj([]), j + 1;
    }
    ghost var s := t[j..];
    var m;
    NextMember([], s);
    res, m, j := MemberAt(t, j);
    if res != Done {
      return;
    }
    var members := [m];
    while j < |t| && t[j] == ','
      invariant i < j <= |t| && ParseMembers(s) == MoreMembers(members, t[j..])
      decreases |t| - j
    {
      AtNext(t, j);
      NextMember(members, t[j + 1..]);
      res, m, j := MemberAt(t, j + 1);
      if res != Done {
        return;
      }
      members := members + [m];
    }
    res := if j < |t| && t[j] == '}' then Done else Failed;
    if res == Done {
      AtNext(t, j);
      v, j := Obj(members), j + 1;
    }
  }

  /** strncmp(value, word, strlen(word)) == 0. */
  method StartsWith(t: string, i: nat, word: string) returns (yes: bool)
    requires i <= |t|
    ensures yes == (word <= t[i..])
  {
    var k := 0;
    while k < |word| && i + k < |t| && t[i + k] == word[k]
      invariant 0 <= k <= |word| && i + k <= |t| && forall n :: 0 <= n < k ==> t[i + n] == word[n]
    {
      k := k + 1;
    }
    yes := k == |word|;
    if yes {
      assert forall n :: 0 <= n < |word| ==> t[i..][n] == word[n];
    } else if i + k < |t| {
      assert t[i..][k] == t[i + k];
    }
  }

  /** parse_value. */
  method ParseValueAt(t: string, i: nat) returns (res: Outcome, v: Json, j: nat)
    requires i <= |t|
    ensures res == ParseValue(t[i..]).Kind()
    ensures res == Done ==> i < j && v == ParseValue(t[i..]).value && At(t, j, ParseValue(t[i..]).rest)
    decreases |t| - i, 0
  {
    hide ParseArray, ParseObject, ParseString, ParseNumber;
    ghost var s := t[i..];
    v, j := Null, i;
    var yes := StartsWith(t, i, "null");
    if yes {
      return Done, Null, i + 4;
    }
    yes := StartsWith(t, i, "false");
    if yes {
      return Done, False, i + 5;
    }
    yes := StartsWith(t, i, "true");
    if yes {
      return Done, True, i + 4;
    }
    if i == |t| {
      return Failed, v, j;
    }
    AtNext(t, i);
    if t[i] == '"' {
      var str;
      res, str, j := ParseStringAt(t, i);
      v := Str(str);
    } else if t[i] == '-' || '0' <= t[i] <= '9' {
      var d;
      d, j := ParseNumberAt(t, i);
      NumberMoves(s);
      res, v := Done, Num(d);
    } else if t[i] == '[' {
      res, v, j := ParseArrayAt(t, i + 1);
    } else if t[i] == '{' {
      res, v, j := ParseObjectAt(t, i + 1);
    } else {
      res := Failed;
    }
  }

  /** cJSON_Parse. */
  method ParseText(t: string) returns (res: Outcome, v: Json, end: nat)
    ensures res == Parse(t).Kind()
    ensures res == Done ==> v == Parse(t).value && At(t, end, Parse(t).rest)
    ensures res == Overran <==> exists i :: 0 <= i < |Reached(t)| && !InBounds(Reached(t)[i])
    ensures res == Overran ==> !AllInBounds(t)
    ensures res == Done && end == |t| ==> AllInBounds(t)
  {
    hide ParseValue, AllInBounds, Reached, InBounds;
    ParseFits(t);
    ParseInBounds(t);
    assert t[0..] == t;
    end := SkipAt(t, 0);
    res, v, end := ParseValueAt(t, end);
  }
}
