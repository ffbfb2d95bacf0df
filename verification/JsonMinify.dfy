/** cJSON_Minify, and how it fits the two ways of printing. */
module JsonMinify {
  import opened Common
  import opened JsonText
  import opened JsonTree

  predicate Blank(c: char) { c == ' ' || c == '\t' || c == '\r' || c == '\n' }

  /** The length of a string literal behind its opening quote, closing quote included. */
  function LiteralLength(s: string): (n: Option<nat>)
    ensures n.Some? ==> 1 <= n.value <= |s|
  {
    if s == "" || (s[0] == '\\' && |s| == 1) then None
    else if s[0] == '"' then Some(1)
    else
      var k := if s[0] == '\\' then 2 else 1;
      match LiteralLength(s[k..]) { case None => None case Some(n) => Some(k + n) }
  }

  /** The length of a comment up to the end of its line. */
  function LineLength(s: string): (n: nat)
    ensures n <= |s|
  {
    if s == "" || s[0] == '\n' then 0 else 1 + LineLength(s[1..])
  }

  /** The length of a comment up to its closing mark. */
  function CommentLength(s: string): (n: Option<nat>)
    ensures n.Some? ==> 2 <= n.value <= |s|
  {
    if |s| < 2 then None
    else if s[0] == '*' && s[1] == '/' then Some(2)
    else match CommentLength(s[1..]) { case None => None case Some(n) => Some(n + 1) }
  }

  /** The next piece of a text: how long it is, and whether it is kept. None if a string or a comment is not closed. */
  function Piece(s: string): (p: Option<(nat, bool)>)
    requires s != ""
    ensures p.Some? ==> 1 <= p.value.0 <= |s|
  {
    if Blank(s[0]) then Some((1, false))
    else if |s| >= 2 && s[0] == '/' && s[1] == '/' then Some((1 + LineLength(s[1..]), false))
    else if |s| >= 2 && s[0] == '/' && s[1] == '*' then
      match CommentLength(s) { case None => None case Some(n) => Some((n, false)) }
    else if s[0] == '"' then
      match LiteralLength(s[1..]) { case None => None case Some(n) => Some((1 + n, true)) }
    else Some((1, true))
  }

  /** The text without white space and comments; None if a string or a comment is not closed. */
  function Minify(s: string): (m: Option<string>)
    ensures m.Some? ==> |m.value| <= |s|
    decreases |s|
  {
    if s == "" then Some("")
    else match Piece(s)
      case None => None
      case Some((n, keep)) =>
        match Minify(s[n..]) { case None => None case Some(m) => Some((if keep then s[..n] else "") + m) }
  }

  // ----- texts that are closed

  /** Where a reader of the text is who looks at one character after the other: outside, behind a slash, in a string,
      behind a backslash in it, in a line comment, in a block comment, behind a star in it. */
  datatype Place = Outside | Slash | InString | Escaped | InLine | InBlock | Star

  function Read(p: Place, c: char): Place {
    match p
    case InString => if c == '"' then Outside else if c == '\\' then Escaped else InString
    case Escaped => InString
    case InLine => if c == '\n' then Outside else InLine
    case InBlock => if c == '*' then Star else InBlock
    case Star => if c == '/' then Outside else if c == '*' then Star else InBlock
    case _ =>
      if p == Slash && c == '/' then InLine
      else if p == Slash && c == '*' then Star
      else if c == '"' then InString
      else if c == '/' then Slash
      else Outside
  }

  function ReadAll(p: Place, s: string): Place
    decreases |s|
  {
    if s == "" then p else ReadAll(Read(p, s[0]), s[1..])
  }

  /** Every string and every block comment of the text is closed. */
  predicate Closed(s: string) { Ends(ReadAll(Outside, s)) }

  predicate Ends(p: Place) { p == Outside || p == Slash || p == InLine }

  lemma {:induction false} ReadLiteral(s: string)
    ensures
      match LiteralLength(s)
      case None => !Ends(ReadAll(InString, s))
      case Some(n) => ReadAll(InString, s) == ReadAll(Outside, s[n..])
    decreases |s|
  {
    if s != "" && s[0] == '\\' {
      assert |s| >= 2 ==> s[1..][1..] == s[2..] && s[1..][0] == s[1];
      if |s| >= 2 {
        ReadLiteral(s[2..]);
      }
    } else if s != "" && s[0] != '"' {
      ReadLiteral(s[1..]);
    }
  }

  lemma {:induction false} ReadLine(s: string)
    ensures Ends(ReadAll(InLine, s)) <==> Ends(ReadAll(Outside, s[LineLength(s)..]))
  {
    if s != "" && s[0] != '\n' {
      ReadLine(s[1..]);
      assert s[LineLength(s)..] == s[1..][LineLength(s[1..])..];
    }
  }

  /** The state behind s[0] in a block comment. */
  lemma {:induction false} ReadBlock(s: string)
    requires s != ""
    ensures
      var p := if s[0] == '*' then Star else InBlock;
      match CommentLength(s)
      case None => !Ends(ReadAll(p, s[1..]))
      case Some(n) => ReadAll(p, s[1..]) == ReadAll(Outside, s[n..])
  {
    if |s| >= 2 {
      if s[0] == '*' && s[1] == '/' {
        assert s[1..][1..] == s[2..];
      } else {
        ReadBlock(s[1..]);
      }
    }
  }

  /** Behind a slash that starts no comment, reading goes on as outside. */
  lemma ReadSlash(s: string)
    requires s == "" || (s[0] != '/' && s[0] != '*')
    ensures Ends(ReadAll(Slash, s)) <==> Ends(ReadAll(Outside, s))
  {
  }

  lemma ReadPiece(s: string)
    requires s != ""
    ensures
      match Piece(s)
      case None => !Closed(s)
      case Some((n, _)) => Closed(s) <==> Closed(s[n..])
  {
    hide LiteralLength, LineLength, CommentLength;
    Later(s);
    if s[0] == '"' {
      ReadLiteral(s[1..]);
    } else if s[0] == '/' && |s| >= 2 {
      assert ReadAll(Outside, s) == ReadAll(Slash, s[1..]) == ReadAll(Read(Slash, s[1]), s[2..]);
      if s[1] == '/' {
        ReadLine(s[2..]);
        LineStep(s[1..]);
      } else if s[1] == '*' {
        BlockStart(s);
        ReadBlock(s[1..]);
      } else {
        ReadSlash(s[1..]);
      }
    } else {
      assert s[0] == '/' ==> s[1..] == "" && Ends(ReadAll(Slash, ""));
    }
  }

  lemma Later(s: string)
    requires s != ""
    ensures |s| >= 2 ==> s[1..][0] == s[1] && s[1..][1..] == s[2..]
    ensures forall n :: 0 <= n <= |s| - 1 ==> s[1..][n..] == s[1 + n..]
    ensures forall n :: |s| >= 2 && 0 <= n <= |s| - 2 ==> s[2..][n..] == s[2 + n..]
  {
  }

  lemma LineStep(s: string)
    requires s != "" && s[0] != '\n'
    ensures LineLength(s) == 1 + LineLength(s[1..])
  {
  }

  lemma BlockStart(s: string)
    requires |s| >= 2 && s[0] != '*'
    ensures CommentLength(s).Some? <==> CommentLength(s[1..]).Some?
    ensures CommentLength(s).Some? ==> CommentLength(s).value == 1 + CommentLength(s[1..]).value
  {
  }

  /** A text has a minified form if and only if it is closed. */
  lemma {:induction false} MinifyClosed(s: string)
    ensures Minify(s).Some? <==> Closed(s)
    decreases |s|
  {
    hide Piece;
    if s != "" {
      ReadPiece(s);
      if Piece(s).Some? {
        MinifyClosed(s[Piece(s).value.0..]);
      }
    }
  }

  /** The shortest texts that are not. */
  lemma NotClosed()
    ensures !Closed("\"") && !Closed("/*") && Minify("\"") == None && Minify("/*") == None
  {
    MinifyClosed("\"");
    MinifyClosed("/*");
    assert "/*"[1..] == "*" && "*"[1..] == "" && "\""[1..] == "";
  }

  // ----- what is kept

  predicate InComment(p: Place) { p == InLine || p == InBlock || p == Star }

  /** Horizontal tab, line feed, carriage return and space. */
  predicate Space(c: char) { c as int == 9 || c as int == 10 || c as int == 13 || c as int == 32 }

  /** Whether a reader at p finds s[0] in a string, or outside of strings and comments and not a space; a slash that
      opens a comment belongs to it. */
  predicate Keeps(p: Place, s: string)
    requires s != ""
  {
    || p == InString || p == Escaped
    || (&& !InComment(p) && !InComment(Read(p, s[0])) && !Space(s[0])
        && !(Read(p, s[0]) == Slash && |s| >= 2 && InComment(Read(Slash, s[1]))))
  }

  /** The characters of s that such a reader keeps, one after the other. */
  function Kept(p: Place, s: string): string
    decreases |s|
  {
    if s == "" then "" else (if Keeps(p, s) then [s[0]] else "") + Kept(Read(p, s[0]), s[1..])
  }

  lemma KeptOne(p: Place, s: string)
    requires s != ""
    ensures Kept(p, s) == (if Keeps(p, s) then [s[0]] else "") + Kept(Read(p, s[0]), s[1..])
  {
  }

  lemma {:induction false} KeptLiteral(s: string)
    requires LiteralLength(s).Some?
    ensures var n := LiteralLength(s).value; Kept(InString, s) == s[..n] + Kept(Outside, s[n..])
    decreases |s|
  {
    hide Kept;
    KeptOne(InString, s);
    if s[0] == '"' {
      assert s[..1] == [s[0]];
    } else if s[0] == '\\' {
      KeptLiteral(s[2..]);
      KeptOne(Escaped, s[1..]);
      Front(s, LiteralLength(s[2..]).value + 1);
      Front(s[1..], LiteralLength(s[2..]).value);
      assert s[1..][1..] == s[2..];
    } else {
      KeptLiteral(s[1..]);
      Front(s, LiteralLength(s[1..]).value);
    }
  }

  lemma Front(s: string, n: nat)
    requires 1 + n <= |s|
    ensures s[..1 + n] == [s[0]] + s[1..][..n] && s[1 + n..] == s[1..][n..]
  {
  }

  lemma {:induction false} KeptLine(s: string)
    ensures Kept(InLine, s) == Kept(Outside, s[LineLength(s)..])
  {
    if s != "" && s[0] != '\n' {
      KeptLine(s[1..]);
      assert s[LineLength(s)..] == s[1..][LineLength(s[1..])..];
    } else {
      assert s[0..] == s;
    }
  }

  lemma {:induction false} KeptBlock(s: string)
    requires CommentLength(s).Some?
    ensures Kept(if s[0] == '*' then Star else InBlock, s[1..]) == Kept(Outside, s[CommentLength(s).value..])
  {
    if s[0] == '*' && s[1] == '/' {
      assert s[1..][1..] == s[2..];
    } else {
      KeptBlock(s[1..]);
      assert s[1..][CommentLength(s[1..]).value..] == s[CommentLength(s).value..];
    }
  }

  lemma KeptSlash(s: string)
    requires s == "" || (s[0] != '/' && s[0] != '*')
    ensures Kept(Slash, s) == Kept(Outside, s)
  {
  }

  lemma KeptQuote(s: string)
    requires s != "" && s[0] == '"' && LiteralLength(s[1..]).Some?
    ensures var n := 1 + LiteralLength(s[1..]).value; Kept(Outside, s) == s[..n] + Kept(Outside, s[n..])
  {
    hide Kept, LiteralLength;
    KeptOne(Outside, s);
    KeptLiteral(s[1..]);
    Front(s, LiteralLength(s[1..]).value);
  }

  lemma KeptComment(s: string)
    requires |s| >= 2 && s[0] == '/' && (s[1] == '/' || s[1] == '*') && Piece(s).Some?
    ensures Kept(Outside, s) == Kept(Outside, s[Piece(s).value.0..])
  {
    hide Kept, LiteralLength, LineLength, CommentLength;
    Later(s);
    KeptOne(Outside, s);
    KeptOne(Slash, s[1..]);
    if s[1] == '/' {
      KeptLine(s[2..]);
      LineStep(s[1..]);
    } else {
      BlockStart(s);
      KeptBlock(s[1..]);
    }
  }

  lemma KeptOther(s: string)
    requires s != "" && s[0] != '"' && !(|s| >= 2 && s[0] == '/' && (s[1] == '/' || s[1] == '*'))
    ensures Kept(Outside, s) == (if Space(s[0]) then "" else [s[0]]) + Kept(Outside, s[1..])
  {
    hide Kept;
    KeptOne(Outside, s);
    if s[0] == '/' {
      KeptSlash(s[1..]);
    }
  }

  lemma KeptPiece(s: string)
    requires s != "" && Piece(s).Some?
    ensures
      var (n, keep) := Piece(s).value;
      Kept(Outside, s) == (if keep then s[..n] else "") + Kept(Outside, s[n..])
  {
    hide LiteralLength, LineLength, CommentLength, Kept;
    if s[0] == '"' {
      KeptQuote(s);
    } else if |s| >= 2 && s[0] == '/' && (s[1] == '/' || s[1] == '*') {
      KeptComment(s);
    } else {
      KeptOther(s);
      assert s[..1] == [s[0]];
    }
  }

  /** The minified text is what is kept: what stands in strings, and what stands outside of strings and comments and
      is not a space. */
  lemma {:induction false} MinifyKeeps(s: string)
    ensures Closed(s) ==> Minify(s) == Some(Kept(Outside, s))
    decreases |s|
  {
    hide Piece, Kept, Closed;
    MinifyClosed(s);
    NothingKept();
    if s != "" && Closed(s) {
      ReadPiece(s);
      KeptPiece(s);
      MinifyKeeps(s[Piece(s).value.0..]);
    }
  }

  lemma NothingKept()
    ensures Kept(Outside, "") == ""
  {
  }

  /** The characters of s other than the four spaces. */
  function NoSpaces(s: string): (r: string)
    ensures forall i :: 0 <= i < |r| ==> r[i] as int !in {9, 10, 13, 32}
  {
    if s == "" then "" else (if s[0] as int in {9, 10, 13, 32} then "" else [s[0]]) + NoSpaces(s[1..])
  }

  /** In a text without quotes and slashes, these are all that goes. */
  lemma {:induction false} MinifyPlain(s: string)
    requires '"' !in s && '/' !in s
    ensures Closed(s) && Minify(s) == Some(NoSpaces(s))
  {
    hide Minify;
    PlainOutside(s);
    MinifyKeeps(s);
  }

  lemma {:induction false} PlainOutside(s: string)
    requires '"' !in s && '/' !in s
    ensures ReadAll(Outside, s) == Outside && Kept(Outside, s) == NoSpaces(s)
  {
    if s != "" {
      assert s[0] in s && forall c :: c in s[1..] ==> c in s;
      PlainOutside(s[1..]);
    }
  }

  // ----- in place

  /** The rest of the C string from i on. */
  ghost predicate TextAt(json: array<char>, i: nat, n: nat, t: string)
    reads json
  {
    && i <= n < json.Length && json[n] == '\0' && json[i..n] == t
    && forall k :: 0 <= k < |t| ==> t[k] != '\0'
  }

  /** One character further. */
  lemma TextNext(json: array<char>, i: nat, n: nat, t: string)
    requires TextAt(json, i, n, t) && t != ""
    ensures i < n && TextAt(json, i + 1, n, t[1..]) && json[i] == t[0] && (|t| > 1 ==> json[i + 1] == t[1])
  {
    assert json[i + 1..n] == json[i..n][1..];
  }

  method SkipLine(json: array<char>, i0: nat, ghost n: nat, ghost t0: string) returns (i: nat, ghost t: string)
    requires TextAt(json, i0, n, t0)
    ensures i == i0 + LineLength(t0) && t == t0[LineLength(t0)..] && TextAt(json, i, n, t)
  {
    i, t := i0, t0;
    while json[i] != '\0' && json[i] != '\n'
      invariant TextAt(json, i, n, t) && i + LineLength(t) == i0 + LineLength(t0) && t == t0[i - i0..] && i0 <= i
      decreases n - i
    {
      TextNext(json, i, n, t);
      i, t := i + 1, t[1..];
    }
  }

  lemma CommentStep(t: string)
    requires t != "" && !(|t| >= 2 && t[0] == '*' && t[1] == '/')
    ensures CommentLength(t).Some? <==> CommentLength(t[1..]).Some?
    ensures CommentLength(t).Some? ==> CommentLength(t).value == 1 + CommentLength(t[1..]).value
  {
  }

  /** Skips a comment; not ok if it is not closed, since the pointer then moves behind the end of the text. */
  method SkipComment(json: array<char>, i0: nat, ghost n: nat, ghost t0: string)
    returns (ok: bool, i: nat, ghost t: string)
    requires TextAt(json, i0, n, t0)
    ensures ok <==> CommentLength(t0).Some?
    ensures ok ==> i == i0 + CommentLength(t0).value && t == t0[CommentLength(t0).value..] && TextAt(json, i, n, t)
  {
    hide CommentLength;
    i, t := i0, t0;
    while json[i] != '\0' && !(json[i] == '*' && json[i + 1] == '/')
      invariant TextAt(json, i, n, t) && i0 <= i && t == t0[i - i0..]
      invariant CommentLength(t).Some? <==> CommentLength(t0).Some?
      invariant CommentLength(t).Some? ==> i + CommentLength(t).value == i0 + CommentLength(t0).value
      decreases n - i
    {
      TextNext(json, i, n, t);
      CommentStep(t);
      i, t := i + 1, t[1..];
    }
    CommentEnd(t);
    ok := json[i] != '\0';
    if ok {
      TextNext(json, i, n, t);
      TextNext(json, i + 1, n, t[1..]);
      i, t := i + 2, t[1..][1..];
    }
  }

  lemma CommentEnd(t: string)
    ensures t == "" ==> CommentLength(t) == None
    ensures |t| >= 2 && t[0] == '*' && t[1] == '/' ==> CommentLength(t) == Some(2)
  {
  }

  /** *into++ = *json++. */
  method CopyDown(json: array<char>, into: nat, i: nat, ghost n: nat, ghost t: string) returns (ghost t': string)
    requires TextAt(json, i, n, t) && into <= i && t != ""
    modifies json
    ensures into < json.Length && TextAt(json, i + 1, n, t') && t' == t[1..]
    ensures json[..into + 1] == old(json[..into]) + [t[0]]
  {
    TextNext(json, i, n, t);
    t' := t[1..];
    ghost var before := json[..];
    json[into] := json[i];
    assert json[..into] == before[..into];
    assert json[i + 1..n] == before[i + 1..n];
  }

  /** One more character of the text t0 has been copied behind out. */
  lemma OneMore(out: string, t0: string, k: nat)
    requires k < |t0|
    ensures (out + t0[..k]) + [t0[k]] == out + t0[..k + 1] && t0[k..][1..] == t0[k + 1..] && t0[k..][0] == t0[k]
  {
  }

  lemma LiteralStep(t: string)
    requires t != "" && t[0] != '"' && !(t[0] == '\\' && |t| == 1)
    ensures
      var k := if t[0] == '\\' then 2 else 1;
      && (LiteralLength(t).Some? <==> LiteralLength(t[k..]).Some?)
      && (LiteralLength(t).Some? ==> LiteralLength(t).value == k + LiteralLength(t[k..]).value)
  {
  }

  /** Copies a string literal, with the characters behind backslashes as they are; not ok if it is not closed, since
      what is copied then goes on behind the end of the text. */
  method CopyLiteral(json: array<char>, into0: nat, i0: nat, ghost n: nat, ghost t0: string)
    returns (ok: bool, into: nat, i: nat, ghost t: string)
    requires TextAt(json, i0, n, t0) && into0 <= i0 && t0 != "" && t0[0] == '"'
    modifies json
    ensures ok <==> LiteralLength(t0[1..]).Some?
    ensures ok ==>
      var k := 1 + LiteralLength(t0[1..]).value;
      && into == into0 + k && i == i0 + k && t == t0[k..] && TextAt(json, i, n, t)
      && json[..into] == old(json[..into0]) + t0[..k]
  {
    hide LiteralLength, TextAt;
    TextLength(json, i0, n, t0);
    ghost var out, k, len := json[..into0], 0, LiteralLength(t0[1..]);
    assert out + t0[..0] == out && t0[0..] == t0;
    t := CopyNext(json, into0, i0, n, t0, out, k);
    into, i, k := into0 + 1, i0 + 1, 1;
    TextLength(json, i, n, t);
    while json[i] != '\0' && json[i] != '"'
      invariant 1 <= k <= |t0| && into == into0 + k && i == i0 + k && t == t0[k..] && TextAt(json, i, n, t)
      invariant i < json.Length
      invariant json[..into] == out + t0[..k] && Follows(LiteralLength(t), len, k - 1)
      decreases n - i
    {
      TextLength(json, i, n, t);
      var m := CopyPair(json, into, i, n, t0, out, k);
      if m == 0 {
        return false, into, i, t;
      }
      into, i, k := into + m, i + m, k + m;
      t := t0[k..];
      TextLength(json, i, n, t);
    }
    TextLength(json, i, n, t);
    LiteralEnd(t);
    ok := json[i] != '\0';
    if ok {
      t := CopyNext(json, into, i, n, t0, out, k);
      into, i := into + 1, i + 1;
    }
  }

  /** What is left to read of a literal, if all of it takes n and k characters have been read. */
  ghost predicate Follows(left: Option<nat>, n: Option<nat>, k: nat) {
    (left.Some? <==> n.Some?) && (n.Some? ==> k + left.value == n.value)
  }

  /** A character of a literal, or a backslash and a character; 0 if there is none behind the backslash. */
  method CopyPair(json: array<char>, into: nat, i: nat, ghost n: nat, ghost t0: string, ghost out: string, ghost k: nat)
    returns (m: nat)
    requires k < |t0| && into <= i && TextAt(json, i, n, t0[k..]) && json[..into] == out + t0[..k] && t0[k] != '"'
    modifies json
    ensures m == 0 ==> LiteralLength(t0[k..]) == None
    ensures m > 0 ==>
      && k + m <= |t0| && TextAt(json, i + m, n, t0[k + m..]) && into + m <= json.Length
      && json[..into + m] == out + t0[..k + m]
      && Follows(LiteralLength(t0[k + m..]), LiteralLength(t0[k..]), m)
  {
    hide LiteralLength, TextAt;
    TextLength(json, i, n, t0[k..]);
    m := if json[i] == '\\' then 2 else 1;
    ghost var t := CopyNext(json, into, i, n, t0, out, k);
    if m == 2 {
      TextLength(json, i + 1, n, t);
      if json[i + 1] == '\0' {
        LiteralEnd(t0[k..]);
        return 0;
      }
      t := CopyNext(json, into + 1, i + 1, n, t0, out, k + 1);
    }
    LiteralStep(t0[k..]);
    assert t0[k..][m..] == t0[k + m..];
  }

  /** The k-th character of t0 goes behind those copied already. */
  method CopyNext(json: array<char>, into: nat, i: nat, ghost n: nat, ghost t0: string, ghost out: string, ghost k: nat)
    returns (ghost t: string)
    requires k < |t0| && into <= i && TextAt(json, i, n, t0[k..]) && json[..into] == out + t0[..k]
    modifies json
    ensures t == t0[k + 1..] && TextAt(json, i + 1, n, t) && into + 1 <= json.Length
    ensures json[..into + 1] == out + t0[..k + 1]
  {
    hide TextAt;
    TextLength(json, i, n, t0[k..]);
    OneMore(out, t0, k);
    t := CopyDown(json, into, i, n, t0[k..]);
    TextLength(json, i + 1, n, t);
  }

  lemma LiteralEnd(t: string)
    ensures t != "" && t[0] == '"' ==> LiteralLength(t) == Some(1)
    ensures t == "" || t == "\\" ==> LiteralLength(t) == None
  {
  }

  lemma TextLength(json: array<char>, i: nat, n: nat, t: string)
    requires TextAt(json, i, n, t)
    ensures i <= n < json.Length && |t| == n - i && (t != "" ==> json[i] == t[0]) && (|t| > 1 ==> json[i + 1] == t[1])
    ensures (t == "" <==> json[i] == '\0') && (|t| == 1 ==> json[i + 1] == '\0')
  {
  }

  /** The next piece of t is k characters long, and kept or dropped. */
  lemma PieceDone(t: string, k: nat, keep: bool)
    requires t != "" && Piece(t) == Some((k, keep))
    ensures k <= |t| && (Minify(t).Some? <==> Minify(t[k..]).Some?)
    ensures Minify(t).Some? ==> Minify(t).value == (if keep then t[..k] else "") + Minify(t[k..]).value
  {
    hide Piece;
  }

  lemma PieceOpen(t: string)
    requires t != "" && Piece(t) == None
    ensures Minify(t) == None
  {
  }

  lemma PieceCases(t: string)
    requires t != ""
    ensures
      if Blank(t[0]) then Piece(t) == Some((1, false))
      else if |t| >= 2 && t[0] == '/' && t[1] == '/' then Piece(t) == Some((1 + LineLength(t[1..]), false))
      else if |t| >= 2 && t[0] == '/' && t[1] == '*' then
        if CommentLength(t).Some? then Piece(t) == Some((CommentLength(t).value, false)) else Piece(t) == None
      else if t[0] == '"' then
        if LiteralLength(t[1..]).Some? then Piece(t) == Some((1 + LiteralLength(t[1..]).value, true))
          else Piece(t) == None
      else Piece(t) == Some((1, true))
  {
    hide LiteralLength, LineLength, CommentLength;
  }

  /** One round of the loop: a piece is skipped or copied. */
  method MinifyPiece(json: array<char>, into0: nat, i0: nat, ghost n: nat, ghost t0: string)
    returns (ok: bool, into: nat, i: nat, ghost t: string)
    requires TextAt(json, i0, n, t0) && into0 <= i0 && t0 != ""
    modifies json
    ensures ok <==> Piece(t0).Some?
    ensures ok ==>
      var (k, keep) := Piece(t0).value;
      && i == i0 + k && t == t0[k..] && TextAt(json, i, n, t) && into == (if keep then into0 + k else into0)
      && into <= json.Length
      && json[..into] == if keep then old(json[..into0]) + t0[..k] else old(json[..into0])
  {
    hide Piece, LiteralLength, LineLength, CommentLength, TextAt;
    TextLength(json, i0, n, t0);
    PieceCases(t0);
    ok, into, i := true, into0, i0;
    if json[i] == ' ' || json[i] == '\t' || json[i] == '\r' || json[i] == '\n' {
      TextNext(json, i, n, t0);
      i, t := i + 1, t0[1..];
    } else if json[i] == '/' && json[i + 1] == '/' {
      TextNext(json, i, n, t0);
      i, t := SkipLine(json, i + 1, n, t0[1..]);
    } else if json[i] == '/' && json[i + 1] == '*' {
      ok, i, t := SkipComment(json, i, n, t0);
    } else if json[i] == '"' {
      ok, into, i, t := CopyLiteral(json, into, i, n, t0);
      if ok {
        TextLength(json, i, n, t);
      }
    } else {
      t := CopyDown(json, into, i, n, t0);
      into, i := into + 1, i + 1;
    }
  }

  /** cJSON_Minify: the text is replaced by its minified form, and what is written never overtakes what is read. It is
      not ok, and reads on behind the end of the text, exactly if a string or a comment in it is not closed. */
  method MinifyInPlace(json: array<char>, ghost n: nat) returns (ok: bool, into: nat)
    requires n < json.Length && TextAt(json, 0, n, json[..n])
    modifies json
    ensures ok <==> Closed(old(json[..n]))
    ensures ok ==> into <= n && json[..into] == Kept(Outside, old(json[..n])) && json[into] == '\0'
  {
    hide Minify, Piece, TextAt, Closed, Kept;
    MinifyClosed(json[..n]);
    MinifyKeeps(json[..n]);
    ghost var t, all := json[..n], Minify(json[..n]);
    var i := 0;
    into := 0;
    TextLength(json, 0, n, t);
    assert json[..0] == "";
    while json[i] != '\0'
      invariant into <= i <= n < json.Length && TextAt(json, i, n, t) && (Minify(t).Some? <==> all.Some?)
      invariant all.Some? ==> all.value == json[..into] + Minify(t).value
      decreases n - i
    {
      TextLength(json, i, n, t);
      ghost var out, t0 := json[..into], t;
      ok, into, i, t := MinifyPiece(json, into, i, n, t);
      if !ok {
        PieceOpen(t0);
        return;
      }
      PieceDone(t0, Piece(t0).value.0, Piece(t0).value.1);
      Regroup(out, t0[..Piece(t0).value.0], Minify(t));
      TextLength(json, i, n, t);
    }
    TextLength(json, i, n, t);
    NoText();
    json[into] := '\0';
    ok := true;
  }

  lemma Regroup(out: string, x: string, m: Option<string>)
    ensures m.Some? ==> out + ("" + m.value) == out + m.value && out + (x + m.value) == (out + x) + m.value
  {
  }

  lemma NoText()
    ensures Minify("") == Some("")
  {
  }

  // ----- minified printouts

  /** Wherever x stands in front of a text, y stands in the minified text. */
  ghost predicate Becomes(x: string, y: string) {
    forall r: string :: Minify(r).Some? ==> Minify(x + r) == Some(y + Minify(r).value)
  }

  lemma BecomesBoth(a: string, b: string, c: string, d: string)
    requires Becomes(a, b) && Becomes(c, d)
    ensures Becomes(a + c, b + d)
  {
    hide Minify;
    forall r: string | Minify(r).Some?
      ensures Minify(a + c + r) == Some(b + d + Minify(r).value)
    {
      assert a + c + r == a + (c + r);
      assert b + d + Minify(r).value == b + (d + Minify(r).value);
    }
  }

  lemma BecomesNothing()
    ensures Becomes("", "")
  {
    hide Minify;
    forall r: string | Minify(r).Some?
      ensures Minify("" + r) == Some("" + Minify(r).value)
    {
      assert "" + r == r && "" + Minify(r).value == Minify(r).value;
    }
  }

  predicate Plain(c: char) { !Blank(c) && c != '/' && c != '"' }

  lemma BecomesChar(c: char)
    requires Plain(c) || Blank(c)
    ensures Becomes([c], if Plain(c) then [c] else "")
  {
    forall r: string | Minify(r).Some?
      ensures Minify([c] + r) == Some((if Plain(c) then [c] else "") + Minify(r).value)
    {
      assert ([c] + r)[1..] == r && ([c] + r)[..1] == [c];
    }
  }

  lemma {:induction false} BecomesPlain(s: string)
    requires forall i :: 0 <= i < |s| ==> Plain(s[i])
    ensures Becomes(s, s)
  {
    hide Becomes;
    if s == "" {
      BecomesNothing();
    } else {
      BecomesPlain(s[1..]);
      BecomesChar(s[0]);
      BecomesBoth([s[0]], [s[0]], s[1..], s[1..]);
      assert [s[0]] + s[1..] == s;
    }
  }

  lemma {:induction false} BecomesTabs(n: int)
    ensures Becomes(Tabs(n), "")
  {
    hide Becomes;
    if n <= 0 {
      BecomesNothing();
    } else {
      BecomesTabs(n - 1);
      BecomesChar('\t');
      BecomesBoth(['\t'], "", Tabs(n - 1), "");
      assert ['\t'] + Tabs(n - 1) == Tabs(n) && "" + "" == "";
    }
  }

  lemma {:induction false} EscapedLength(t: string, r: string)
    requires IsText(t)
    ensures LiteralLength(EscapeAll(t) + "\"" + r) == Some(|EscapeAll(t)| + 1)
  {
    if t == "" {
      assert EscapeAll(t) + "\"" + r == "\"" + r;
    } else {
      var more := EscapeAll(t[1..]) + "\"" + r;
      assert EscapeAll(t) + "\"" + r == Escape(t[0]) + more;
      EscapedLength(t[1..], r);
      EscapeLength(t[0], more);
    }
  }

  lemma EscapeLength(c: char, more: string)
    requires 0 < c as int < 256 && LiteralLength(more).Some?
    ensures LiteralLength(Escape(c) + more) == Some(|Escape(c)| + LiteralLength(more).value)
  {
    hide HexDigit, LiteralLength, Letter;
    if |Escape(c)| == 1 {
      OneInside(c, more);
    } else if |Escape(c)| == 2 {
      PairInside(Letter(c), more);
    } else {
      var h, l := HexDigit(c as int / 16), HexDigit(c as int % 16);
      HexPlain(c as int / 16);
      HexPlain(c as int % 16);
      assert Escape(c) == ['\\', 'u'] + ['0', '0', h, l];
      HexInside(['0', '0', h, l], more);
    }
  }

  lemma HexInside(x: string, more: string)
    requires |x| == 4 && (forall i :: 0 <= i < 4 ==> x[i] != '"' && x[i] != '\\') && LiteralLength(more).Some?
    ensures LiteralLength(['\\', 'u'] + x + more) == Some(6 + LiteralLength(more).value)
  {
    hide LiteralLength;
    FourMore(x, more);
    PairInside('u', x + more);
    assert ['\\', 'u'] + x + more == ['\\', 'u'] + (x + more);
  }

  lemma PairInside(c: char, more: string)
    requires LiteralLength(more).Some?
    ensures LiteralLength(['\\', c] + more) == Some(2 + LiteralLength(more).value)
  {
    assert (['\\', c] + more)[2..] == more;
  }

  lemma FourMore(x: string, more: string)
    requires |x| == 4 && (forall i :: 0 <= i < 4 ==> x[i] != '"' && x[i] != '\\') && LiteralLength(more).Some?
    ensures LiteralLength(x + more) == Some(4 + LiteralLength(more).value)
  {
    hide LiteralLength;
    var y3 := [x[3]] + more;
    var y2 := [x[2]] + y3;
    var y1 := [x[1]] + y2;
    OneInside(x[3], more);
    OneInside(x[2], y3);
    OneInside(x[1], y2);
    OneInside(x[0], y1);
    assert x + more == [x[0]] + y1;
  }

  lemma OneInside(c: char, more: string)
    requires c != '"' && c != '\\' && LiteralLength(more).Some?
    ensures LiteralLength([c] + more) == Some(1 + LiteralLength(more).value)
  {
    assert ([c] + more)[1..] == more;
  }

  lemma BecomesString(t: string)
    requires IsText(t)
    ensures Becomes(PrintString(t), PrintString(t))
  {
    hide EscapeAll;
    forall r: string | Minify(r).Some?
      ensures Minify(PrintString(t) + r) == Some(PrintString(t) + Minify(r).value)
    {
      var s, k := PrintString(t) + r, |EscapeAll(t)| + 2;
      EscapedLength(t, r);
      assert s[1..] == EscapeAll(t) + "\"" + r;
      assert s[..k] == PrintString(t) && s[k..] == r;
    }
  }

  lemma {:induction false} NatPlain(n: nat)
    ensures forall i :: 0 <= i < |PrintNat(n)| ==> Plain(PrintNat(n)[i])
  {
    if n >= 10 {
      NatPlain(n / 10);
    }
  }

  lemma IntPlain(n: int)
    ensures Becomes(PrintInt(n), PrintInt(n))
  {
    hide Becomes;
    NatPlain(if n < 0 then -n else n);
    BecomesPlain(PrintInt(n));
  }

  /** The formatted printout, minified, is the compact printout. */
  lemma {:induction false} MinifyPrint(j: Json, depth: nat)
    requires Printable(j)
    ensures Becomes(Print(j, depth, true), Print(j, depth, false))
    decreases j
  {
    hide Becomes, PrintItems, PrintMembers, Tabs, PrintInt, PrintString;
    match j
    case Null => BecomesPlain("null");
    case False => BecomesPlain("false");
    case True => BecomesPlain("true");
    case Num(v) => IntPlain(v.mant);
    case Str(s) => BecomesString(s);
    case Arr(items) =>
      MinifyItems(items, depth + 1);
      Around("[", "[", PrintItems(items, depth + 1, true), PrintItems(items, depth + 1, false), "]", "]");
      BecomesPlain("[");
      BecomesPlain("]");
    case Obj(members) =>
      if members == [] {
        EmptyBecomes(depth);
      } else {
        MinifyMembers(members, depth + 1);
        BracesBecome(PrintMembers(members, depth + 1, true), PrintMembers(members, depth + 1, false), depth);
      }
  }

  lemma EmptyBecomes(depth: nat)
    ensures Becomes("{" + ("\n" + Tabs(depth - 1)) + "}", "{" + "" + "}")
  {
    hide Becomes, Tabs;
    BecomesChar('\n');
    BecomesTabs(depth - 1);
    BecomesBoth(['\n'], "", Tabs(depth - 1), "");
    assert ['\n'] + Tabs(depth - 1) == "\n" + Tabs(depth - 1) && "" + "" == "";
    BecomesPlain("{");
    BecomesPlain("}");
    Around("{", "{", "\n" + Tabs(depth - 1), "", "}", "}");
  }

  lemma BracesBecome(x: string, y: string, depth: nat)
    requires Becomes(x, y)
    ensures Becomes("{" + "\n" + x + Tabs(depth) + "}", "{" + "" + y + "" + "}")
  {
    hide Becomes, Tabs;
    BecomesChar('\n');
    BecomesTabs(depth);
    BecomesPlain("{");
    BecomesPlain("}");
    Around("{", "{", "\n", "", x, y);
    Around("{" + "\n" + x, "{" + "" + y, Tabs(depth), "", "}", "}");
  }

  lemma MemberBecomes(k: string, v: string, v': string, more: bool, rest: string, rest': string, depth: nat)
    requires Becomes(k, k) && Becomes(v, v') && Becomes(rest, rest')
    ensures Becomes(Tabs(depth) + k + ":\t" + v + (if more then "," else "") + "\n" + rest,
                    "" + k + ":" + v' + (if more then "," else "") + "" + rest')
  {
    hide Becomes, Tabs;
    var m := if more then "," else "";
    BecomesTabs(depth);
    BecomesChar(':');
    BecomesChar('\t');
    BecomesBoth([':'], [':'], ['\t'], "");
    assert [':'] + ['\t'] == ":\t" && [':'] + "" == ":";
    BecomesPlain(m);
    BecomesChar('\n');
    Around(Tabs(depth), "", k, k, ":\t", ":");
    Around(Tabs(depth) + k + ":\t", "" + k + ":", v, v', m, m);
    Around(Tabs(depth) + k + ":\t" + v + m, "" + k + ":" + v' + m, "\n", "", rest, rest');
  }

  lemma {:induction false} MinifyMembers(members: seq<Member>, depth: nat)
    requires forall i :: 0 <= i < |members| ==> IsText(members[i].key) && Printable(members[i].value)
    ensures Becomes(PrintMembers(members, depth, true), PrintMembers(members, depth, false))
    decreases members
  {
    hide Becomes, Print, Printable, PrintString, Tabs;
    if members == [] {
      BecomesNothing();
    } else {
      var m := members[0];
      BecomesString(m.key);
      MinifyPrint(m.value, depth);
      MinifyMembers(members[1..], depth);
      MemberBecomes(PrintString(m.key), Print(m.value, depth, true), Print(m.value, depth, false), |members| > 1,
                    PrintMembers(members[1..], depth, true), PrintMembers(members[1..], depth, false), depth);
    }
  }

  /** The formatted printout of any tree, minified, is its compact printout. */
  lemma MinifyFormatted(j: Json)
    requires Printable(j)
    ensures Minify(Print(j, 0, true)) == Some(Print(j, 0, false))
  {
    hide Print, Printable, Minify;
    MinifyPrint(j, 0);
    NoText();
    assert Print(j, 0, true) + "" == Print(j, 0, true) && Print(j, 0, false) + "" == Print(j, 0, false);
  }

  lemma Around(a: string, b: string, x: string, y: string, c: string, d: string)
    ensures Becomes(a, b) && Becomes(x, y) && Becomes(c, d) ==> Becomes(a + x + c, b + y + d)
  {
    hide Becomes;
    if Becomes(a, b) && Becomes(x, y) && Becomes(c, d) {
      BecomesBoth(a, b, x, y);
      BecomesBoth(a + x, b + y, c, d);
    }
  }

  lemma {:induction false} MinifyItems(items: seq<Json>, depth: nat)
    requires forall i :: 0 <= i < |items| ==> Printable(items[i])
    ensures Becomes(PrintItems(items, depth, true), PrintItems(items, depth, false))
    decreases items
  {
    hide Becomes, Print, Printable;
    if items == [] {
      BecomesNothing();
    } else {
      MinifyPrint(items[0], depth);
      MinifyItems(items[1..], depth);
      CommaBecomes(|items| > 1);
      Around(Print(items[0], depth, true), Print(items[0], depth, false),
             Comma(|items| > 1, true), Comma(|items| > 1, false),
             PrintItems(items[1..], depth, true), PrintItems(items[1..], depth, false));
    }
  }

  lemma CommaBecomes(more: bool)
    ensures Becomes(Comma(more, true), Comma(more, false))
  {
    hide Becomes;
    if more {
      BecomesChar(',');
      BecomesChar(' ');
      BecomesBoth([','], [','], [' '], "");
      assert [','] + [' '] == ", " && [','] + "" == ",";
    } else {
      BecomesNothing();
    }
  }
}
