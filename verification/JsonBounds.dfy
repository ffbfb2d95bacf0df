/** For which texts the parser of cJSON stays within its text and its buffers. */
module JsonBounds {
  import opened Common
  import opened JsonText
  import opened JsonTree
  import opened JsonRoundTrip

  // ----- one string

  /** The second pass of parse_string: it skips the four places behind a \u without looking for the end of the
      string. */
  function SecondPass(s: string): (r: Option<Pass>)
    ensures r.Some? ==> r.value.stop <= |s|
    decreases |s|
  {
    if s == "" || s[0] == '"' then Some(Pass(0, 0))
    else if s[0] != '\\' then Further(1, 1, SecondPass(s[1..]))
    else if |s| == 1 then None
    else
      UnescapeMoves(s);
      var (e, n) := Unescape(s);
      if n > |s| then None else Further(n, |e|, SecondPass(s[n..]))
  }

  /** Behind an opening quote: both passes stay in the text, and the second writes no more than the first has
      counted. */
  predicate InBounds(s: string) {
    FirstPass(s).Some? && SecondPass(s).Some? && SecondPass(s).value.size <= FirstPass(s).value.size
  }

  lemma {:induction false} UnquotePass(s: string)
    ensures Unquote(s).Some? <==> SecondPass(s).Some?
    ensures Unquote(s).Some? ==> |Unquote(s).value.0| == SecondPass(s).value.size
    decreases |s|
  {
    if s != "" && s[0] != '"' {
      if s[0] != '\\' {
        UnquotePass(s[1..]);
      } else if |s| > 1 {
        UnescapeMoves(s);
        if Unescape(s).1 <= |s| {
          UnquotePass(s[Unescape(s).1..]);
        }
      }
    }
  }

  /** parse_string leaves its text or its buffer exactly if the string is not in bounds. */
  lemma StringOverruns(s: string)
    requires s != "" && s[0] == '"'
    ensures ParseString(s) == Overrun <==> !InBounds(s[1..])
  {
    hide Unquote, FirstPass, SecondPass;
    UnquotePass(s[1..]);
  }

  predicate Plain(x: string) { forall i :: 0 <= i < |x| ==> x[i] != '"' && x[i] != '\\' }

  /** A \u without digits hides the closing quote from the second pass: the first counts one character, the second goes
      on and writes all but three of those up to the next quote. */
  lemma HiddenQuote(x: string)
    requires Plain(x) && |x| >= 3
    ensures InBounds("\\u\"" + x + "\"") <==> |x| <= 4
  {
    hide FirstPass, SecondPass, Unescape, Plain;
    var s := "\\u\"" + x + "\"";
    assert s == ['\\', 'u'] + ("\"" + x + "\"");
    PairSized('u', "\"" + x + "\"");
    AtQuote("\"" + x + "\"");
    NoDigits(s);
    assert s[6..] == x[3..] + "\"";
    PlainTail(x);
    PlainRun(x[3..], "\"");
    AtQuote("\"");
    EscapePass(s);
  }

  lemma PlainTail(x: string)
    requires Plain(x) && |x| >= 3
    ensures Plain(x[3..])
  {
  }

  lemma AtQuote(s: string)
    requires s != "" && s[0] == '"'
    ensures FirstPass(s) == SecondPass(s) == Some(Pass(0, 0))
  {
  }

  lemma NoDigits(s: string)
    requires |s| >= 2 && s[0] == '\\' && s[1] == 'u' && (|s| == 2 || s[2] == '"')
    ensures Unescape(s) == ("", 6)
  {
    assert HexAt(s[2..], 0) == None;
  }

  lemma EscapePass(s: string)
    requires |s| >= 2 && s[0] == '\\'
    ensures var (e, n) := Unescape(s); SecondPass(s) == if n > |s| then None else Further(n, |e|, SecondPass(s[n..]))
  {
    UnescapeMoves(s);
  }

  lemma {:induction false} PlainRun(x: string, more: string)
    requires Plain(x)
    ensures SecondPass(x + more) == Further(|x|, |x|, SecondPass(more))
    ensures FirstPass(x + more) == Further(|x|, |x|, FirstPass(more))
  {
    hide Unescape, FirstPass, SecondPass;
    if x == "" {
      assert x + more == more;
    } else {
      assert (x + more)[1..] == x[1..] + more && (x + more)[0] == x[0];
      FirstCases(x + more);
      SecondCases(x + more);
      PlainRun(x[1..], more);
    }
  }

  /** Strings on which it does: a \u that hides the closing quote, and escapes that end behind the text. */
  lemma OverrunExamples()
    ensures ParseString("\"\\u\"AAAAAAAAAA\"") == Overrun
    ensures ParseString("\"\\u") == Overrun
    ensures ParseString("\"abc\\") == Overrun
  {
    hide FirstPass, SecondPass, Unescape, ParseString, InBounds;
    HiddenQuote("AAAAAAAAAA");
    assert "\"\\u\"AAAAAAAAAA\""[1..] == "\\u\"" + "AAAAAAAAAA" + "\"";
    StringOverruns("\"\\u\"AAAAAAAAAA\"");
    NoDigits("\\u");
    EscapePass("\\u");
    assert "\"\\u"[1..] == "\\u";
    NotIn("\\u");
    StringOverruns("\"\\u");
    PlainRun("abc", "\\");
    LastBackslash();
    assert "abc" + "\\" == "abc\\" == "\"abc\\"[1..];
    NotIn("abc\\");
    StringOverruns("\"abc\\");
  }

  lemma NotIn(s: string)
    requires SecondPass(s) == None
    ensures !InBounds(s)
  {
  }

  lemma LastBackslash()
    ensures FirstPass("\\") == SecondPass("\\") == None
  {
  }

  // ----- the buffer is too small only behind the quote at which the first pass stopped

  ghost predicate Within(a: Option<Pass>, stop: nat, size: nat) {
    a.Some? && a.value.stop <= stop ==> a.value.size <= size
  }

  /** A second pass that stops no later than the first has room for what it writes. */
  lemma {:induction false} EarlyFits(s: string)
    ensures FirstPass(s).Some? ==> Within(SecondPass(s), FirstPass(s).value.stop, FirstPass(s).value.size)
    decreases |s|, 1
  {
    hide Unescape, FirstPass, SecondPass;
    FirstCases(s);
    if s == "" {
      assert SecondPass(s) == Some(Pass(0, 0)) by { NoString(); }
    } else {
      SecondCases(s);
    }
    if s != "" && s[0] != '"' {
      if s[0] != '\\' {
        EarlyFits(s[1..]);
      } else if |s| > 1 {
        EscapePass(s);
        if s[1] == 'u' {
          LongEscapeFits(s);
        } else {
          ShortEscape(s);
          EarlyFits(s[2..]);
        }
      }
    }
  }

  /** The ways not to be in bounds: a pass leaves the text, or the second goes on behind the quote at which the first
      has stopped and writes more than was counted. */
  lemma OverrunCases(s: string)
    ensures !InBounds(s) <==>
      || FirstPass(s).None? || SecondPass(s).None?
      || (&& FirstPass(s).value.stop < SecondPass(s).value.stop
          && s[FirstPass(s).value.stop] == '"'
          && FirstPass(s).value.size < SecondPass(s).value.size)
  {
    hide FirstPass, SecondPass;
    EarlyFits(s);
    FirstStops(s);
  }

  /** The first pass stops at a quote or at the end of the text. */
  lemma {:induction false} FirstStops(s: string)
    ensures FirstPass(s).Some? && FirstPass(s).value.stop < |s| ==> s[FirstPass(s).value.stop] == '"'
    decreases |s|
  {
    hide FirstPass;
    FirstCases(s);
    if s != "" && s[0] != '"' {
      if s[0] != '\\' {
        FirstStops(s[1..]);
      } else if |s| > 1 {
        FirstStops(s[2..]);
      }
    }
  }

  /** The same if the first pass takes s[0] for the character behind a backslash that it has counted. */
  lemma {:induction false} EarlyFitsInside(s: string)
    requires s != ""
    ensures FirstPass(s[1..]).Some? ==>
      Within(SecondPass(s), 1 + FirstPass(s[1..]).value.stop, 1 + FirstPass(s[1..]).value.size)
    decreases |s|, 1
  {
    hide Unescape, FirstPass, SecondPass;
    if s[0] == '\\' {
      if |s| > 1 {
        EscapePass(s);
        FirstCases(s[1..]);
        assert s[1..][1..] == s[2..];
        if s[1] == 'u' {
          LongEscapeFits(s);
        } else {
          ShortEscape(s);
          if s[1] != '\\' {
            EarlyFits(s[2..]);
          } else if |s| > 2 {
            assert s[1..][2..] == s[3..] == s[2..][1..];
            EarlyFitsInside(s[2..]);
          }
        }
      } else {
        SecondCases(s);
      }
    } else {
      SecondCases(s);
      EarlyFits(s[1..]);
    }
  }

  lemma NoString()
    ensures SecondPass("") == Some(Pass(0, 0))
  {
  }

  lemma FirstCases(s: string)
    ensures
      FirstPass(s) ==
        if s == "" || s[0] == '"' then Some(Pass(0, 0))
        else if s[0] != '\\' then Further(1, 1, FirstPass(s[1..]))
        else if |s| == 1 then None
        else Further(2, 1, FirstPass(s[2..]))
  {
  }

  lemma SecondCases(s: string)
    requires s != ""
    ensures s[0] == '"' ==> SecondPass(s) == Some(Pass(0, 0))
    ensures s[0] != '"' && s[0] != '\\' ==> SecondPass(s) == Further(1, 1, SecondPass(s[1..]))
    ensures s == "\\" ==> SecondPass(s) == None
  {
    hide Unescape;
  }

  lemma ShortEscape(s: string)
    requires |s| >= 2 && s[1] != 'u'
    ensures |Unescape(s).0| == 1 && Unescape(s).1 == 2
  {
  }

  /** What a \u writes, with no more than it takes from the count of the first pass. */
  lemma LongEscape(s: string)
    requires |s| >= 2 && s[1] == 'u'
    ensures
      var (e, n) := Unescape(s);
      && (n == 6 || n == 12) && (n == 6 ==> |e| <= 3) && |e| <= 4
      && (e != "" || n == 12 ==> |s| >= 6 && Plain(s[2..6]))
      && (n == 12 ==> |s| >= 8 && s[6] == '\\' && s[7] == 'u')
      && (n == 12 && e != "" ==> |s| >= 12 && Plain(s[8..12]))
  {
    DigitsPlain(s[2..]);
    if |s| >= 8 {
      DigitsPlain(s[8..]);
      assert |s| >= 12 ==> s[8..][..4] == s[8..12];
    }
    assert |s| >= 6 ==> s[2..][..4] == s[2..6];
  }

  lemma DigitsPlain(s: string)
    ensures Hex4(s) != 0 ==> |s| >= 4 && Plain(s[..4])
  {
  }

  /** The first pass over a character, or over a backslash and the character behind it. */
  lemma FirstStep(s: string)
    requires FirstPass(s).Some? && FirstPass(s).value.stop > 0
    ensures
      if s[0] == '\\' then |s| >= 2 && FirstPass(s) == Further(2, 1, FirstPass(s[2..]))
      else FirstPass(s) == Further(1, 1, FirstPass(s[1..]))
    ensures FirstPass(s).value.size >= 1
  {
  }

  /** The first pass over four places: it goes on behind them, or takes the next one for an escaped character. */
  lemma FourPlaces(s: string)
    requires |s| >= 4 && FirstPass(s).Some? && FirstPass(s).value.stop >= 4
    ensures
      || (exists k :: k >= 2 && FirstPass(s) == Further(4, k, FirstPass(s[4..])))
      || (|s| >= 5 && exists k :: k >= 3 && FirstPass(s) == Further(5, k, FirstPass(s[5..])))
  {
    hide FirstPass;
    var i, k := 0, 0;
    while i < 4
      invariant i <= 5 && i <= |s| && FirstPass(s) == Further(i, k, FirstPass(s[i..])) && i <= 2 * k
      invariant i == 5 ==> k >= 3
    {
      FirstStep(s[i..]);
      if s[i] == '\\' {
        assert s[i..][2..] == s[i + 2..];
        i, k := i + 2, k + 1;
      } else {
        assert s[i..][1..] == s[i + 1..];
        i, k := i + 1, k + 1;
      }
    }
  }

  lemma {:induction false} AfterFour(s: string)
    requires |s| >= 4 && FirstPass(s).Some? && FirstPass(s).value.stop >= 4
    ensures FirstPass(s).value.size >= 2
    ensures Within(SecondPass(s[4..]), FirstPass(s).value.stop - 4, FirstPass(s).value.size - 2)
    decreases |s|, 0
  {
    hide FirstPass, SecondPass;
    FourPlaces(s);
    if k :| k >= 2 && FirstPass(s) == Further(4, k, FirstPass(s[4..])) {
      EarlyFits(s[4..]);
    } else {
      assert s[4..][1..] == s[5..];
      EarlyFitsInside(s[4..]);
    }
  }

  lemma {:induction false} LongEscapeFits(s: string)
    requires |s| >= 2 && s[0] == '\\' && s[1] == 'u'
    ensures FirstPass(s[2..]).Some? ==>
      Within(SecondPass(s), 2 + FirstPass(s[2..]).value.stop, 1 + FirstPass(s[2..]).value.size)
    decreases |s|, 0
  {
    hide FirstPass, SecondPass, Unescape;
    EscapePass(s);
    LongEscape(s);
    var (e, n) := Unescape(s);
    var first, second := FirstPass(s[2..]), SecondPass(s);
    if first.Some? && second.Some? && second.value.stop <= 2 + first.value.stop {
      if n == 12 {
        assert s[2..] == s[2..6] + s[6..] && s[6..] == ['\\', 'u'] + s[8..];
        PlainRun(s[2..6], s[6..]);
        PairSized('u', s[8..]);
      }
      assert s[n - 4..][..4] == s[n - 4..n] && s[n - 4..][4..] == s[n..];
      LastFour(s[n - 4..], e != "");
    }
  }

  /** The last four places of a \u escape. */
  lemma {:induction false} LastFour(s: string, digits: bool)
    requires |s| >= 4 && FirstPass(s).Some? && FirstPass(s).value.stop >= 4 && (digits ==> Plain(s[..4]))
    ensures FirstPass(s).value.size >= if digits then 4 else 2
    ensures Within(SecondPass(s[4..]), FirstPass(s).value.stop - 4, FirstPass(s).value.size - if digits then 4 else 2)
    decreases |s|, 1
  {
    hide FirstPass, SecondPass;
    if digits {
      assert s == s[..4] + s[4..];
      PlainRun(s[..4], s[4..]);
      EarlyFits(s[4..]);
    } else {
      AfterFour(s);
    }
  }

  // ----- well-formed strings

  predicate Hex(s: string) { forall i :: 0 <= i < |s| ==> HexVal(s[i]).Some? }

  /** A string of section 7 of RFC 8259, escapes taken as widely as the parser does, with its closing quote. */
  predicate Proper(s: string) {
    s != "" &&
    if s[0] == '"' then true
    else if s[0] != '\\' then Proper(s[1..])
    else if |s| < 2 then false
    else if s[1] == 'u' then |s| >= 6 && Hex(s[2..6]) && Proper(s[6..])
    else Proper(s[2..])
  }

  lemma HexAreDigits(s: string)
    requires Hex(s)
    ensures Plain(s)
  {
  }

  /** On a well-formed string both passes stop at the closing quote. */
  lemma {:induction false} ProperStops(s: string)
    requires Proper(s)
    ensures FirstPass(s).Some? && SecondPass(s).Some? && FirstPass(s).value.stop == SecondPass(s).value.stop
    decreases |s|
  {
    hide FirstPass, SecondPass, Unescape;
    FirstCases(s);
    SecondCases(s);
    if s[0] != '"' {
      if s[0] != '\\' {
        ProperStops(s[1..]);
      } else {
        EscapePass(s);
        if s[1] == 'u' {
          ProperEscape(s);
          LongEscape(s);
          if Unescape(s).1 == 12 {
            ProperEscape(s[6..]);
            SixMore(s);
            ProperStops(s[12..]);
          } else {
            ProperStops(s[6..]);
          }
        } else {
          ShortEscape(s);
          ProperStops(s[2..]);
        }
      }
    }
  }

  lemma ProperEscape(s: string)
    requires |s| >= 6 && s[0] == '\\' && s[1] == 'u' && Hex(s[2..6])
    ensures FirstPass(s) == Further(6, 5, FirstPass(s[6..]))
  {
    hide FirstPass, SecondPass, Hex, Plain, HexVal;
    HexAreDigits(s[2..6]);
    assert s == ['\\', 'u'] + (s[2..6] + s[6..]);
    PairSized('u', s[2..6] + s[6..]);
    PlainRun(s[2..6], s[6..]);
  }

  lemma SixMore(s: string)
    requires Proper(s) && |s| >= 8 && s[0] == s[6] == '\\' && s[1] == s[7] == 'u'
    ensures |s| >= 12 && Hex(s[8..12]) && s[6..][2..6] == s[8..12] && s[6..][6..] == s[12..] && Proper(s[12..])
  {
    assert |s[6..]| >= 6 ==> s[6..][2..6] == s[8..12] && s[6..][6..] == s[12..];
  }

  /** A well-formed string is in bounds. */
  lemma ProperInBounds(s: string)
    requires Proper(s)
    ensures InBounds(s)
  {
    ProperStops(s);
    EarlyFits(s);
  }

  // ----- whole texts

  // ----- whole texts

  /** The strings of the text, one after the other, each from behind its opening quote on. */
  function Strings(s: string): seq<string>
    decreases |s|
  {
    if s == "" then []
    else if s[0] != '"' then Strings(s[1..])
    else [s[1..]] + match ParseString(s) { case Parsed(_, rest) => Strings(rest) case _ => [] }
  }

  predicate AllIn(q: seq<string>) { forall i :: 0 <= i < |q| ==> InBounds(q[i]) }

  predicate AllInBounds(s: string) { AllIn(Strings(s)) }

  /** The strings that the parser comes to, in this order. */
  function Reached(t: string): seq<string> { ReachedValue(Skip(t)) }

  function ReachedString(s: string): seq<string> { if s != "" && s[0] == '"' then [s[1..]] else [] }

  function ReachedValue(s: string): seq<string>
    decreases |s|, 0
  {
    if "null" <= s || "false" <= s || "true" <= s || s == "" then []
    else if s[0] == '[' then ReachedArray(s[1..])
    else if s[0] == '{' then ReachedObject(s[1..])
    else ReachedString(s)
  }

  function ReachedArray(s: string): seq<string>
    decreases |s|, 3
  {
    var s1 := Skip(s);
    if s1 != "" && s1[0] == ']' then [] else ReachedItems(s1)
  }

  function ReachedItems(s: string): seq<string>
    decreases |s|, 2
  {
    ReachedValue(Skip(s)) + match ParseValue(Skip(s)) {
      case Parsed(_, rest) => var s1 := Skip(rest); if s1 != "" && s1[0] == ',' then ReachedItems(s1[1..]) else []
      case _ => []
    }
  }

  function ReachedObject(s: string): seq<string>
    decreases |s|, 3
  {
    var s1 := Skip(s);
    if s1 != "" && s1[0] == '}' then [] else ReachedMembers(s1)
  }

  function ReachedMembers(s: string): seq<string>
    decreases |s|, 2
  {
    ReachedMember(s) + match ParseMember(s) {
      case Parsed(_, rest) => var s1 := Skip(rest); if s1 != "" && s1[0] == ',' then ReachedMembers(s1[1..]) else []
      case _ => []
    }
  }

  function ReachedMember(s: string): seq<string>
    decreases |s|, 1
  {
    ReachedString(Skip(s)) + match ParseString(Skip(s)) {
      case Parsed(_, rest) =>
        var s1 := Skip(rest);
        if s1 != "" && s1[0] == ':' then ReachedValue(Skip(s1[1..])) else []
      case _ => []
    }
  }

  /** A parsing function with the outcome r on s comes to the strings q: these are the first strings of s, up to the
      place where it ends, and it overruns if and only if one of them is not in bounds. */
  ghost predicate Fits<T>(s: string, q: seq<string>, r: Parsed<T>) {
    && (r.Overrun? <==> !AllIn(q))
    && if r.Parsed? then Strings(s) == q + Strings(r.rest) else q <= Strings(s)
  }

  lemma AllInBoth(p: seq<string>, q: seq<string>)
    ensures AllIn(p + q) <==> AllIn(p) && AllIn(q)
  {
    hide InBounds;
    if AllIn(p + q) {
      assert forall i :: 0 <= i < |p| ==> p[i] == (p + q)[i];
      assert forall i :: 0 <= i < |q| ==> q[i] == (p + q)[|p| + i];
    }
  }

  /** One parsing function after the other. */
  lemma FitsBoth<T, U>(s: string, p: seq<string>, r: Parsed<T>, rest: string, q: seq<string>, r': Parsed<U>)
    requires Fits(s, p, r) && r.Parsed? && Strings(r.rest) == Strings(rest) && Fits(rest, q, r')
    ensures Fits(s, p + q, r')
  {
    hide AllIn, Strings;
    AllInBoth(p, q);
    if r'.Parsed? {
      assert p + (q + Strings(r'.rest)) == p + q + Strings(r'.rest);
    }
  }

  /** What comes behind makes no difference. */
  lemma FitsSame<T, U>(s: string, q: seq<string>, r: Parsed<T>, s': string, r': Parsed<U>)
    requires Fits(s, q, r) && Strings(s) == Strings(s') && r.Parsed? && (r'.Parsed? || r'.Fail?)
    requires r'.Parsed? ==> Strings(r'.rest) == Strings(r.rest)
    ensures Fits(s', q, r') && Fits(s', q + [], r')
  {
    hide AllIn, Strings;
    assert q + [] == q;
  }

  lemma StringFits(s: string)
    ensures Fits(s, ReachedString(s), ParseString(s))
  {
    hide ParseString, InBounds;
    if s != "" && s[0] == '"' {
      StringOverruns(s);
      assert [s[1..]][0] == s[1..];
    } else {
      assert ParseString(s) == Fail by { NotString(s); }
    }
  }

  lemma NotString(s: string)
    requires s == "" || s[0] != '"'
    ensures ParseString(s) == Fail
  {
  }

  lemma {:induction false} SkipFits(s: string)
    ensures Strings(s) == Strings(Skip(s))
  {
    if s != "" && White(s[0]) {
      SkipFits(s[1..]);
    }
  }

  /** Characters that are no quotes can be left out. */
  lemma {:induction false} TailFits(s: string, k: nat)
    requires k <= |s| && forall i :: 0 <= i < k ==> s[i] != '"'
    ensures Strings(s) == Strings(s[k..])
  {
    hide ParseString;
    if k == 0 {
      assert s[k..] == s;
    } else {
      TailFits(s[1..], k - 1);
      assert s[1..][k - 1..] == s[k..];
    }
  }

  lemma {:induction false} DigitsFit(s: string, n: nat)
    ensures Strings(s) == Strings(Digits(s, n).2)
    decreases |s|
  {
    hide ParseString;
    if s != "" && Digit(s[0]) {
      DigitsFit(s[1..], 10 * n + DigitVal(s[0]));
    }
  }

  lemma NumberFits(s: string)
    ensures Strings(s) == Strings(ParseNumber(s).1)
  {
    hide Digits, Strings;
    var s0 := if s != "" && s[0] == '-' then s[1..] else s;
    OneFits(s, '-');
    OneFits(s0, '0');
    var s1 := if s0 != "" && s0[0] == '0' then s0[1..] else s0;
    DigitsFit(s1, 0);
    var (n, s2) := ParseWhole(s0);
    OneFits(s2, '.');
    if s2 != "" {
      DigitsFit(s2[1..], n);
    }
    ExponentFits(ParseFraction(s2, n).2);
  }

  lemma OneFits(s: string, c: char)
    requires c != '"'
    ensures s != "" && s[0] == c ==> Strings(s) == Strings(s[1..])
  {
  }

  lemma ExponentFits(s: string)
    ensures Strings(s) == Strings(ParseExponent(s).1)
  {
    hide Digits, Strings;
    OneFits(s, 'e');
    OneFits(s, 'E');
    if s != "" {
      OneFits(s[1..], '+');
      OneFits(s[1..], '-');
      DigitsFit(s[1..], 0);
      if s[1..] != "" {
        DigitsFit(s[1..][1..], 0);
      }
    }
  }

  lemma {:induction false} ValueFits(s: string)
    ensures Fits(s, ReachedValue(s), ParseValue(s))
    decreases |s|, 0
  {
    hide Strings, ParseString, ParseNumber, ParseArray, ParseObject, ReachedArray, ReachedObject;
    if "null" <= s {
      TailFits(s, 4);
    } else if "false" <= s {
      TailFits(s, 5);
    } else if "true" <= s {
      TailFits(s, 4);
    } else if s != "" {
      StringFits(s);
      NumberFits(s);
      OneFits(s, '[');
      OneFits(s, '{');
      if s[0] == '[' {
        ArrayFits(s[1..]);
      } else if s[0] == '{' {
        ObjectFits(s[1..]);
      }
    }
  }

  lemma {:induction false} ArrayFits(s: string)
    ensures Fits(s, ReachedArray(s), ParseArray(s))
    decreases |s|, 3
  {
    hide Strings, ParseItems, Skip, ReachedItems;
    SkipFits(s);
    OneFits(Skip(s), ']');
    ItemsFit(Skip(s));
  }

  lemma {:induction false} ItemsFit(s: string)
    ensures Fits(s, ReachedItems(s), ParseItems(s))
    decreases |s|, 2
  {
    hide Strings, ParseValue, Skip, ReachedValue, AllIn, Fits;
    SkipFits(s);
    var s0 := Skip(s);
    var p, r := ReachedValue(s0), ParseValue(s0);
    ValueFits(s0);
    assert p + [] == p;
    match r
    case Parsed(v, rest) =>
      SkipFits(rest);
      var s1 := Skip(rest);
      OneFits(s1, ']');
      OneFits(s1, ',');
      if s1 != "" && s1[0] == ',' {
        ItemsFit(s1[1..]);
        FitsBoth(s0, p, r, s1[1..], ReachedItems(s1[1..]), ParseItems(s1[1..]));
        Refits(s0, ReachedItems(s), ParseItems(s1[1..]), s, ParseItems(s));
      } else {
        FitsSame(s0, p, r, s, ParseItems(s));
      }
    case _ => Refits(s0, p, r, s, ParseItems(s));
  }

  /** The same outcome on a text with the same strings. */
  lemma Refits<T, U>(s: string, q: seq<string>, r: Parsed<T>, s': string, r': Parsed<U>)
    requires Fits(s, q, r) && Strings(s) == Strings(s') && r.Kind() == r'.Kind() && (r.Parsed? ==> r.rest == r'.rest)
    ensures Fits(s', q, r')
  {
    hide AllIn, Strings;
  }

  lemma {:induction false} ObjectFits(s: string)
    ensures Fits(s, ReachedObject(s), ParseObject(s))
    decreases |s|, 3
  {
    hide Strings, ParseMembers, Skip, ReachedMembers;
    SkipFits(s);
    OneFits(Skip(s), '}');
    MembersFit(Skip(s));
  }

  lemma {:induction false} MembersFit(s: string)
    ensures Fits(s, ReachedMembers(s), ParseMembers(s))
    decreases |s|, 2
  {
    hide Strings, ParseMember, Skip, ReachedMember, AllIn, Fits;
    var p, r := ReachedMember(s), ParseMember(s);
    MemberFits(s);
    assert p + [] == p;
    match r
    case Parsed(m, rest) =>
      SkipFits(rest);
      var s1 := Skip(rest);
      OneFits(s1, '}');
      OneFits(s1, ',');
      if s1 != "" && s1[0] == ',' {
        MembersFit(s1[1..]);
        FitsBoth(s, p, r, s1[1..], ReachedMembers(s1[1..]), ParseMembers(s1[1..]));
        Refits(s, ReachedMembers(s), ParseMembers(s1[1..]), s, ParseMembers(s));
      } else {
        FitsSame(s, p, r, s, ParseMembers(s));
      }
    case _ => Refits(s, p, r, s, ParseMembers(s));
  }

  lemma {:induction false} MemberFits(s: string)
    ensures Fits(s, ReachedMember(s), ParseMember(s))
    decreases |s|, 1
  {
    hide Strings, ParseValue, ParseString, Skip, ReachedValue, ReachedString, AllIn, Fits;
    SkipFits(s);
    var s0 := Skip(s);
    var p, r := ReachedString(s0), ParseString(s0);
    StringFits(s0);
    assert p + [] == p;
    match r
    case Parsed(key, rest) =>
      SkipFits(rest);
      var s1 := Skip(rest);
      OneFits(s1, ':');
      if s1 != "" && s1[0] == ':' {
        var s2 := Skip(s1[1..]);
        SkipFits(s1[1..]);
        ValueFits(s2);
        FitsBoth(s0, p, r, s2, ReachedValue(s2), ParseValue(s2));
        Refits(s0, ReachedMember(s), ParseValue(s2), s, ParseMember(s));
      } else {
        FitsSame(s0, p, r, s, ParseMember(s));
      }
    case _ => Refits(s0, p, r, s, ParseMember(s));
  }

  /** Whether the text can be parsed or not: the parser leaves it if and only if one of the strings that it comes to
      is not in bounds. These are the first strings of the text, and all of them if it is parsed to its end. */
  lemma ParseFits(t: string)
    ensures Parse(t) == Overrun <==> exists i :: 0 <= i < |Reached(t)| && !InBounds(Reached(t)[i])
    ensures Reached(t) <= Strings(t)
    ensures Parse(t).Parsed? ==> Strings(t) == Reached(t) + Strings(Parse(t).rest)
  {
    hide ParseValue, Skip, ReachedValue, InBounds, Strings;
    SkipFits(t);
    ValueFits(Skip(t));
    assert Fits(t, Reached(t), Parse(t));
    if Parse(t).Parsed? {
      assert Reached(t) <= Reached(t) + Strings(Parse(t).rest);
    }
  }

  /** A text whose strings are all in bounds is parsed without leaving it; a text that is parsed to its end is such a
      text. */
  lemma ParseInBounds(t: string)
    ensures AllInBounds(t) ==> Parse(t) != Overrun
    ensures Parse(t).Parsed? && Parse(t).rest == "" ==> AllInBounds(t)
  {
    hide Parse, Reached, InBounds, Strings;
    ParseFits(t);
    if Parse(t).Parsed? && Parse(t).rest == "" {
      NoStrings();
      AllInBoth(Reached(t), []);
    }
    if Parse(t) == Overrun {
      var i :| 0 <= i < |Reached(t)| && !InBounds(Reached(t)[i]);
      assert Strings(t)[i] == Reached(t)[i];
    }
  }

  lemma NoStrings()
    ensures Strings("") == []
  {
  }

  /** Every printout is such a text. */
  lemma PrintedInBounds(j: Json, fmt: bool)
    requires Printable(j)
    ensures AllInBounds(Print(j, 0, fmt))
  {
    hide Print, Parse;
    RoundTrip(j, fmt);
    ParseInBounds(Print(j, 0, fmt));
  }
}
