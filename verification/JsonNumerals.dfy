/** The numbers that cJSON reads, written down part by part, and what they stand for. */
module JsonNumerals {
  import opened JsonText

  // ----- numbers

  predicate AllDigits(d: string) { forall i :: 0 <= i < |d| ==> '0' <= d[i] <= '9' }

  /** The number that decimal digits stand for. */
  function Val(d: string): nat
    requires AllDigits(d)
  {
    if d == "" then 0 else 10 * Val(d[..|d| - 1]) + (d[|d| - 1] as int - '0' as int)
  }

  datatype Exponent = NoExponent | Exponent(letter: char, sign: string, digits: string) {
    predicate Ok() {
      Exponent? ==> (letter == 'e' || letter == 'E') && (sign == "" || sign == "+" || sign == "-") && AllDigits(digits)
    }

    function Text(): string { if NoExponent? then "" else [letter] + (sign + digits) }

    function Value(): int
      requires Ok()
    {
      if NoExponent? then 0 else if sign == "-" then -(Val(digits) as int) else Val(digits)
    }
  }

  /** A sign, a zero, digits that do not start with a zero, digits behind a point, and an exponent; all but one of the
      first three may be missing. */
  datatype Numeral = Numeral(neg: bool, zero: bool, whole: string, frac: string, exp: Exponent) {
    predicate Ok() {
      && AllDigits(whole) && AllDigits(frac) && exp.Ok() && (whole != "" ==> whole[0] != '0')
      && (neg || zero || whole != "")
    }

    function Fraction(): string { if frac == "" then "" else "." + frac }

    function Text(): string {
      (if neg then "-" else "") + ((if zero then "0" else "") + (whole + (Fraction() + exp.Text())))
    }

    /** The digits without the point, with as many places taken off the exponent as there are behind the point. */
    function Value(): Decimal
      requires Ok()
    {
      var m := Val(whole + frac);
      Decimal(if neg then -(m as int) else m, exp.Value() - |frac|)
    }
  }

  /** What may follow a number. */
  predicate Ends(r: string) {
    r == "" || !(Digit(r[0]) || r[0] == '.' || r[0] == 'e' || r[0] == 'E' || r[0] == '+' || r[0] == '-')
  }

  lemma ValMore(p: string, c: char)
    requires AllDigits(p) && Digit(c)
    ensures AllDigits(p + [c]) && Val(p + [c]) == 10 * Val(p) + DigitVal(c)
  {
    assert (p + [c])[..|p|] == p;
  }

  /** Digits are read onto those read before. */
  lemma {:induction false} DigitsRead(p: string, d: string, r: string)
    requires AllDigits(p) && AllDigits(d) && (r == "" || !Digit(r[0]))
    ensures Digits(d + r, Val(p)) == (Val(p + d), |d|, r)
    decreases |d|
  {
    hide Digits, Val;
    if d == "" {
      assert d + r == r && p + d == p;
      NoDigit(r, Val(p));
    } else {
      OneOff(d, r);
      DigitStep(d + r, Val(p));
      assert p + d == p + [d[0]] + d[1..];
      ValMore(p, d[0]);
      DigitsRead(p + [d[0]], d[1..], r);
    }
  }

  lemma OneOff(d: string, r: string)
    requires d != ""
    ensures (d + r)[0] == d[0] && (d + r)[1..] == d[1..] + r
  {
  }

  lemma DigitStep(s: string, n: nat)
    requires s != "" && Digit(s[0])
    ensures var (v, k, rest) := Digits(s[1..], 10 * n + DigitVal(s[0])); Digits(s, n) == (v, k + 1, rest)
  {
  }

  lemma NoDigit(s: string, n: nat)
    requires s == "" || !Digit(s[0])
    ensures Digits(s, n) == (n, 0, s)
  {
  }

  lemma ExponentParses(e: Exponent, r: string)
    requires e.Ok() && Ends(r)
    ensures ParseExponent(e.Text() + r) == (e.Value(), r)
  {
    hide Digits, Val;
    match e
    case NoExponent => assert "" + r == r;
    case Exponent(letter, sign, digits) =>
      ExponentParts(letter, sign, digits, r);
      DigitsAlone(digits, r);
  }

  lemma ExponentParts(letter: char, sign: string, digits: string, r: string)
    requires AllDigits(digits) && (sign == "" || sign == "+" || sign == "-") && Ends(r)
    ensures
      var s := [letter] + (sign + digits) + r;
      && s != "" && s[0] == letter && s[1..] == sign + (digits + r)
      && (sign == "" ==> s[1..] == digits + r && (s[1..] == "" || (s[1..][0] != '+' && s[1..][0] != '-')))
      && (sign != "" ==> s[1..] != "" && s[1..][0] == sign[0] && s[1..][1..] == digits + r)
  {
    var s := [letter] + (sign + digits) + r;
    assert s == [letter] + (sign + (digits + r));
  }

  lemma DigitsAlone(d: string, r: string)
    requires AllDigits(d) && (r == "" || !Digit(r[0]))
    ensures Digits(d + r, 0) == (Val(d), |d|, r)
  {
    hide Digits;
    assert "" + d == d && Val("") == 0;
    DigitsRead("", d, r);
  }

  lemma FractionParses(n: Numeral, r: string)
    requires n.Ok() && (r == "" || (!Digit(r[0]) && r[0] != '.'))
    ensures ParseFraction(n.Fraction() + r, Val(n.whole)) == (Val(n.whole + n.frac), |n.frac|, r)
  {
    hide Digits, Val;
    if n.frac == "" {
      assert n.Fraction() + r == r && n.whole + n.frac == n.whole;
    } else {
      PointFirst(n.frac, r);
      DigitsRead(n.whole, n.frac, r);
    }
  }

  lemma PointFirst(d: string, r: string)
    requires d != ""
    ensures var s := "." + d + r; |s| >= 2 && s[0] == '.' && s[1] == d[0] && s[1..] == d + r
  {
  }

  lemma WholeParses(n: Numeral, r: string)
    requires n.Ok() && (r == "" || !Digit(r[0]))
    ensures ParseWhole((if n.zero then "0" else "") + (n.whole + r)) == (Val(n.whole), r)
  {
    hide Digits, ParseWhole;
    WholeRead(n.whole, r);
    if n.zero {
      ZeroFirst(n.whole + r);
    } else {
      assert "" + (n.whole + r) == n.whole + r;
    }
  }

  lemma WholeRead(whole: string, r: string)
    requires AllDigits(whole) && (whole != "" ==> whole[0] != '0') && (r == "" || !Digit(r[0]))
    ensures ParseWhole(whole + r) == (Val(whole), r) && (whole + r == "" || (whole + r)[0] != '0')
  {
    hide Digits;
    if whole == "" {
      assert whole + r == r;
    } else {
      hide Val;
      OneOff(whole, r);
      DigitsAlone(whole, r);
    }
  }

  lemma ZeroFirst(s: string)
    requires s == "" || s[0] != '0'
    ensures ParseWhole("0" + s) == ParseWhole(s)
  {
    hide Digits;
    assert ("0" + s)[1..] == s;
  }

  /** A number of this form is read as what it stands for. */
  lemma NumeralParses(n: Numeral, r: string)
    requires n.Ok() && Ends(r)
    ensures ParseNumber(n.Text() + r) == (n.Value(), r)
  {
    hide ParseWhole, ParseFraction, ParseExponent, Val;
    var z, x := if n.zero then "0" else "", n.exp.Text() + r;
    var body := z + (n.whole + (n.Fraction() + x));
    NumeralParts(n, r);
    ExponentParses(n.exp, r);
    FractionParses(n, x);
    WholeParses(n, n.Fraction() + x);
  }

  lemma NumeralParts(n: Numeral, r: string)
    requires n.Ok() && Ends(r)
    ensures
      var x := n.exp.Text() + r;
      var body := (if n.zero then "0" else "") + (n.whole + (n.Fraction() + x));
      && n.Text() + r == (if n.neg then "-" else "") + body
      && (n.neg ==> (n.Text() + r)[0] == '-' && (n.Text() + r)[1..] == body)
      && (!n.neg ==> n.Text() + r == body && body != "" && body[0] != '-')
      && (x == "" || (!Digit(x[0]) && x[0] != '.'))
      && (n.Fraction() + x == "" || !Digit((n.Fraction() + x)[0]))
  {
    hide AllDigits;
    var z, f, e := if n.zero then "0" else "", n.Fraction(), n.exp.Text();
    Together(if n.neg then "-" else "", z, n.whole, f, e, r);
    var body := z + (n.whole + (f + (e + r)));
    if n.neg {
      OneOff("-", body);
    } else {
      assert "" + body == body;
      StartsPlain(n.zero, n.whole, f + (e + r));
    }
    ExponentStarts(n.exp, r);
    FractionStarts(n.frac, e + r);
  }

  lemma StartsPlain(zero: bool, whole: string, x: string)
    requires AllDigits(whole) && (zero || whole != "")
    ensures var body := (if zero then "0" else "") + (whole + x); body != "" && body[0] != '-'
  {
    if zero {
      OneOff("0", whole + x);
    } else {
      OneOff(whole, x);
    }
  }

  lemma ExponentStarts(e: Exponent, r: string)
    requires e.Ok() && Ends(r)
    ensures var x := e.Text() + r; x == "" || (!Digit(x[0]) && x[0] != '.')
  {
    hide AllDigits;
    if e.Exponent? {
      First(e.letter, e.sign + e.digits, r);
    } else {
      assert "" + r == r;
    }
  }

  lemma First(c: char, a: string, r: string)
    ensures var s := [c] + a + r; s != "" && s[0] == c
  {
  }

  lemma FractionStarts(frac: string, x: string)
    requires x == "" || !Digit(x[0])
    ensures var s := (if frac == "" then "" else "." + frac) + x; s == "" || !Digit(s[0])
  {
    if frac != "" {
      First('.', frac, x);
    } else {
      assert "" + x == x;
    }
  }

  // ----- and back: what is read as a number is one

  lemma {:induction false} DigitsAre(p: string, s: string) returns (d: string)
    requires AllDigits(p)
    ensures AllDigits(d) && Digits(s, Val(p)) == (Val(p + d), |d|, Digits(s, Val(p)).2) && s == d + Digits(s, Val(p)).2
    ensures s != "" && Digit(s[0]) ==> d != "" && d[0] == s[0]
    decreases |s|
  {
    hide Digits, Val;
    if s != "" && Digit(s[0]) {
      ValMore(p, s[0]);
      DigitStep(s, Val(p));
      var more := DigitsAre(p + [s[0]], s[1..]);
      d := [s[0]] + more;
      assert p + d == p + [s[0]] + more && s == [s[0]] + s[1..];
      assert [s[0]] + (more + Digits(s, Val(p)).2) == d + Digits(s, Val(p)).2;
    } else {
      d := "";
      NoDigit(s, Val(p));
      assert p + d == p && d + s == s;
    }
  }

  lemma OwnDigits(s: string) returns (d: string)
    ensures AllDigits(d) && Digits(s, 0) == (Val(d), |d|, Digits(s, 0).2) && s == d + Digits(s, 0).2
    ensures s != "" && Digit(s[0]) ==> d != "" && d[0] == s[0]
  {
    hide Digits;
    assert Val("") == 0;
    d := DigitsAre("", s);
    assert "" + d == d;
  }

  lemma ExponentIs(s: string) returns (e: Exponent)
    ensures e.Ok() && s == e.Text() + ParseExponent(s).1 && ParseExponent(s).0 == e.Value()
  {
    hide Digits, Val;
    if s == "" || (s[0] != 'e' && s[0] != 'E') {
      e := NoExponent;
      assert "" + s == s;
    } else {
      var s1 := s[1..];
      var sign, s2 := SignOf(s1);
      var d := OwnDigits(s2);
      e := Exponent(s[0], sign, d);
      Joined(s[0], sign, d, Digits(s2, 0).2);
      assert s == [s[0]] + s1;
    }
  }

  lemma SignOf(s: string) returns (sign: string, rest: string)
    ensures s == sign + rest && (sign == "-" <==> s != "" && s[0] == '-')
    ensures rest == (if s != "" && (s[0] == '+' || s[0] == '-') then s[1..] else s)
    ensures sign == "" || sign == "+" || sign == "-"
  {
    if s != "" && (s[0] == '+' || s[0] == '-') {
      sign, rest := [s[0]], s[1..];
    } else {
      sign, rest := "", s;
    }
  }

  lemma Joined(c: char, sign: string, d: string, r: string)
    ensures [c] + (sign + (d + r)) == [c] + (sign + d) + r
  {
  }

  lemma FractionIs(whole: string, s: string) returns (frac: string)
    requires AllDigits(whole)
    ensures AllDigits(frac)
    ensures var r := ParseFraction(s, Val(whole)); r == (Val(whole + frac), |frac|, r.2)
    ensures s == (if frac == "" then "" else "." + frac) + ParseFraction(s, Val(whole)).2
  {
    hide Digits, Val;
    if |s| >= 2 && s[0] == '.' && Digit(s[1]) {
      frac := DigitsAre(whole, s[1..]);
      assert s == "." + s[1..];
      assert "." + (frac + Digits(s[1..], Val(whole)).2) == ("." + frac) + Digits(s[1..], Val(whole)).2;
    } else {
      frac := "";
      assert whole + "" == whole && "" + s == s;
    }
  }

  lemma WholeIs(s: string) returns (zero: bool, whole: string)
    ensures AllDigits(whole) && (whole != "" ==> whole[0] != '0') && ParseWhole(s).0 == Val(whole)
    ensures s == (if zero then "0" else "") + (whole + ParseWhole(s).1)
    ensures s != "" && Digit(s[0]) ==> zero || whole != ""
  {
    hide Digits;
    zero := s != "" && s[0] == '0';
    var s1 := if zero then s[1..] else s;
    assert s == (if zero then "0" else "") + s1;
    if s1 != "" && '1' <= s1[0] <= '9' {
      whole := OwnDigits(s1);
    } else {
      whole := "";
      assert "" + s1 == s1;
    }
  }

  /** What is read as a number is a number of this form, and it is read as what it stands for. */
  lemma NumeralIs(s: string) returns (n: Numeral)
    requires s != "" && (s[0] == '-' || Digit(s[0]))
    ensures n.Ok() && s == n.Text() + ParseNumber(s).1 && ParseNumber(s).0 == n.Value()
  {
    hide ParseWhole, ParseFraction, ParseExponent, Val;
    var neg := s[0] == '-';
    var s0 := if neg then s[1..] else s;
    assert s == (if neg then "-" else "") + s0;
    var zero, whole := WholeIs(s0);
    var s1 := ParseWhole(s0).1;
    var frac := FractionIs(whole, s1);
    var s2 := ParseFraction(s1, Val(whole)).2;
    var e := ExponentIs(s2);
    n := Numeral(neg, zero, whole, frac, e);
    Together(if neg then "-" else "", if zero then "0" else "", whole, n.Fraction(), e.Text(), ParseExponent(s2).1);
  }

  lemma Together(a: string, b: string, c: string, d: string, e: string, r: string)
    ensures a + (b + (c + (d + (e + r)))) == a + (b + (c + (d + e))) + r
  {
  }
}
