/** Strings and numbers of cJSON: what its printer writes and what its parser reads. A text is the contents of a C
    string: characters 1 to 255, the end of the text standing for the terminating zero. */
module JsonText {
  import opened Common
  /** How a parsing function ends; Overran says that it has read behind the text or written behind its buffer. */
  datatype Outcome = Done | Failed | Overran

  /** A value and the text behind it. */
  datatype Parsed<T> = Fail | Overrun | Parsed(value: T, rest: string) {
    function Kind(): Outcome {
      match this case Fail => Failed case Overrun => Overran case Parsed(_, _) => Done
    }
  }

  predicate IsText(s: string) { forall i :: 0 <= i < |s| ==> 0 < s[i] as int < 256 }

  predicate White(c: char) { c <= ' ' }

  /** skip. */
  function Skip(s: string): (r: string)
    ensures |r| <= |s| && (r != "" ==> !White(r[0]))
  {
    if s != "" && White(s[0]) then Skip(s[1..]) else s
  }

  // ----- hexadecimal digits and UTF-8

  function HexVal(c: char): Option<nat> {
    if '0' <= c <= '9' then Some(c as int - '0' as int)
    else if 'A' <= c <= 'F' then Some(10 + c as int - 'A' as int)
    else if 'a' <= c <= 'f' then Some(10 + c as int - 'a' as int)
    else None
  }

  function HexDigit(n: nat): char
    requires n < 16
  {
    if n < 10 then ('0' as int + n) as char else ('a' as int + (n - 10)) as char
  }

  lemma HexBack(n: nat)
    requires n < 16
    ensures HexVal(HexDigit(n)) == Some(n)
  {
  }

  function HexAt(s: string, i: nat): Option<nat> { if i < |s| then HexVal(s[i]) else None }

  /** parse_hex4: 0 unless there are four digits. */
  function Hex4(s: string): (h: nat)
  {
    match (HexAt(s, 0), HexAt(s, 1), HexAt(s, 2), HexAt(s, 3))
    case (Some(a), Some(b), Some(c), Some(d)) => 0x1000 * a + 0x100 * b + 0x10 * c + d
    case _ => 0
  }

  function Byte(n: nat): char { (n % 256) as char }

  /** The bytes of a character (section 3 of RFC 3629). */
  function Utf8(uc: nat): string {
    if uc < 0x80 then [Byte(uc)]
    else if uc < 0x800 then [Byte(0xC0 + uc / 0x40), Byte(0x80 + uc % 0x40)]
    else if uc < 0x10000 then [Byte(0xE0 + uc / 0x1000), Byte(0x80 + uc / 0x40 % 0x40), Byte(0x80 + uc % 0x40)]
    else [Byte(0xF0 + uc / 0x40000), Byte(0x80 + uc / 0x1000 % 0x40), Byte(0x80 + uc / 0x40 % 0x40),
      Byte(0x80 + uc % 0x40)]
  }

  // ----- strings

  /** What the escape at the start of s stands for, and how many characters it takes. */
  function Unescape(s: string): (string, nat)
    requires |s| >= 2
  {
    match s[1]
    case 'b' => ("\U{8}", 2)
    case 'f' => ("\U{C}", 2)
    case 'n' => ("\n", 2)
    case 'r' => ("\r", 2)
    case 't' => ("\t", 2)
    case 'u' => UnescapeU(s)
    case c => ([c], 2)
  }

  function UnescapeU(s: string): (string, nat)
    requires |s| >= 2
  {
    var uc := Hex4(s[2..]);
    if uc == 0 || 0xDC00 <= uc <= 0xDFFF then ("", 6)
    else if 0xD800 <= uc <= 0xDBFF then
      if |s| < 8 || s[6] != '\\' || s[7] != 'u' then ("", 6)
      else
        var uc2 := Hex4(s[8..]);
        if uc2 < 0xDC00 || uc2 > 0xDFFF then ("", 12)
        else (Utf8(0x10000 + uc % 0x400 * 0x400 + uc2 % 0x400), 12)
    else (Utf8(uc), 6)
  }

  lemma UnescapeMoves(s: string)
    requires |s| >= 2
    ensures Unescape(s).1 >= 2
  {
  }

  /** The contents of a string up to its closing quote, or up to the end of the text; None if an escape goes on behind
      the end. */
  function Unquote(s: string): (r: Option<(string, string)>)
    ensures r.Some? ==> |r.value.1| <= |s|
    decreases |s|
  {
    if s == "" then Some(("", ""))
    else if s[0] == '"' then Some(("", s[1..]))
    else if s[0] != '\\' then Prepend([s[0]], Unquote(s[1..]))
    else if |s| == 1 then None
    else
      UnescapeMoves(s);
      var (e, n) := Unescape(s);
      if n > |s| then None else Prepend(e, Unquote(s[n..]))
  }

  function Prepend(e: string, r: Option<(string, string)>): Option<(string, string)> {
    match r case None => None case Some((t, rest)) => Some((e + t, rest))
  }

  /** Where a pass over a string stops, and how many characters it counts or writes up to there. */
  datatype Pass = Pass(stop: nat, size: nat)

  function Further(taken: nat, size: nat, r: Option<Pass>): Option<Pass> {
    match r case None => None case Some(p) => Some(Pass(taken + p.stop, size + p.size))
  }

  /** The first pass of parse_string, which sizes the buffer: it skips what stands behind a backslash. */
  function FirstPass(s: string): (r: Option<Pass>)
    ensures r.Some? ==> r.value.stop <= |s|
  {
    if s == "" || s[0] == '"' then Some(Pass(0, 0))
    else if s[0] != '\\' then Further(1, 1, FirstPass(s[1..]))
    else if |s| == 1 then None
    else Further(2, 1, FirstPass(s[2..]))
  }

  /** parse_string: the second pass has to stay within the text, and within the buffer of the first. */
  function ParseString(s: string): (r: Parsed<string>)
    ensures r.Parsed? ==> |r.rest| < |s|
  {
    if s == "" || s[0] != '"' then Fail
    else match (FirstPass(s[1..]), Unquote(s[1..]))
      case (Some(p), Some((t, rest))) => if |t| <= p.size then Parsed(t, rest) else Overrun
      case _ => Overrun
  }

  /** The letter behind the backslash. */
  function Letter(c: char): char {
    match c
    case '\\' => '\\'
    case '"' => '"'
    case '\U{8}' => 'b'
    case '\U{C}' => 'f'
    case '\n' => 'n'
    case '\r' => 'r'
    case '\t' => 't'
    case _ => 'u'
  }

  /** A character as print_string_ptr writes it. */
  function Escape(c: char): string {
    if c > '\U{1F}' && c != '"' && c != '\\' then [c]
    else if Letter(c) != 'u' then ['\\', Letter(c)]
    else ['\\', 'u', '0', '0', HexDigit(c as int / 16), HexDigit(c as int % 16)]
  }

  function EscapeAll(t: string): string {
    if t == "" then "" else Escape(t[0]) + EscapeAll(t[1..])
  }

  /** print_string_ptr. */
  function PrintString(t: string): string { "\"" + EscapeAll(t) + "\"" }

  /** Every escape is undone. */
  lemma UnescapeEscape(c: char, r: string)
    requires 0 < c as int < 256
    ensures
      var s := Escape(c) + r;
      if s[0] == '\\' then |s| >= 2 && Unescape(s) == ([c], |Escape(c)|) else s == [c] + r && c != '"'
  {
    if c <= '\U{1F}' && c != '\U{8}' && c != '\U{C}' && c != '\n' && c != '\r' && c != '\t' {
      var n := c as int;
      HexBack(n / 16);
      HexBack(n % 16);
      HexBack(0);
      var s := Escape(c) + r;
      assert s[2..][0] == '0' && s[2..][1] == '0' && s[2..][2] == HexDigit(n / 16) && s[2..][3] == HexDigit(n % 16);
      assert Hex4(s[2..]) == n;
    }
  }

  lemma {:induction false} UnquoteEscape(t: string, r: string)
    requires IsText(t)
    ensures Unquote(EscapeAll(t) + "\"" + r) == Some((t, r))
  {
    if t == "" {
      assert EscapeAll(t) + "\"" + r == "\"" + r;
    } else {
      var more := EscapeAll(t[1..]) + "\"" + r;
      var s := Escape(t[0]) + more;
      assert EscapeAll(t) + "\"" + r == s;
      UnescapeEscape(t[0], more);
      UnquoteEscape(t[1..], r);
      assert t == [t[0]] + t[1..];
      assert s[|Escape(t[0])|..] == more;
    }
  }

  lemma {:induction false} EscapeSized(t: string, r: string)
    requires IsText(t)
    ensures var p := FirstPass(EscapeAll(t) + "\"" + r); p.Some? && p.value.size >= |t|
  {
    if t == "" {
      assert EscapeAll(t) + "\"" + r == "\"" + r;
    } else {
      var more := EscapeAll(t[1..]) + "\"" + r;
      assert EscapeAll(t) + "\"" + r == Escape(t[0]) + more;
      EscapeSized(t[1..], r);
      OneSized(t[0], more);
    }
  }

  lemma OneSized(c: char, more: string)
    requires 0 < c as int < 256 && FirstPass(more).Some?
    ensures var p := FirstPass(Escape(c) + more); p.Some? && p.value.size >= 1 + FirstPass(more).value.size
  {
    hide HexDigit, FirstPass, Letter;
    if |Escape(c)| == 1 {
      PlainSized(c, more);
    } else if |Escape(c)| == 2 {
      PairSized(Letter(c), more);
    } else {
      var h, l := HexDigit(c as int / 16), HexDigit(c as int % 16);
      HexPlain(c as int / 16);
      HexPlain(c as int % 16);
      PlainSized(l, more);
      PlainSized(h, [l] + more);
      PlainSized('0', [h] + ([l] + more));
      PlainSized('0', ['0'] + ([h] + ([l] + more)));
      PairSized('u', ['0'] + (['0'] + ([h] + ([l] + more))));
      assert Escape(c) + more == ['\\', 'u'] + (['0'] + (['0'] + ([h] + ([l] + more))));
    }
  }

  lemma {:induction false} PlainSized(c: char, more: string)
    requires c != '"' && c != '\\'
    ensures FirstPass([c] + more) == Further(1, 1, FirstPass(more))
  {
    assert ([c] + more)[1..] == more;
  }

  lemma {:induction false} PairSized(c: char, more: string)
    ensures FirstPass(['\\', c] + more) == Further(2, 1, FirstPass(more))
  {
    assert (['\\', c] + more)[2..] == more;
  }

  lemma HexPlain(n: nat)
    requires n < 16
    ensures HexDigit(n) != '"' && HexDigit(n) != '\\'
  {
  }

  /** A printed string is read back as it was, with all of its control characters. */
  lemma StringRoundTrip(t: string, r: string)
    requires IsText(t)
    ensures ParseString(PrintString(t) + r) == Parsed(t, r)
  {
    hide Unquote, EscapeAll, FirstPass;
    UnquoteEscape(t, r);
    EscapeSized(t, r);
    assert PrintString(t) + r == "\"" + (EscapeAll(t) + "\"" + r);
  }

  // ----- numbers

  /** The number mant * 10^exp. */
  datatype Decimal = Decimal(mant: int, exp: int)

  predicate Digit(c: char) { '0' <= c <= '9' }

  function DigitVal(c: char): nat
    requires Digit(c)
  {
    c as int - '0' as int
  }

  /** Reads digits onto n, and counts them. */
  function Digits(s: string, n: nat): (r: (nat, nat, string))
    ensures |r.2| + r.1 == |s| && (r.2 != "" ==> !Digit(r.2[0])) && s[r.1..] == r.2
  {
    if s != "" && Digit(s[0]) then var (v, k, rest) := Digits(s[1..], 10 * n + DigitVal(s[0])); (v, k + 1, rest)
      else (n, 0, s)
  }

  /** An optional zero and digits. */
  function ParseWhole(s: string): (r: (nat, string))
    ensures |r.1| <= |s|
  {
    var s1 := if s != "" && s[0] == '0' then s[1..] else s;
    if s1 != "" && '1' <= s1[0] <= '9' then var (n, _, s2) := Digits(s1, 0); (n, s2) else (0, s1)
  }

  /** A point and digits, and how many there are. */
  function ParseFraction(s: string, n: nat): (r: (nat, nat, string))
    ensures |r.2| <= |s|
  {
    if |s| >= 2 && s[0] == '.' && Digit(s[1]) then Digits(s[1..], n) else (n, 0, s)
  }

  /** parse_number: an optional sign, digits, a fraction and an exponent. */
  function ParseNumber(s: string): (r: (Decimal, string))
    ensures |r.1| <= |s|
  {
    var neg := s != "" && s[0] == '-';
    var (n, s1) := ParseWhole(if neg then s[1..] else s);
    var (m, k, s2) := ParseFraction(s1, n);
    var (e, s3) := ParseExponent(s2);
    (Decimal(if neg then -(m as int) else m, e - k), s3)
  }

  function ParseExponent(s: string): (r: (int, string))
    ensures |r.1| <= |s|
  {
    if s == "" || (s[0] != 'e' && s[0] != 'E') then (0, s)
    else
      var s1 := s[1..];
      var neg := s1 != "" && s1[0] == '-';
      var s2 := if s1 != "" && (s1[0] == '+' || s1[0] == '-') then s1[1..] else s1;
      var (e, _, rest) := Digits(s2, 0);
      (if neg then -(e as int) else e, rest)
  }

  function PrintNat(n: nat): (s: string)
    ensures s != "" && Digit(s[0]) && (n > 0 ==> s[0] != '0')
  {
    if n < 10 then [DigitChar(n)] else PrintNat(n / 10) + [DigitChar(n % 10)]
  }

  /** "%d". */
  function PrintInt(n: int): string { if n < 0 then "-" + PrintNat(-n) else PrintNat(n) }

  /** What may stand behind a number without being taken for a part of it. */
  predicate EndsNumber(r: string) {
    r == "" || (!Digit(r[0]) && r[0] != '.' && r[0] != 'e' && r[0] != 'E')
  }

  function DigitChar(d: nat): char
    requires d < 10
  {
    ('0' as int + d) as char
  }

  lemma OneDigit(d: nat, r: string, n: nat)
    requires d < 10
    ensures
      var (v, k, rest) := Digits(r, 10 * n + d);
      Digits([DigitChar(d)] + r, n) == (v, k + 1, rest)
  {
    assert ([DigitChar(d)] + r)[1..] == r;
  }

  lemma LastDigit(n: nat, r: string)
    ensures n < 10 ==> PrintNat(n) == [DigitChar(n)]
    ensures n >= 10 ==>
      PrintNat(n) + r == PrintNat(n / 10) + ([DigitChar(n % 10)] + r) && |PrintNat(n)| == |PrintNat(n / 10)| + 1
  {
  }

  lemma {:induction false} ReadNat(n: nat, r: string)
    ensures
      var (v, k, rest) := Digits(r, n);
      Digits(PrintNat(n) + r, 0) == (v, |PrintNat(n)| + k, rest)
  {
    hide Digits, PrintNat;
    LastDigit(n, r);
    if n < 10 {
      OneDigit(n, r, 0);
    } else {
      ReadNat(n / 10, [DigitChar(n % 10)] + r);
      OneDigit(n % 10, r, n / 10);
    }
  }

  /** A printed integer is read back as it was. */
  lemma NumberRoundTrip(n: int, r: string)
    requires EndsNumber(r)
    ensures ParseNumber(PrintInt(n) + r) == (Decimal(n, 0), r)
    ensures PrintInt(n) != "" && (PrintInt(n)[0] == '-' || Digit(PrintInt(n)[0]))
  {
    hide PrintNat, Digits;
    var m: nat := if n < 0 then -n else n;
    var s := PrintNat(m) + r;
    assert n < 0 ==> (PrintInt(n) + r)[1..] == s;
    PlainDigits(m, r);
  }

  /** The digits of a number, read as the parser does it. */
  lemma PlainDigits(m: nat, r: string)
    requires EndsNumber(r)
    ensures
      var s := PrintNat(m) + r;
      && s != "" && s[0] != '-' && Digit(s[0])
      && if m == 0 then s[0] == '0' && s[1..] == r else '1' <= s[0] <= '9' && Digits(s, 0) == (m, |PrintNat(m)|, r)
  {
    ReadNat(m, r);
  }
}
