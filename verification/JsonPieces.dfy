/** The strings that cJSON reads, written down piece by piece, and what they stand for. */
module JsonPieces {
  import opened Common
  import opened JsonText

  // ----- characters by their numbers

  predicate Continues(c: char) { 0x80 <= c as int < 0xC0 }

  /** The character that one to four bytes stand for (section 3 of RFC 3629). */
  function FromUtf8(b: string): Option<nat> {
    if |b| == 1 && b[0] as int < 0x80 then Some(b[0] as int)
    else if |b| == 2 && 0xC0 <= b[0] as int < 0xE0 && Continues(b[1]) then
      Some((b[0] as int - 0xC0) * 0x40 + (b[1] as int - 0x80))
    else if |b| == 3 && 0xE0 <= b[0] as int < 0xF0 && Continues(b[1]) && Continues(b[2]) then
      Some((b[0] as int - 0xE0) * 0x1000 + (b[1] as int - 0x80) * 0x40 + (b[2] as int - 0x80))
    else if |b| == 4 && 0xF0 <= b[0] as int < 0xF8 && Continues(b[1]) && Continues(b[2]) && Continues(b[3]) then
      Some((b[0] as int - 0xF0) * 0x40000 + (b[1] as int - 0x80) * 0x1000 + (b[2] as int - 0x80) * 0x40
        + (b[3] as int - 0x80))
    else None
  }

  /** UTF-8 is undone by it, and is as short as can be. */
  lemma Utf8Back(uc: nat)
    requires uc < 0x110000
    ensures FromUtf8(Utf8(uc)) == Some(uc)
    ensures |Utf8(uc)| == if uc < 0x80 then 1 else if uc < 0x800 then 2 else if uc < 0x10000 then 3 else 4
  {
    hide Utf8, FromUtf8;
    if uc < 0x80 {
      Utf8One(uc);
    } else if uc < 0x800 {
      Utf8Two(uc);
    } else if uc < 0x10000 {
      Utf8Three(uc);
    } else {
      Utf8Four(uc);
    }
  }

  lemma Utf8One(uc: nat)
    requires uc < 0x80
    ensures FromUtf8(Utf8(uc)) == Some(uc) && |Utf8(uc)| == 1
  {
    hide Byte;
    ByteBack(uc);
  }

  lemma Utf8Two(uc: nat)
    requires 0x80 <= uc < 0x800
    ensures FromUtf8(Utf8(uc)) == Some(uc) && |Utf8(uc)| == 2
  {
    hide Byte;
    ByteBack(0xC0 + uc / 0x40);
    ByteBack(0x80 + uc % 0x40);
  }

  lemma Utf8Three(uc: nat)
    requires 0x800 <= uc < 0x10000
    ensures FromUtf8(Utf8(uc)) == Some(uc) && |Utf8(uc)| == 3
  {
    hide Byte;
    var a, b, c, d := SixBits(uc);
    ByteBack(0xE0 + uc / 0x1000);
    ByteBack(0x80 + c);
    ByteBack(0x80 + d);
  }

  lemma Utf8Four(uc: nat)
    requires 0x10000 <= uc < 0x110000
    ensures FromUtf8(Utf8(uc)) == Some(uc) && |Utf8(uc)| == 4
  {
    hide Byte;
    var a, b, c, d := SixBits(uc);
    ByteBack(0xF0 + a);
    ByteBack(0x80 + b);
    ByteBack(0x80 + c);
    ByteBack(0x80 + d);
  }

  lemma ByteBack(n: nat)
    ensures n < 256 ==> Byte(n) as int == n
  {
  }

  /** A number in groups of six bits. */
  lemma SixBits(uc: nat) returns (a: nat, b: nat, c: nat, d: nat)
    ensures b < 0x40 && c < 0x40 && d < 0x40 && uc == 0x40000 * a + 0x1000 * b + 0x40 * c + d
    ensures a == uc / 0x40000 && b == uc / 0x1000 % 0x40 && c == uc / 0x40 % 0x40 && d == uc % 0x40
    ensures uc / 0x1000 == 0x40 * a + b && uc / 0x40 == 0x1000 * a + 0x40 * b + c
  {
    a, b, c, d := uc / 0x40000, uc / 0x1000 % 0x40, uc / 0x40 % 0x40, uc % 0x40;
    assert uc / 0x40 / 0x40 == uc / 0x1000 && uc / 0x1000 / 0x40 == uc / 0x40000;
  }

  predicate AllHex(x: string) { forall i :: 0 <= i < |x| ==> HexVal(x[i]).Some? }

  function HexNumber(x: string): nat
    requires AllHex(x)
  {
    if x == "" then 0 else 16 * HexNumber(x[..|x| - 1]) + HexVal(x[|x| - 1]).value
  }

  /** Digits of both cases. */
  lemma HexDigits(n: nat)
    requires n < 16
    ensures HexVal("0123456789abcdef"[n]) == Some(n) && HexVal("0123456789ABCDEF"[n]) == Some(n)
  {
  }

  /** parse_hex4 on four characters: their number, or 0 if one of them is no digit. */
  lemma Hex4Is(x: string, r: string)
    requires |x| == 4
    ensures Hex4(x + r) == if AllHex(x) then HexNumber(x) else 0
  {
    hide HexVal;
    assert HexAt(x + r, 0) == HexVal(x[0]) && HexAt(x + r, 1) == HexVal(x[1]);
    assert HexAt(x + r, 2) == HexVal(x[2]) && HexAt(x + r, 3) == HexVal(x[3]);
    assert HexVal(x[0]).Some? && HexVal(x[1]).Some? && HexVal(x[2]).Some? && HexVal(x[3]).Some? ==> AllHex(x);
    if AllHex(x) {
      var x1, x2, x3 := x[..1], x[..2], x[..3];
      assert x3[..2] == x2 && x2[..1] == x1 && x1[..0] == "";
      assert HexNumber(x1) == HexVal(x[0]).value;
      assert HexNumber(x2) == 16 * HexNumber(x1) + HexVal(x[1]).value;
      assert HexNumber(x3) == 16 * HexNumber(x2) + HexVal(x[2]).value;
    }
  }

  // ----- pieces

  predicate High(h: nat) { 0xD800 <= h < 0xDC00 }

  predicate Low(h: nat) { 0xDC00 <= h < 0xE000 }

  /** A character; a backslash and a character; \u and four characters; or two of those, the first of them the first
      half of a surrogate pair. */
  datatype Piece = Plain(c: char) | Short(c: char) | Uni(x: string) | Two(x: string, y: string) {
    predicate Ok() {
      match this
      case Plain(c) => c != '"' && c != '\\'
      case Short(c) => c != 'u'
      case Uni(x) => |x| == 4
      case Two(x, y) => |x| == |y| == 4 && High(CodeOf(x))
    }

    function Text(): string {
      match this
      case Plain(c) => [c]
      case Short(c) => "\\" + [c]
      case Uni(x) => "\\u" + x
      case Two(x, y) => "\\u" + x + ("\\u" + y)
    }

    /** The character it stands for; nothing for the number 0, for half a pair, and for what is no number. */
    function Value(): string {
      match this
      case Plain(c) => [c]
      case Short(c) =>
        [if c == 'b' then 8 as char else if c == 'f' then 12 as char else if c == 'n' then 10 as char
         else if c == 'r' then 13 as char else if c == 't' then 9 as char else c]
      case Uni(x) => if CodeOf(x) == 0 || High(CodeOf(x)) || Low(CodeOf(x)) then "" else Utf8(CodeOf(x))
      case Two(x, y) => if High(CodeOf(x)) && Low(CodeOf(y)) then Utf8(Pair(CodeOf(x), CodeOf(y))) else ""
    }

    /** The second half of a pair belongs to the first. */
    predicate Alone(next: string) { !(Uni? && High(CodeOf(x)) && "\\u" <= next) }
  }

  /** The number of four hexadecimal digits, or 0. */
  function CodeOf(x: string): nat { if AllHex(x) then HexNumber(x) else 0 }

  /** The character of a surrogate pair (section 2.1 of RFC 2781). */
  function Pair(high: nat, low: nat): nat
    requires High(high) && Low(low)
  {
    0x10000 + (high - 0xD800) * 0x400 + (low - 0xDC00)
  }

  /** What stands behind the pieces of a string, which the end of the text closes as well as a quote. */
  ghost function End(closed: bool, rest: string): string { (if closed then "\"" else "") + rest }

  predicate PiecesOk(ps: seq<Piece>, next: string)
    decreases |ps|
  {
    ps == [] || (ps[0].Ok() && ps[0].Alone(TextOf(ps[1..]) + next) && PiecesOk(ps[1..], next))
  }

  function TextOf(ps: seq<Piece>): string { if ps == [] then "" else ps[0].Text() + TextOf(ps[1..]) }

  function ValueOf(ps: seq<Piece>): string { if ps == [] then "" else ps[0].Value() + ValueOf(ps[1..]) }

  lemma PairIs(high: nat, low: nat)
    requires High(high) && Low(low)
    ensures Pair(high, low) == 0x10000 + high % 0x400 * 0x400 + low % 0x400
  {
  }

  lemma UniParses(x: string, r: string)
    requires |x| == 4 && !(High(CodeOf(x)) && "\\u" <= r)
    ensures UnescapeU("\\u" + x + r) == (Uni(x).Value(), 6)
  {
    hide Utf8, Hex4, HexNumber, AllHex;
    var s := "\\u" + x + r;
    assert s[2..] == x + r && s[6..] == r;
    Hex4Is(x, r);
    assert |s| >= 8 ==> s[6] == r[0] && s[7] == r[1];
  }

  lemma TwoParses(x: string, y: string, r: string)
    requires |x| == |y| == 4 && High(CodeOf(x))
    ensures UnescapeU("\\u" + x + ("\\u" + y) + r) == (Two(x, y).Value(), 12)
  {
    hide Utf8, Hex4, HexNumber, AllHex;
    var s := "\\u" + x + ("\\u" + y) + r;
    assert s[2..] == x + ("\\u" + y + r) && s[8..] == y + r && s[6] == '\\' && s[7] == 'u';
    Hex4Is(x, "\\u" + y + r);
    Hex4Is(y, r);
    if Low(CodeOf(y)) {
      PairIs(CodeOf(x), CodeOf(y));
    }
  }

  /** A piece that starts with a backslash is read as what it stands for. */
  lemma PieceParses(p: Piece, r: string)
    requires p.Ok() && !p.Plain? && p.Alone(r)
    ensures
      var s := p.Text() + r;
      |s| >= 2 && s[0] == '\\' && Unescape(s) == (p.Value(), |p.Text()|) && s[|p.Text()|..] == r
  {
    hide UnescapeU, Utf8, CodeOf;
    match p
    case Short(c) =>
    case Uni(x) => UniParses(x, r);
    case Two(x, y) => TwoParses(x, y, r);
  }

  /** Pieces up to the closing quote, or up to the end of the text, are read as what they stand for. */
  lemma {:induction false} PiecesParse(ps: seq<Piece>, closed: bool, r: string)
    requires PiecesOk(ps, End(closed, r)) && (closed || r == "")
    ensures Unquote(TextOf(ps) + End(closed, r)) == Some((ValueOf(ps), r))
    decreases |ps|
  {
    hide Unescape, Piece.Value, Piece.Text;
    var end := End(closed, r);
    if ps == [] {
      assert "" + end == end;
      assert closed ==> end[1..] == r;
    } else {
      var more := TextOf(ps[1..]) + end;
      assert TextOf(ps) + end == ps[0].Text() + more;
      PiecesParse(ps[1..], closed, r);
      if ps[0].Plain? {
        PlainFirst(ps[0], more);
      } else {
        PieceParses(ps[0], more);
        LaterPiece(ps[0], more);
      }
    }
  }

  lemma PlainFirst(p: Piece, more: string)
    requires p.Plain? && p.Ok()
    ensures Unquote(p.Text() + more) == Prepend(p.Value(), Unquote(more))
  {
    hide Unescape;
    assert ([p.c] + more)[1..] == more;
  }

  lemma LaterPiece(p: Piece, more: string)
    requires
      var s := p.Text() + more;
      |s| >= 2 && s[0] == '\\' && Unescape(s) == (p.Value(), |p.Text()|) && s[|p.Text()|..] == more
    ensures Unquote(p.Text() + more) == Prepend(p.Value(), Unquote(more))
  {
    hide Unescape, Piece.Value, Piece.Text;
  }

  // ----- and back: what is read as a string is made of pieces

  lemma ShortIs(s: string) returns (p: Piece)
    requires |s| >= 2 && s[0] == '\\' && s[1] != 'u'
    ensures p.Ok() && !p.Plain? && |p.Text()| <= |s| && s == p.Text() + s[|p.Text()|..] && p.Alone(s[|p.Text()|..])
  {
    p := Short(s[1]);
  }

  lemma UniIs(s: string) returns (p: Piece)
    requires |s| >= 2 && s[0] == '\\' && s[1] == 'u' && UnescapeU(s).1 <= |s|
    ensures p.Ok() && !p.Plain? && |p.Text()| <= |s| && s == p.Text() + s[|p.Text()|..] && p.Alone(s[|p.Text()|..])
  {
    hide Utf8, Hex4, HexNumber, AllHex;
    var x := s[2..6];
    assert s[2..] == x + s[6..];
    Hex4Is(x, s[6..]);
    if High(CodeOf(x)) && |s| >= 8 && s[6] == '\\' && s[7] == 'u' {
      p := Two(x, s[8..12]);
      assert s == "\\u" + x + ("\\u" + s[8..12]) + s[12..];
    } else {
      p := Uni(x);
      assert s == "\\u" + x + s[6..];
    }
  }

  lemma PieceIs(s: string) returns (p: Piece)
    requires |s| >= 2 && s[0] == '\\' && Unescape(s).1 <= |s|
    ensures p.Ok() && !p.Plain? && |p.Text()| <= |s| && s == p.Text() + s[|p.Text()|..] && p.Alone(s[|p.Text()|..])
    ensures Unescape(s) == (p.Value(), |p.Text()|) && |p.Text()| >= 2
  {
    hide UnescapeU, Piece.Value, Piece.Text, Piece.Alone, Piece.Ok;
    if s[1] == 'u' {
      p := UniIs(s);
    } else {
      p := ShortIs(s);
    }
    PieceParses(p, s[|p.Text()|..]);
    UnescapeMoves(s);
  }

  lemma {:induction false} PiecesAre(s: string) returns (ps: seq<Piece>, closed: bool)
    requires Unquote(s).Some?
    ensures
      var (t, rest) := Unquote(s).value;
      && PiecesOk(ps, End(closed, rest)) && t == ValueOf(ps) && s == TextOf(ps) + End(closed, rest)
      && (!closed ==> rest == "")
    decreases |s|
  {
    hide Unescape, Piece.Value, Piece.Text, Piece.Alone, Piece.Ok;
    if s == "" {
      ps, closed := [], false;
    } else if s[0] == '"' {
      ps, closed := [], true;
      assert s == "\"" + s[1..];
    } else {
      var p, k := Plain(s[0]), 1;
      if s[0] == '\\' {
        p := PieceIs(s);
        k := |p.Text()|;
      } else {
        PlainIs(s);
      }
      assert Unquote(s) == Prepend(p.Value(), Unquote(s[k..]));
      var more;
      more, closed := PiecesAre(s[k..]);
      ps := [p] + more;
      assert ps[1..] == more;
      assert s == p.Text() + s[k..];
      Regroup(p.Text(), TextOf(more), End(closed, Unquote(s).value.1));
    }
  }

  lemma PlainIs(s: string)
    requires s != "" && s[0] != '"' && s[0] != '\\'
    ensures
      var p := Plain(s[0]);
      p.Ok() && s == p.Text() + s[1..] && p.Alone(s[1..]) && p.Value() == [s[0]] && |p.Text()| == 1
  {
  }

  lemma Regroup(a: string, b: string, c: string)
    ensures a + (b + c) == a + b + c
  {
  }
}
