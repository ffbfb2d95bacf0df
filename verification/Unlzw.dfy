/** unlzw.c: decoding with prefix and suffix tables and a stack. */
module Unlzw {
  import opened BitIo
  import opened LzwSpec

  const TABLE: nat := 0x10000
  const OUTBUFSIZ: nat := 16384
  const DIST_BUFSIZE: nat := 0x8000

  /** The bytes in front of the end of the stack. */
  const STACK: nat := 2 * (DIST_BUFSIZE - 1)

  class Tables {
    const prefix: array<nat>
    const suffix: array<Byte>
    const stack: array<Byte>
    const outbuf: array<Byte>
    var outpos: nat
    var written: seq<Byte>

    ghost predicate Layout() {
      prefix.Length == suffix.Length == TABLE && stack.Length == STACK && outbuf.Length == OUTBUFSIZ
      && suffix != stack && suffix != outbuf && stack != outbuf
    }

    /** The tables spell the strings of the dictionary, and prefix links lead to smaller codes. */
    ghost predicate Spells(d: Decoder)
      reads prefix, suffix
    {
      Layout() && Spelling(prefix[..], suffix[..], d)
    }

    ghost predicate OutOk()
      reads this
    {
      Layout() && outpos < OUTBUFSIZ
    }

    /** All output so far. */
    ghost function Out(): seq<Byte>
      reads this, outbuf
    {
      if outpos <= outbuf.Length then written + outbuf[..outpos] else []
    }

    /** Writes what is left. */
    method Flush() returns (out: seq<Byte>)
      requires OutOk()
      ensures out == Out()
    {
      out := written + outbuf[..outpos];
    }

    constructor ()
      ensures Layout() && outpos == 0 && written == []
      ensures fresh(prefix) && fresh(suffix) && fresh(stack) && fresh(outbuf)
      ensures Spells(Begin(true)) && Spells(Begin(false))
    {
      prefix := new nat[TABLE];
      suffix := new Byte[TABLE](i => if i < 256 then i else 0);
      stack := new Byte[STACK];
      outbuf := new Byte[OUTBUFSIZ];
      outpos, written := 0, [];
    }

    lemma Ready()
      requires Layout() && outpos == 0 && written == []
      ensures OutOk() && Out() == []
    {
    }

    /** Unwinds the string of a code onto the stack, from its last byte to its first. */
    method Unwind(code0: nat, sp0: nat, ghost d: Decoder) returns (sp: nat, finchar: Byte)
      requires Spells(d) && d.Has(code0) && |d.Str(code0)| <= sp0 <= STACK
      modifies stack
      ensures sp == sp0 - |d.Str(code0)| && stack[sp..sp0] == d.Str(code0) && stack[sp0..] == old(stack[sp0..])
      ensures d.Str(code0) != [] && finchar == d.Str(code0)[0]
    {
      hide Spelling, Decoder.Str, Decoder.Has;
      var code := code0;
      sp := sp0;
      ghost var done: seq<Byte> := [];
      ghost var p, s, above := prefix[..], suffix[..], stack[sp0..];
      while code >= 256
        invariant d.Has(code) && sp + |done| == sp0 && d.Str(code0) == d.Str(code) + done
        invariant stack[sp..sp0] == done && stack[sp0..] == above && suffix[..] == s && prefix[..] == p
        decreases code
      {
        SpelledAt(p, s, d, code, done);
        Push(suffix[code], sp, sp0, done, above);
        sp, done := sp - 1, [suffix[code]] + done;
        code := prefix[code];
      }
      LiteralAt(p, s, d, code);
      finchar := suffix[code];
      Push(finchar, sp, sp0, done, above);
      sp := sp - 1;
    }

    /** *--stackp = b. */
    method Push(b: Byte, sp: nat, ghost sp0: nat, ghost done: seq<Byte>, ghost above: seq<Byte>)
      requires Layout() && 0 < sp <= sp0 <= STACK && stack[sp..sp0] == done && stack[sp0..] == above
      modifies stack
      ensures stack[sp - 1..sp0] == [b] + done && stack[sp0..] == above
    {
      stack[sp - 1] := b;
      Pushed(stack[..], sp - 1, sp0, [b] + done);
    }

    /** Puts out the stack from sp on, in pieces if the output buffer fills up. */
    method PutOut(sp0: nat)
      requires OutOk() && sp0 <= STACK
      modifies this, outbuf
      ensures OutOk() && Out() == old(Out()) + stack[sp0..]
    {
      hide Tables.Out;
      ghost var before := Out();
      var i := STACK - sp0;
      if outpos + i >= OUTBUFSIZ {
        var sp := sp0;
        assert before + stack[sp0..sp0] == before;
        while true
          invariant OutOk() && sp0 <= sp <= STACK && i == STACK - sp && Out() == before + stack[sp0..sp]
          decreases STACK - sp, outpos
        {
          if i > OUTBUFSIZ - outpos {
            i := OUTBUFSIZ - outpos;
          }
          PutPiece(sp, i);
          NextPiece(before, stack[..], sp0, sp, sp + i);
          sp := sp + i;
          i := STACK - sp;
          if i == 0 {
            break;
          }
        }
      } else {
        PutPiece(sp0, i);
      }
      assert stack[sp0..STACK] == stack[sp0..];
    }

    /** Appends a piece to the output buffer, and writes the buffer if it is full. */
    method PutPiece(sp: nat, i: nat)
      requires OutOk() && sp + i <= STACK && outpos + i <= OUTBUFSIZ
      modifies this, outbuf
      ensures OutOk() && Out() == old(Out()) + stack[sp..sp + i]
    {
      ghost var before := outbuf[..];
      forall j | outpos <= j < outpos + i {
        outbuf[j] := stack[sp + (j - outpos)];
      }
      Copied(before, outbuf[..], outpos, stack[sp..sp + i]);
      assert outbuf[..outpos + i] == outbuf[..][..outpos + i];
      assert before[..outpos] == old(outbuf[..outpos]);
      outpos := outpos + i;
      if outpos >= OUTBUFSIZ {
        written := written + outbuf[..outpos];
        outpos := 0;
      }
    }

    /** The string of a code, or the last string and its first byte once more for the code still to be made. */
    method PutString(l: Locals, code: nat, block: bool, ghost max: nat, ghost d: Decoder) returns (finchar: Byte)
      requires OutOk() && Spells(d) && Sane(d, block, max) && Tied(l, d) && max <= TABLE
      requires code <= d.free && (code < d.free ==> d.Has(code)) && (code == d.free ==> d.last.After? && d.last.made)
      modifies this, stack, outbuf
      ensures OutOk() && Spells(d)
      ensures
        var s := if code == d.free then d.last.s + [d.last.s[0]] else d.Str(code);
        && s != [] && Out() == old(Out()) + s && finchar == s[0]
    {
      hide Sane, Spelling;
      StringsFit(d, block, max, if code < d.free then code else l.oldcode);
      var sp, c := STACK, code;
      if code >= l.freeEnt {
        sp := sp - 1;
        stack[sp] := l.finchar;
        c := l.oldcode;
      }
      ghost var top := sp;
      sp, finchar := Unwind(c, sp, d);
      StackParts(stack[..], sp, top);
      PutOut(sp);
    }

    /** Makes the new entry, if there is room for it. */
    method AddEntry(l: Locals, finchar: Byte, block: bool, max: nat, ghost d: Decoder, ghost d': Decoder)
      returns (freeEnt: nat)
      requires Spells(d) && Sane(d, block, max) && Tied(l, d) && max <= TABLE && !d.last.Start?
      requires d.last.After? ==> d'.dict == if d.free < max then d.dict[d.free := d.last.s + [finchar]] else d.dict
      requires d.last.Cleared? ==> d'.dict == d.dict == map[]
      modifies prefix, suffix
      ensures Spells(d') && freeEnt == if d.free < max then d.free + 1 else d.free
    {
      freeEnt := l.freeEnt;
      if freeEnt < max {
        ghost var p, s := prefix[..], suffix[..];
        var oldcode: nat := l.oldcode;
        prefix[freeEnt] := oldcode;
        suffix[freeEnt] := finchar;
        assert prefix[..] == p[freeEnt := oldcode] && suffix[..] == s[freeEnt := finchar];
        if d.last.After? {
          SpellingExtended(p, s, d, l.oldcode, finchar, d');
        } else {
          SpellingCleared(p, s, d, l.oldcode, finchar, d');
        }
        freeEnt := freeEnt + 1;
      }
    }

    /** The body of the loop, for one code. */
    method DecodeCode(l: Locals, code: nat, block: bool, max: nat, ghost d: Decoder) returns (res: Status, l': Locals)
      requires OutOk() && Spells(d) && Sane(d, block, max) && Tied(l, d) && Out() == d.out && max <= TABLE
      requires d.last.Start? ==> outpos == 0
      modifies this, prefix, suffix, stack, outbuf
      ensures OutOk()
      ensures match Decode(d, block, max, code)
        case Next(d') =>
          && res == Good && Spells(d') && Sane(d', block, max) && Tied(l', d') && Out() == d'.out
          && !d'.last.Start?
        case Corrupt => res == Wrong
        case Stale => res == Unmade
    {
      hide Sane, Spelling;
      DecodeSane(d, block, max, code);
      SaneHas(d, block, max, code);
      l' := l;
      if l.oldcode == -1 {
        if code >= 256 {
          return Wrong, l';
        }
        SameSpelling(prefix[..], suffix[..], d, Decode(d, block, max, code).d);
        PutByte(code);
        return Good, Locals(code, code, l.freeEnt);
      }
      if code == CLEAR && block {
        NoSpelling(prefix[..], suffix[..], d, Clear(d));
        return Good, l.(freeEnt := FIRST - 1);
      }
      if code >= l.freeEnt {
        if code > l.freeEnt {
          return Wrong, l';
        }
        if l.oldcode >= l.freeEnt {
          return Unmade, l';
        }
      }
      var finchar := PutString(l, code, block, max, d);
      var freeEnt := AddEntry(l, finchar, block, max, d, Decode(d, block, max, code).d);
      res, l' := Good, Locals(code, finchar, freeEnt);
    }

    method PutByte(b: Byte)
      requires OutOk() && outpos == 0
      modifies this, outbuf
      ensures OutOk() && Out() == old(Out()) + [b]
    {
      outbuf[outpos] := b;
      assert outbuf[..outpos + 1] == outbuf[..outpos] + [b];
      outpos := outpos + 1;
    }
  }

  ghost predicate Spelling(prefix: seq<nat>, suffix: seq<Byte>, d: Decoder) {
    && |prefix| == |suffix| == TABLE && (forall c :: 0 <= c < 256 ==> suffix[c] == c)
    && (forall c :: c in d.dict ==>
          && 256 <= c < TABLE && prefix[c] < c && d.Has(prefix[c])
          && d.dict[c] == d.Str(prefix[c]) + [suffix[c]])
  }

  /** A new entry for the string of oldcode and one more byte. */
  lemma SpellingExtended(prefix: seq<nat>, suffix: seq<Byte>, d: Decoder, oldcode: nat, b: Byte, d': Decoder)
    requires Spelling(prefix, suffix, d) && 256 <= d.free < TABLE && (forall c :: c in d.dict ==> c < d.free)
    requires d.Has(oldcode) && d'.dict == d.dict[d.free := d.Str(oldcode) + [b]]
    ensures Spelling(prefix[d.free := oldcode], suffix[d.free := b], d')
  {
  }

  /** The entry at 256 that follows a CLEAR is no entry of the dictionary. */
  lemma SpellingCleared(prefix: seq<nat>, suffix: seq<Byte>, d: Decoder, p: nat, b: Byte, d': Decoder)
    requires Spelling(prefix, suffix, d) && d.free == 256 && d.dict == d'.dict == map[]
    ensures Spelling(prefix[256 := p], suffix[256 := b], d')
  {
  }

  lemma SpelledAt(prefix: seq<nat>, suffix: seq<Byte>, d: Decoder, c: nat, done: seq<Byte>)
    requires Spelling(prefix, suffix, d) && d.Has(c) && c >= 256
    ensures c < TABLE == |prefix| == |suffix| && prefix[c] < c && d.Has(prefix[c]) && |d.Str(c)| > 0
    ensures d.Str(c) + done == d.Str(prefix[c]) + ([suffix[c]] + done)
  {
    assert d.Str(c) == d.Str(prefix[c]) + [suffix[c]];
  }

  lemma LiteralAt(prefix: seq<nat>, suffix: seq<Byte>, d: Decoder, c: nat)
    requires Spelling(prefix, suffix, d) && c < 256
    ensures |suffix| == TABLE && suffix[c] == c && d.Has(c) && d.Str(c) == [suffix[c]]
  {
  }

  /** A byte pushed below the bytes done. */
  lemma Pushed(stack: seq<Byte>, sp: nat, sp0: nat, done: seq<Byte>)
    requires sp < sp0 <= |stack| && |done| == sp0 - sp && done[0] == stack[sp] && stack[sp + 1..sp0] == done[1..]
    ensures stack[sp..sp0] == done
  {
  }

  lemma Copied(before: seq<Byte>, after: seq<Byte>, at: nat, piece: seq<Byte>)
    requires |before| == |after| && at + |piece| <= |after|
    requires forall j :: 0 <= j < at ==> after[j] == before[j]
    requires forall j :: at <= j < at + |piece| ==> after[j] == piece[j - at]
    ensures after[..at + |piece|] == before[..at] + piece
  {
  }

  lemma NextPiece(before: seq<Byte>, stack: seq<Byte>, i: nat, j: nat, k: nat)
    requires i <= j <= k <= |stack|
    ensures (before + stack[i..j]) + stack[j..k] == before + stack[i..k]
  {
  }

  lemma StackParts(stack: seq<Byte>, sp: nat, top: nat)
    requires sp <= top <= |stack|
    ensures stack[sp..] == stack[sp..top] + stack[top..] && (top + 1 == |stack| ==> stack[top..] == [stack[top]])
  {
  }

  lemma SameSpelling(prefix: seq<nat>, suffix: seq<Byte>, d: Decoder, d': Decoder)
    requires Spelling(prefix, suffix, d) && d'.dict == d.dict
    ensures Spelling(prefix, suffix, d')
  {
  }

  lemma NoSpelling(prefix: seq<nat>, suffix: seq<Byte>, d: Decoder, d': Decoder)
    requires Spelling(prefix, suffix, d) && d'.dict == map[]
    ensures Spelling(prefix, suffix, d')
  {
  }

  datatype Status = Good | Wrong | Unmade

  /** oldcode, finchar and free_ent. */
  datatype Locals = Locals(oldcode: int, finchar: Byte, freeEnt: nat)

  ghost predicate Tied(l: Locals, d: Decoder) {
    && l.freeEnt == d.free && l.oldcode >= -1
    && match d.last
       case Start => l.oldcode == -1
       case Cleared => l.oldcode >= 0
       case After(w, made) =>
         && l.oldcode >= 0 && w != [] && l.finchar == w[0] && (made <==> l.oldcode < d.free)
         && (made ==> d.Has(l.oldcode) && d.Str(l.oldcode) == w)
  }

  /** The stack is large enough for every string, and one byte more. */
  lemma StringsFit(d: Decoder, block: bool, max: nat, c: nat)
    requires Sane(d, block, max) && max <= TABLE && d.Has(c)
    ensures |d.Str(c)| < STACK
  {
  }

  lemma SaneHas(d: Decoder, block: bool, max: nat, c: nat)
    requires Sane(d, block, max)
    ensures d.last.After? && c < d.free && !(block && c == CLEAR) ==> d.Has(c) && d.Str(c) != []
    ensures d.last.Cleared? ==> block && d.free == 256 && d.dict == map[]
    ensures d.last.Start? ==> d.dict == map[]
  {
  }

  // ----- reading codes

  /** posbits rounded up to a whole group, as the expression in unlzw does it. */
  method NextGroup(posbits: nat, nBits: nat) returns (p: nat)
    requires nBits > 0
    ensures p == RoundUp(posbits, 8 * nBits) && p % 8 == 0
  {
    Division(posbits + 8 * nBits - 1, 8 * nBits);
    p := (posbits - 1) + (8 * nBits - (posbits - 1 + 8 * nBits) % (8 * nBits));
    EightFold(nBits, (posbits + 8 * nBits - 1) / (8 * nBits));
  }

  /** The byte behind the current group of codes, where codes of another width start. */
  method NextRun(start: nat, posbits: nat, nBits: nat, ghost width: nat) returns (start': nat)
    requires 1 <= nBits <= BITS
    ensures start <= start' && posbits <= 8 * (start' - start)
    ensures Cursor(8 * start + posbits, 8 * start, nBits).NewRun(width) == Cursor(8 * start', 8 * start', width)
  {
    hide RoundUp;
    var p := NextGroup(posbits, nBits);
    start' := start + p / 8;
  }

  lemma EightFold(n: nat, q: nat)
    ensures (8 * n) * q == 8 * (n * q) && (8 * (n * q)) % 8 == 0
  {
    assert (8 * n) * q == 8 * (n * q);
    Whole(n * q);
  }

  lemma Whole(a: nat)
    ensures (8 * a) % 8 == 0 && (8 * a) / 8 == a
  {
  }

  function ByteAt(input: seq<Byte>, i: nat): Byte { if i < |input| then input[i] else 0 }

  /** The input macro: three bytes, shifted and masked. */
  method InputCode(input: seq<Byte>, o: nat, n: nat) returns (code: nat)
    requires n <= BITS && o + n <= 8 * |input|
    ensures code == FromBits(ByteBits(input)[o..o + n]) && code < Pow2(n)
  {
    hide Or, And, Shr, ByteBits, FromBits, Pow2, ToBits;
    var i := o / 8;
    var p0: nat, p1: nat, p2: nat := ByteAt(input, i), ByteAt(input, i + 1), ByteAt(input, i + 2);
    var x := Or(Or(p0, 256 * p1), 0x10000 * p2);
    code := And(Shr(x, o % 8), Pow2(n) - 1);
    ThreeBytes(p0, p1, p2);
    Cut24(x, o % 8, n);
    SameBits(input, i, [p0, p1, p2], o % 8, n);
  }

  lemma ThreeBytes(p0: nat, p1: nat, p2: nat)
    requires p0 < 256 && p1 < 256 && p2 < 256
    ensures
      var x := Or(Or(p0, 256 * p1), 0x10000 * p2);
      x < Pow2(24) && ToBits(x, 24) == ByteBits([p0, p1, p2])
  {
    hide Or, ToBits, Pow2;
    Pow2Values();
    OrAbove(p0, 8, p1);
    ToBitsAppend(p0, 8, p1, 8);
    var y := p0 + 256 * p1;
    OrAbove(y, 16, p2);
    ToBitsAppend(y, 16, p2, 8);
    BytesOfThree(p0, p1, p2);
  }

  lemma BytesOfThree(p0: Byte, p1: Byte, p2: Byte)
    ensures ByteBits([p0, p1, p2]) == ToBits(p0, 8) + ToBits(p1, 8) + ToBits(p2, 8)
  {
    hide ToBits;
    assert [p0, p1, p2][1..] == [p1, p2] && [p1, p2][1..] == [p2] && [p2][1..] == [];
    assert ByteBits([p2]) == ToBits(p2, 8) + [] == ToBits(p2, 8);
    Associative(ToBits(p0, 8), ToBits(p1, 8), ToBits(p2, 8));
  }

  lemma Cut24(x: nat, k: nat, n: nat)
    requires x < Pow2(24) && k < 8 && n <= 16
    ensures And(Shr(x, k), Pow2(n) - 1) == FromBits(ToBits(x, 24)[k..k + n])
  {
    hide Or, And, Shr, FromBits, Pow2, ToBits;
    AndMask(Shr(x, k), n);
    ShrBits(x, k, 24);
    ToBitsPrefix(Shr(x, k), n, 24 - k);
    assert ToBits(x, 24)[k..][..n] == ToBits(x, 24)[k..k + n];
  }

  lemma SameBits(input: seq<Byte>, i: nat, bytes: seq<Byte>, k: nat, n: nat)
    requires bytes == [ByteAt(input, i), ByteAt(input, i + 1), ByteAt(input, i + 2)] && k < 8 && n <= 16
    requires 8 * i + k + n <= 8 * |input|
    ensures ByteBits(bytes)[k..k + n] == ByteBits(input)[8 * i + k..8 * i + k + n]
  {
    hide ByteBits, ByteAt;
    var m := if i + 3 <= |input| then 3 else |input| - i;
    FirstBytes(input, i, bytes, m);
    Pieces(input, i, i + m);
    Pieces(bytes, 0, m);
    PartBits(input[..i], input[i..i + m], input[i + m..], bytes[m..], k, n);
  }

  lemma PartBits(a: seq<Byte>, b: seq<Byte>, c: seq<Byte>, d: seq<Byte>, k: nat, n: nat)
    requires k + n <= 8 * |b|
    ensures ByteBits(a + (b + c))[8 * |a| + k..8 * |a| + k + n] == ByteBits(b + d)[k..k + n]
  {
    hide ByteBits;
    ThreeBits(a, b, c);
    ByteBitsAppend(b, d);
    MiddleBits(ByteBits(a), ByteBits(b), ByteBits(c), ByteBits(d), 8 * |a|, k, n);
  }

  lemma FirstBytes(input: seq<Byte>, i: nat, bytes: seq<Byte>, m: nat)
    requires bytes == [ByteAt(input, i), ByteAt(input, i + 1), ByteAt(input, i + 2)] && m <= 3 && i + m <= |input|
    ensures bytes[0..m] == input[i..i + m]
  {
  }

  lemma Pieces<T>(s: seq<T>, i: nat, j: nat)
    requires i <= j <= |s|
    ensures s == s[..i] + (s[i..j] + s[j..]) && (i == 0 ==> s == s[i..j] + s[j..])
  {
  }

  lemma ThreeBits(a: seq<Byte>, b: seq<Byte>, c: seq<Byte>)
    ensures ByteBits(a + (b + c)) == ByteBits(a) + (ByteBits(b) + ByteBits(c))
  {
    hide ByteBits;
    ByteBitsAppend(a, b + c);
    ByteBitsAppend(b, c);
  }

  lemma MiddleBits(a: seq<bool>, b: seq<bool>, c: seq<bool>, d: seq<bool>, len: nat, k: nat, n: nat)
    requires |a| == len && k + n <= |b|
    ensures (a + (b + c))[len + k..len + k + n] == (b + d)[k..k + n]
  {
  }

  // ----- the whole function

  datatype Outcome = Done | TooManyBits | CorruptInput | StaleEntry

  /** Wherever codes get wider, there is still a wider code. */
  lemma WidthOk(d: Decoder, block: bool, maxbits: nat, width: nat)
    requires Sane(d, block, Pow2(maxbits)) && maxbits <= BITS && INIT_BITS <= width && (width <= maxbits || width <= 10)
    ensures d.free > MaxCode(width, maxbits) ==> width < BITS && (width + 1 <= maxbits || width + 1 <= 10)
  {
    hide Pow2;
    TenBits();
    if maxbits > 9 {
      FreeBound(d, block, maxbits);
    } else {
      Pow2Grows(maxbits, 9);
    }
  }

  lemma TiedFree(l: Locals, d: Decoder)
    requires Tied(l, d)
    ensures l.freeEnt == d.free
  {
  }

  lemma TiedAtStart(block: bool)
    ensures Tied(Locals(-1, 0, if block then FIRST else 256), Begin(block))
  {
  }

  lemma BitsBound(maxbits: nat)
    requires maxbits <= BITS
    ensures Pow2(maxbits) <= TABLE && Pow2(INIT_BITS) - 1 == MaxCode(INIT_BITS, maxbits)
  {
    hide Pow2;
    Pow2Values();
    Pow2Grows(maxbits, 16);
  }

  lemma ClearedBy(d: Decoder, block: bool, max: nat, code: nat)
    ensures Decode(d, block, max, code).Next? ==>
      (Decode(d, block, max, code).d.last.Cleared? <==> block && code == CLEAR)
  {
  }

  /** unlzw: the header byte gives the number of bits and the mode. */
  method Unlzw(header: Byte, data: seq<Byte>) returns (res: Outcome, out: seq<Byte>)
    ensures header % 32 > BITS ==> res == TooManyBits && out == []
    ensures header % 32 <= BITS ==>
      match Decompress(ByteBits(data), Cursor(0, 0, INIT_BITS), Begin(header >= 128), header >= 128, header % 32)
      case Next(d) => res == Done && out == d.out
      case Corrupt => res == CorruptInput
      case Stale => res == StaleEntry
    ensures INIT_BITS < header % 32 ==> res != StaleEntry
  {
    hide Sane, ByteBits, FromBits, Decode, Decompress, Tables.OutOk, Tables.Spells, Tables.Out, Pow2, Tied,
         Cursor.NewRun;
    var maxbits, block := header % 32, header >= 128;
    if maxbits > BITS {
      return TooManyBits, [];
    }
    var maxmaxcode := Pow2(maxbits);
    var t := new Tables();
    t.Ready();
    TiedAtStart(block);
    var l := Locals(-1, 0, if block then FIRST else 256);
    var start: nat, posbits: nat, nBits: nat := 0, 0, INIT_BITS;
    var maxcode: nat := Pow2(nBits) - 1;
    ghost var bits, d := ByteBits(data), Begin(block);
    ghost var all := Decompress(bits, Cursor(0, 0, INIT_BITS), d, block, maxbits);
    BeginSane(block, maxmaxcode);
    BitsBound(maxbits);
    if maxbits > INIT_BITS {
      DecompressDecodes(bits, Cursor(0, 0, INIT_BITS), d, block, maxbits);
    }
    while 8 * start + posbits + nBits <= 8 * |data|
      invariant t.OutOk() && t.Spells(d) && Sane(d, block, maxmaxcode) && Tied(l, d) && t.Out() == d.out
      invariant d.last.Start? ==> t.outpos == 0
      invariant INIT_BITS <= nBits <= BITS && (nBits <= maxbits || nBits <= 10) && maxcode == MaxCode(nBits, maxbits)
      invariant Decompress(bits, Cursor(8 * start + posbits, 8 * start, nBits), d, block, maxbits) == all
      decreases 8 * |data| - (8 * start + posbits), BITS - nBits
    {
      ghost var c := Cursor(8 * start + posbits, 8 * start, nBits);
      TiedFree(l, d);
      WidthOk(d, block, maxbits, nBits);
      Unfold(bits, c, d, block, maxbits);
      if l.freeEnt > maxcode {
        start := NextRun(start, posbits, nBits, nBits + 1);
        posbits, nBits := 0, nBits + 1;
        maxcode := if nBits == maxbits then maxmaxcode else Pow2(nBits) - 1;
      } else {
        var code := InputCode(data, 8 * start + posbits, nBits);
        posbits := posbits + nBits;
        var status;
        status, l := t.DecodeCode(l, code, block, maxmaxcode, d);
        if status != Good {
          out := t.Flush();
          return if status == Wrong then CorruptInput else StaleEntry, out;
        }
        ClearedBy(d, block, maxmaxcode, code);
        if code == CLEAR && block {
          start := NextRun(start, posbits, nBits, INIT_BITS);
          posbits, nBits := 0, INIT_BITS;
          maxcode := Pow2(nBits) - 1;
        }
        d := Decode(d, block, maxmaxcode, code).d;
      }
    }
    AtEnd(bits, Cursor(8 * start + posbits, 8 * start, nBits), d, block, maxbits);
    out := t.Flush();
    res := Done;
  }
}
