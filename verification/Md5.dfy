/** The incremental interface of md5.c, for any block function. */
module Md5 {
  import opened BitIo

  const TWO32: nat := 0x1_0000_0000

  type Word = x: nat | x < TWO32

  function U32(x: nat): Word { x % TWO32 }

  /** MD5Transform: the state and a block of 64 bytes give the next state. */
  type Transform = (seq<Word>, seq<Byte>) -> seq<Word>

  const INITIAL: seq<Word> := [0x67452301, 0xEFCDAB89, 0x98BADCFE, 0x10325476]

  // ----- the reference definition

  /** The whole blocks of a message, one after the other. */
  function Blocks(f: Transform, st: seq<Word>, m: seq<Byte>): seq<Word>
    decreases |m|
  {
    if |m| < 64 then st else Blocks(f, f(st, m[..64]), m[64..])
  }

  /** One 1-bit and zeros, up to 8 bytes before the end of a block (section 3.1 of RFC 1321). */
  function PadLength(n: nat): nat { if n % 64 < 56 then 56 - n % 64 else 120 - n % 64 }

  /** The PADDING array. */
  const PADDING: seq<Byte> := [0x80] + seq(63, _ => 0)

  lemma PaddingPrefix(n: nat)
    requires 0 < n <= 64
    ensures PADDING[..n] == Padding(n)
  {
  }

  function Padding(n: nat): (s: seq<Byte>)
    requires n > 0
    ensures |s| == n
  {
    [0x80] + seq(n - 1, _ => 0)
  }

  /** The bytes of a word, lowest first. */
  function WordBytes(x: Word): (s: seq<Byte>)
    ensures |s| == 4
  {
    [x % 256, x / 0x100 % 256, x / 0x1_0000 % 256, x / 0x100_0000 % 256]
  }

  function WordsBytes(ws: seq<Word>): (s: seq<Byte>)
    ensures |s| == 4 * |ws|
  {
    if ws == [] then [] else WordsBytes(ws[..|ws| - 1]) + WordBytes(ws[|ws| - 1])
  }

  /** The number of bits, as two words (section 3.2 of RFC 1321). */
  function BitCount(n: nat): seq<Word> { [U32(8 * n), U32(8 * n / TWO32)] }

  /** The message with its padding and its length. */
  function Padded(m: seq<Byte>): seq<Byte> {
    m + Padding(PadLength(|m|)) + WordsBytes(BitCount(|m|))
  }

  function Digest(f: Transform, m: seq<Byte>): seq<Word> { Blocks(f, INITIAL, Padded(m)) }

  lemma {:induction false} BlocksAppend(f: Transform, st: seq<Word>, a: seq<Byte>, b: seq<Byte>)
    requires |a| % 64 == 0
    ensures Blocks(f, st, a + b) == Blocks(f, Blocks(f, st, a), b)
    decreases |a|
  {
    if a == [] {
      assert a + b == b;
    } else {
      assert (a + b)[..64] == a[..64] && (a + b)[64..] == a[64..] + b;
      BlocksAppend(f, f(st, a[..64]), a[64..], b);
    }
  }

  lemma Short(f: Transform, st: seq<Word>, m: seq<Byte>)
    requires |m| < 64
    ensures Blocks(f, st, m) == st
  {
  }

  /** A padded message is a number of whole blocks. */
  lemma PaddedWhole(m: seq<Byte>)
    ensures |Padded(m)| % 64 == 0 && 1 <= PadLength(|m|) <= 64
  {
    hide Padding, WordsBytes, U32;
    var q := |m| / 64;
    assert |Padded(m)| == 64 * q + (|m| % 64 + PadLength(|m|) + 8);
    Multiple(if |m| % 64 < 56 then q + 1 else q + 2);
  }

  lemma Multiple(k: nat)
    ensures 64 * k % 64 == 0
  {
  }

  /** The first state, by its bytes (section 3.3 of RFC 1321): 01 23 45 67 89 AB CD EF FE DC BA 98 76 54 32 10. */
  lemma InitialBytes()
    ensures WordsBytes(INITIAL) ==
      [0x01, 0x23, 0x45, 0x67, 0x89, 0xAB, 0xCD, 0xEF, 0xFE, 0xDC, 0xBA, 0x98, 0x76, 0x54, 0x32, 0x10]
  {
    hide WordBytes;
    var a, b, c, d: Word := 0x67452301, 0xEFCDAB89, 0x98BADCFE, 0x10325476;
    FourWords(a, b, c, d);
    assert WordBytes(a) == [0x01, 0x23, 0x45, 0x67] by { TheBytes(0x01, 0x23, 0x45, 0x67); }
    assert WordBytes(b) == [0x89, 0xAB, 0xCD, 0xEF] by { TheBytes(0x89, 0xAB, 0xCD, 0xEF); }
    assert WordBytes(c) == [0xFE, 0xDC, 0xBA, 0x98] by { TheBytes(0xFE, 0xDC, 0xBA, 0x98); }
    assert WordBytes(d) == [0x76, 0x54, 0x32, 0x10] by { TheBytes(0x76, 0x54, 0x32, 0x10); }
  }

  lemma TheBytes(a: Byte, b: Byte, c: Byte, d: Byte)
    ensures
      var x: nat := a + 0x100 * b + 0x1_0000 * c + 0x100_0000 * d;
      x < TWO32 && WordBytes(x) == [a, b, c, d]
  {
    var x: nat := a + 0x100 * b + 0x1_0000 * c + 0x100_0000 * d;
    LowByte(b + 0x100 * c + 0x1_0000 * d, a);
    LowByte(c + 0x100 * d, b);
    LowByte(d, c);
    assert x / 0x100 / 0x100 == x / 0x1_0000 && x / 0x1_0000 / 0x100 == x / 0x100_0000;
  }

  lemma LowByte(y: nat, a: Byte)
    ensures (0x100 * y + a) % 256 == a && (0x100 * y + a) / 0x100 == y
  {
  }

  lemma FourWords(a: Word, b: Word, c: Word, d: Word)
    ensures WordsBytes([a, b, c, d]) == WordBytes(a) + WordBytes(b) + WordBytes(c) + WordBytes(d)
  {
    hide WordBytes;
    assert [a, b, c, d][..3] == [a, b, c] && [a, b, c][..2] == [a, b] && [a, b][..1] == [a] && [a][..0] == [];
    assert WordsBytes([a]) == [] + WordBytes(a);
    assert WordsBytes([a, b]) == WordsBytes([a]) + WordBytes(b);
    assert WordsBytes([a, b, c]) == WordsBytes([a, b]) + WordBytes(c);
  }

  /** The padding is a 1-bit and zero bits, in bytes with the highest bit first, from 1 to 512 bits up to 448 modulo 512
      (section 3.1 of RFC 1321). */
  lemma PaddingBits(n: nat)
    ensures 1 <= PadLength(n) <= 64 && 8 * (n + PadLength(n)) % 512 == 448
    ensures MsbBits(Padding(PadLength(n))[0], 8) == [true] + Zeros(7)
    ensures forall i :: 1 <= i < PadLength(n) ==> Padding(PadLength(n))[i] == 0
  {
    FirstPadByte();
    var k := n % 64 + PadLength(n);
    assert 8 * (n + PadLength(n)) == 512 * (n / 64) + 8 * k;
  }

  lemma FirstPadByte()
    ensures MsbBits(0x80, 8) == [true] + Zeros(7)
  {
    assert MsbBits(1, 1) == [true] + Zeros(0);
    OneZeroMore(1, 0);
    OneZeroMore(2, 1);
    OneZeroMore(4, 2);
    OneZeroMore(8, 3);
    OneZeroMore(0x10, 4);
    OneZeroMore(0x20, 5);
    OneZeroMore(0x40, 6);
  }

  lemma OneZeroMore(v: nat, n: nat)
    requires MsbBits(v, n + 1) == [true] + Zeros(n)
    ensures MsbBits(2 * v, n + 2) == [true] + Zeros(n + 1)
  {
    assert MsbBits(2 * v, n + 2) == MsbBits(v, n + 1) + [false];
    ZeroLast(n);
  }

  lemma {:induction false} ZeroLast(n: nat)
    ensures Zeros(n) + [false] == Zeros(n + 1)
  {
    if n > 0 {
      ZeroLast(n - 1);
      assert Zeros(n) + [false] == [false] + (Zeros(n - 1) + [false]);
    }
  }

  /** The two words are the number of bits modulo 2^64, lower word first (section 3.2 of RFC 1321). */
  lemma BitCountIs(n: nat)
    ensures BitCount(n)[0] + TWO32 * BitCount(n)[1] == 8 * n % (TWO32 * TWO32)
  {
    var x := 8 * n;
    assert x == TWO32 * (x / TWO32) + x % TWO32;
  }

  // ----- encoding

  /** MD5Encode. */
  method Encode(input: seq<Word>) returns (output: seq<Byte>)
    ensures output == WordsBytes(input)
  {
    output := [];
    var i := 0;
    while i < |input|
      invariant 0 <= i <= |input| && output == WordsBytes(input[..i])
    {
      var x := input[i];
      assert input[..i + 1][..i] == input[..i];
      output := output + [x % 256, x / 0x100 % 256, x / 0x1_0000 % 256, x / 0x100_0000 % 256];
      i := i + 1;
    }
    assert input[..i] == input;
  }

  function Join(a: Byte, b: Byte, c: Byte, d: Byte): Word {
    (a as nat) + 0x100 * (b as nat) + 0x1_0000 * (c as nat) + 0x100_0000 * (d as nat)
  }

  function BytesWords(bytes: seq<Byte>): (ws: seq<Word>)
    requires |bytes| % 4 == 0
    ensures 4 * |ws| == |bytes|
  {
    if bytes == [] then []
    else
      var n := |bytes| - 4;
      BytesWords(bytes[..n]) + [Join(bytes[n], bytes[n + 1], bytes[n + 2], bytes[n + 3])]
  }

  lemma BytesWordsStep(bytes: seq<Byte>, a: Byte, b: Byte, c: Byte, d: Byte)
    requires |bytes| % 4 == 0
    ensures |bytes + [a, b, c, d]| % 4 == 0
    ensures BytesWords(bytes + [a, b, c, d]) == BytesWords(bytes) + [Join(a, b, c, d)]
  {
    hide Join;
    var all := bytes + [a, b, c, d];
    assert all[..|all| - 4] == bytes;
  }

  /** MD5Decode. */
  method Decode(input: seq<Byte>) returns (output: seq<Word>)
    requires |input| % 4 == 0
    ensures output == BytesWords(input)
  {
    hide BytesWords, Join;
    output := [];
    var j := 0;
    assert BytesWords(input[..0]) == [];
    while j < |input|
      invariant 0 <= j <= |input| && j % 4 == 0 && output == BytesWords(input[..j])
    {
      BytesWordsStep(input[..j], input[j], input[j + 1], input[j + 2], input[j + 3]);
      assert input[..j + 4] == input[..j] + [input[j], input[j + 1], input[j + 2], input[j + 3]];
      output := output + [Join(input[j], input[j + 1], input[j + 2], input[j + 3])];
      j := j + 4;
    }
    assert input[..j] == input;
  }

  /** Decoding undoes encoding. */
  lemma {:induction false} DecodeEncode(ws: seq<Word>)
    ensures BytesWords(WordsBytes(ws)) == ws
  {
    hide BytesWords, Join, WordBytes;
    if ws == [] {
      assert BytesWords([]) == [];
    } else {
      var n := |ws| - 1;
      var b := WordBytes(ws[n]);
      DecodeEncode(ws[..n]);
      JoinBytes(ws[n]);
      BytesWordsStep(WordsBytes(ws[..n]), b[0], b[1], b[2], b[3]);
      assert b == [b[0], b[1], b[2], b[3]];
    }
  }

  lemma JoinBytes(x: Word)
    ensures var b := WordBytes(x); Join(b[0], b[1], b[2], b[3]) == x
  {
    var q := x / 0x100;
    var q' := q / 0x100;
    ByHalf(x, q', x % 0x100 + 0x100 * (q % 0x100));
    ByTop(x, q' / 0x100, x % 0x100 + 0x100 * (q % 0x100) + 0x1_0000 * (q' % 0x100));
  }

  lemma ByHalf(x: nat, q: nat, r: nat)
    requires x == 0x1_0000 * q + r && r < 0x1_0000
    ensures x / 0x1_0000 == q
  {
  }

  lemma ByTop(x: nat, q: nat, r: nat)
    requires x == 0x100_0000 * q + r && r < 0x100_0000
    ensures x / 0x100_0000 == q
  {
  }

  // ----- the count

  lemma Divides(x: nat, q: nat, r: nat)
    requires x == TWO32 * q + r && r < TWO32
    ensures x / TWO32 == q && x % TWO32 == r
  {
  }

  lemma U32Adds(x: nat, y: nat)
    ensures U32(U32(x) + y) == U32(x + y)
  {
  }

  /** Two words added with a carry count modulo 2^64. */
  lemma CountAdds(n: nat, k: Word)
    ensures
      var low, shifted := U32(8 * n), U32(8 * k);
      var sum := U32(low + shifted);
      var carry := if sum < shifted then 1 else 0;
      BitCount(n + k) == [sum, U32(U32(U32(8 * n / TWO32) + carry) + k / 0x2000_0000)]
  {
    var low, shifted := U32(8 * n), U32(8 * k);
    var q, h := 8 * n / TWO32, k / 0x2000_0000;
    Divides(8 * k, h, 8 * (k % 0x2000_0000));
    var carry: nat := if low + shifted < TWO32 then 0 else 1;
    Divides(low + shifted, carry, low + shifted - TWO32 * carry);
    Divides(8 * (n + k), q + h + carry, low + shifted - TWO32 * carry);
    U32Adds(q, carry);
    U32Adds(q + carry, h);
  }

  /** The buffer index that the count gives. */
  lemma IndexOf(n: nat)
    ensures BitCount(n)[0] / 8 % 64 == n % 64
  {
    var q := 8 * n / TWO32;
    var k := n - 0x2000_0000 * q;
    Divides(8 * n, q, 8 * k);
    Eighth(k);
    SameIndex(k, 0x80_0000 * q);
  }

  lemma Eighth(k: nat)
    ensures 8 * k / 8 == k
  {
  }

  lemma SameIndex(k: nat, j: nat)
    ensures (k + 64 * j) % 64 == k % 64
  {
  }

  // ----- one more piece of the message

  /** The loop of MD5Update meets a block whose end is at 2^32 or later. */
  predicate WrapsRound(n: nat, k: nat) {
    var partlen := 64 - n % 64;
    k >= partlen && partlen + 64 * ((k - partlen) / 64) + 64 >= TWO32
  }

  /** Only inputs within 64 bytes of 2^32 do so; from the start of a message, all of those. */
  lemma WrapsNearLimit(n: nat, k: nat)
    requires k < TWO32
    ensures WrapsRound(n, k) ==> k >= TWO32 - 64
    ensures n % 64 == 0 ==> (WrapsRound(n, k) <==> k >= TWO32 - 64)
  {
    var partlen := 64 - n % 64;
    if k >= partlen {
      var t := (k - partlen) / 64;
      assert k - 64 < partlen + 64 * t <= k;
    }
  }

  lemma StaysInside(n: nat, k: nat)
    requires n % 64 + k < 64
    ensures !WrapsRound(n, k)
  {
  }

  lemma NextBlock(f: Transform, m: seq<Byte>, b: seq<Byte>)
    requires |m| % 64 == 0 && |b| == 64
    ensures Blocks(f, INITIAL, m + b) == f(Blocks(f, INITIAL, m), b)
  {
    var st := Blocks(f, INITIAL, m);
    BlocksAppend(f, INITIAL, m, b);
    assert b[..64] == b;
    Short(f, f(st, b), b[64..]);
  }

  /** The incomplete block at the end does not matter yet. */
  lemma Rest(f: Transform, m: seq<Byte>, b: seq<Byte>)
    requires |m| % 64 == 0 && |b| < 64
    ensures Blocks(f, INITIAL, m + b) == Blocks(f, INITIAL, m)
  {
    BlocksAppend(f, INITIAL, m, b);
    Short(f, Blocks(f, INITIAL, m), b);
  }

  lemma FillsBlock(f: Transform, head: seq<Byte>, tail: seq<Byte>, b: seq<Byte>)
    requires |head| % 64 == 0 && |tail| < 64 && |tail| + |b| == 64
    ensures Blocks(f, INITIAL, head + tail + b) == f(Blocks(f, INITIAL, head + tail), tail + b)
  {
    hide Blocks;
    NextBlock(f, head, tail + b);
    Rest(f, head, tail);
    assert head + (tail + b) == head + tail + b;
  }

  lemma StaysShort(f: Transform, head: seq<Byte>, tail: seq<Byte>, b: seq<Byte>)
    requires |head| % 64 == 0 && |tail| + |b| < 64
    ensures Blocks(f, INITIAL, head + tail + b) == Blocks(f, INITIAL, head + tail)
  {
    hide Blocks;
    Rest(f, head, tail);
    Rest(f, head, tail + b);
    assert head + (tail + b) == head + tail + b;
  }

  lemma Split(m: seq<Byte>, full: nat)
    requires full <= |m|
    ensures m[..full] + m[full..] == m
  {
  }

  lemma StillShort(f: Transform, m: seq<Byte>, input: seq<Byte>)
    requires |m| % 64 + |input| < 64
    ensures Blocks(f, INITIAL, m + input) == Blocks(f, INITIAL, m)
  {
    hide Blocks;
    var full := |m| - |m| % 64;
    Whole(|m|);
    Split(m, full);
    StaysShort(f, m[..full], m[full..], input);
  }

  lemma Whole(n: nat)
    ensures (n - n % 64) % 64 == 0
  {
  }

  lemma AllAbsorbed(f: Transform, m: seq<Byte>, input: seq<Byte>, i: nat)
    requires i <= |input| < i + 64 && |m + input[..i]| % 64 == 0
    ensures Blocks(f, INITIAL, m + input) == Blocks(f, INITIAL, m + input[..i])
  {
    hide *;
    Parts(m, input, i);
    Rest(f, m + input[..i], input[i..]);
  }

  lemma Parts(m: seq<Byte>, input: seq<Byte>, i: nat)
    requires i <= |input|
    ensures |m + input[..i]| == |m| + i && m + input[..i] + input[i..] == m + input
  {
  }

  /** What the buffer has to hold after input. */
  lemma NewTail(m: seq<Byte>, input: seq<Byte>, i: nat)
    requires i <= |input| < i + 64 && |m + input[..i]| % 64 == 0
    ensures var all := m + input;
      |all| % 64 == |input| - i && all[|all| - |all| % 64..] == input[i..]
  {
  }

  lemma LongerTail(m: seq<Byte>, input: seq<Byte>)
    requires |m| % 64 + |input| < 64
    ensures var all, index := m + input, |m| % 64;
      |all| % 64 == index + |input| && all[|all| - |all| % 64..] == m[|m| - index..] + input
  {
    Remains(|m| - |m| % 64, |m| % 64 + |input|);
  }

  lemma Remains(full: nat, k: nat)
    requires full % 64 == 0 && k < 64
    ensures (full + k) % 64 == k
  {
  }

  lemma Extends(m: seq<Byte>, input: seq<Byte>, i: nat)
    requires i + 64 <= |input|
    ensures m + input[..i] + input[i..i + 64] == m + input[..i + 64]
  {
  }

  // ----- the context

  class Context {
    const transform: Transform
    var count0: Word
    var count1: Word
    var state: seq<Word>
    const buffer: array<Byte>

    /** The context after the message m: its whole blocks are in the state, the rest in the buffer, and the two count
        words hold the number of its bits modulo 2^64. */
    ghost predicate Holds(m: seq<Byte>)
      reads this, buffer
    {
      && buffer.Length == 64 && state == Blocks(transform, INITIAL, m)
      && buffer[..|m| % 64] == m[|m| - |m| % 64..]
      && [count0, count1] == BitCount(|m|)
    }

    /** MD5Init. */
    constructor (transform: Transform)
      ensures Holds([]) && this.transform == transform && fresh(buffer)
    {
      hide Blocks;
      Short(transform, INITIAL, []);
      this.transform := transform;
      buffer := new Byte[64];
      count0, count1 := 0, 0;
      state := INITIAL;
    }

    method AddCount(inputlen: Word, ghost n: nat)
      requires [count0, count1] == BitCount(n)
      modifies this`count0, this`count1
      ensures [count0, count1] == BitCount(n + inputlen)
    {
      hide U32;
      CountAdds(n, inputlen);
      U32Adds(8 * n / TWO32, 0);
      var shifted := U32(8 * inputlen);
      count0 := U32(count0 + shifted);
      if count0 < shifted {
        count1 := U32(count1 + 1);
      }
      count1 := U32(count1 + inputlen / 0x2000_0000);
    }

    /** memcpy into the buffer. */
    method CopyIn(index: nat, data: seq<Byte>)
      requires index + |data| <= buffer.Length
      modifies buffer
      ensures buffer[..index + |data|] == old(buffer[..index]) + data
    {
      forall k | 0 <= k < |data| {
        buffer[index + k] := data[k];
      }
    }

    /** MD5Update up to its last memcpy, after the message m. */
    method Absorb(input: seq<Byte>, index: nat, ghost m: seq<Byte>) returns (ok: bool, i: nat)
      requires buffer.Length == 64 && state == Blocks(transform, INITIAL, m)
      requires index == |m| % 64 && buffer[..index] == m[|m| - index..]
      requires 64 - index <= |input| < TWO32
      modifies this`state, buffer
      ensures ok <==> !WrapsRound(|m|, |input|)
      ensures ok ==>
        && i <= |input| < i + 64 && |m + input[..i]| % 64 == 0
        && state == Blocks(transform, INITIAL, m + input[..i])
    {
      hide Blocks;
      var partlen := 64 - index;
      ghost var full := |m| - index;
      CopyIn(index, input[..partlen]);
      Split(m, full);
      FillsBlock(transform, m[..full], m[full..], input[..partlen]);
      assert buffer[..] == buffer[..64] == m[full..] + input[..partlen];
      state := transform(state, buffer[..]);
      i := partlen;
      ghost var t := 0;
      while U32(i + 64) <= |input|
        invariant i == partlen + 64 * t && i <= |input|
        invariant state == Blocks(transform, INITIAL, m + input[..i])
        decreases |input| - i
      {
        if i + 64 > |input| {
          return false, i;
        }
        NextBlock(transform, m + input[..i], input[i..i + 64]);
        Extends(m, input, i);
        state := transform(state, input[i..i + 64]);
        i, t := i + 64, t + 1;
      }
      ok := true;
    }

    /** MD5Update after the message m. The 32-bit sum i + 64 can wrap round on an input of nearly 2^32 bytes; the next
        block is then read from behind the input, and ok says that this did not happen. */
    method Update(input: seq<Byte>, ghost m: seq<Byte>) returns (ok: bool)
      requires Holds(m) && |input| < TWO32
      modifies this`count0, this`count1, this`state, buffer
      ensures ok <==> !WrapsRound(|m|, |input|)
      ensures ok ==> Holds(m + input)
    {
      hide Blocks, BitCount, U32, WrapsRound;
      assert count0 == BitCount(|m|)[0];
      IndexOf(|m|);
      var index: nat := count0 / 8 % 64;
      AddCount(|input|, |m|);
      var i := 0;
      if |input| >= 64 - index {
        ok, i := Absorb(input, index, m);
        if !ok {
          return;
        }
        index := 0;
        AllAbsorbed(transform, m, input, i);
        NewTail(m, input, i);
      } else {
        StillShort(transform, m, input);
        LongerTail(m, input);
        StaysInside(|m|, |input|);
        ok := true;
      }
      CopyIn(index, input[i..]);
    }

    /** MD5Final. */
    method Final(ghost m: seq<Byte>) returns (digest: seq<Byte>)
      requires Holds(m)
      modifies this`count0, this`count1, this`state, buffer
      ensures digest == WordsBytes(Digest(transform, m))
    {
      hide Blocks, BitCount, WordsBytes, U32;
      assert count0 == BitCount(|m|)[0];
      IndexOf(|m|);
      var index: nat := count0 / 8 % 64;
      var padlen := if index < 56 then 56 - index else 120 - index;
      var bits := Encode([count0, count1]);
      assert padlen == PadLength(|m|);
      var ok := Update(PADDING[..padlen], m);
      PaddingPrefix(padlen);
      ok := Update(bits, m + Padding(padlen));
      digest := Encode(state);
    }
  }

  const READ_DATA_SIZE: nat := 1024

  /** Compute_file_md5: a file, read in pieces, gets the digest of its contents. */
  method FileDigest(transform: Transform, file: seq<Byte>) returns (value: seq<Byte>)
    ensures value == WordsBytes(Digest(transform, file))
  {
    hide Digest, WordsBytes, Context.Holds;
    var md5 := new Context(transform);
    var pos := 0;
    while true
      invariant 0 <= pos <= |file| && fresh(md5) && fresh(md5.buffer) && md5.transform == transform
      invariant md5.Holds(file[..pos])
      decreases |file| - pos
    {
      var ret := if |file| - pos < READ_DATA_SIZE then |file| - pos else READ_DATA_SIZE;
      var _ := md5.Update(file[pos..pos + ret], file[..pos]);
      assert file[..pos] + file[pos..pos + ret] == file[..pos + ret];
      pos := pos + ret;
      if ret == 0 || ret < READ_DATA_SIZE {
        break;
      }
    }
    assert file[..pos] == file;
    value := md5.Final(file);
  }
}
