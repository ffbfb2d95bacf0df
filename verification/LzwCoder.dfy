/** A coder for the codes that unlzw reads, and the way back. */
module LzwCoder {
  import opened BitIo
  import opened LzwSpec
  import Unlzw

  /** The strings that have codes, and the next free code. */
  datatype Coder = Coder(dict: map<nat, seq<Byte>>, free: nat) {
    predicate Has(c: nat) { c < 256 || c in dict }

    function Str(c: nat): seq<Byte>
      requires Has(c)
    {
      if c < 256 then [c] else dict[c]
    }

    /** Behind a string in the data, the string and the byte behind it get a code, if there is room. */
    function Add(s: seq<Byte>, rest: seq<Byte>, max: nat): Coder {
      if rest == [] || free >= max then this else Coder(dict[free := s + [rest[0]]], free + 1)
    }
  }

  function Empty(block: bool): Coder { Coder(map[], if block then FIRST else 256) }

  /** The codes stand for the data, each for a string that has a code when it comes up; in block mode, a CLEAR after any
      code empties the table. */
  predicate Codes(e: Coder, block: bool, max: nat, begun: bool, data: seq<Byte>, codes: seq<nat>)
    decreases |codes|
  {
    if codes == [] then data == []
    else if block && codes[0] == CLEAR then begun && Codes(Empty(block), block, max, begun, data, codes[1..])
    else
      && e.Has(codes[0]) && var s := e.Str(codes[0]);
      && s <= data && Codes(e.Add(s, data[|s|..], max), block, max, true, data[|s|..], codes[1..])
  }

  // ----- there are such codes for all data

  /** Of the codes below n that stand for a string in front of the data, the one with the longest. */
  function Longest(e: Coder, data: seq<Byte>, n: nat): (c: nat)
    requires data != []
    ensures e.Has(c) && e.Str(c) <= data
    ensures forall c' :: 0 <= c' < n && e.Has(c') && e.Str(c') <= data ==> |e.Str(c')| <= |e.Str(c)|
  {
    if n == 0 then data[0]
    else
      var c := Longest(e, data, n - 1);
      if e.Has(n - 1) && e.Str(n - 1) <= data && |e.Str(n - 1)| > |e.Str(c)| then n - 1 else c
  }

  predicate Orderly(e: Coder, block: bool, max: nat) {
    forall c :: c in e.dict ==> 256 <= c < e.free && c < max && !(block && c == CLEAR) && e.dict[c] != []
  }

  /** Always the longest string, and the table is never emptied. */
  function Greedy(e: Coder, block: bool, max: nat, data: seq<Byte>): seq<nat>
    requires Orderly(e, block, max) && e.free >= (if block then FIRST else 256)
    decreases |data|
  {
    if data == [] then []
    else
      var c := Longest(e, data, e.free);
      var s := e.Str(c);
      [c] + Greedy(e.Add(s, data[|s|..], max), block, max, data[|s|..])
  }

  lemma {:induction false} GreedyCodes(e: Coder, block: bool, max: nat, begun: bool, data: seq<Byte>)
    requires Orderly(e, block, max) && e.free >= (if block then FIRST else 256)
    ensures Codes(e, block, max, begun, data, Greedy(e, block, max, data))
    decreases |data|
  {
    hide Longest;
    if data != [] {
      var c := Longest(e, data, e.free);
      var s := e.Str(c);
      var more := Greedy(e.Add(s, data[|s|..], max), block, max, data[|s|..]);
      GreedyCodes(e.Add(s, data[|s|..], max), block, max, true, data[|s|..]);
      assert ([c] + more)[1..] == more;
    }
  }

  // ----- decoding them

  /** Decodes a list of codes. */
  function DecodeAll(d: Decoder, block: bool, max: nat, codes: seq<nat>): Step
    decreases |codes|
  {
    if codes == [] then Next(d)
    else match Decode(d, block, max, codes[0])
      case Next(d') => DecodeAll(d', block, max, codes[1..])
      case stop => stop
  }

  /** The decoder has the entries of the coder, except the one that is made from the next byte of the data. */
  ghost predicate InStep(e: Coder, d: Decoder, block: bool, max: nat, data: seq<Byte>) {
    && Orderly(e, block, max) && d.free >= 256 && (forall c :: c in d.dict ==> c < d.free)
    && match d.last
       case Start => e == Empty(block) && d.dict == map[] && d.free == e.free
       case Cleared => block && e == Empty(block) && d.dict == map[]
       case After(w, made) =>
         && made && w != []
         && (data != [] ==>
               if d.free < max then e.free == d.free + 1 && e.dict == d.dict[d.free := w + [data[0]]]
               else e.free >= max && e.dict == d.dict)
  }

  /** One code puts out its string, KwKwK included, and the two tables stay in step. */
  lemma CodeStep(e: Coder, d: Decoder, block: bool, max: nat, data: seq<Byte>, c: nat)
    requires InStep(e, d, block, max, data) && !(block && c == CLEAR) && e.Has(c) && e.Str(c) <= data
    ensures
      var s := e.Str(c);
      && Decode(d, block, max, c).Next? && var d' := Decode(d, block, max, c).d;
      && d'.out == d.out + s && d'.last == After(s, true)
      && InStep(e.Add(s, data[|s|..], max), d', block, max, data[|s|..])
  {
    var s := e.Str(c);
    assert s != [] && s[0] == data[0];
  }

  lemma ClearStep(e: Coder, d: Decoder, max: nat, data: seq<Byte>)
    requires InStep(e, d, true, max, data) && !d.last.Start?
    ensures Decode(d, true, max, CLEAR).Next? && var d' := Decode(d, true, max, CLEAR).d;
      d'.out == d.out && d'.last.Cleared? && InStep(Empty(true), d', true, max, data)
  {
  }

  /** Whatever strings the coder picks and wherever it empties the table, the decoder gives the data back. */
  lemma {:induction false} DecodeCodes(e: Coder, d: Decoder, block: bool, max: nat, data: seq<Byte>, codes: seq<nat>)
    requires InStep(e, d, block, max, data) && Codes(e, block, max, !d.last.Start?, data, codes)
    ensures DecodeAll(d, block, max, codes).Next? && DecodeAll(d, block, max, codes).d.out == d.out + data
    decreases |codes|
  {
    hide Decode, InStep;
    if codes != [] {
      var c := codes[0];
      if block && c == CLEAR {
        ClearStep(e, d, max, data);
        DecodeCodes(Empty(block), Decode(d, block, max, c).d, block, max, data, codes[1..]);
      } else {
        var s := e.Str(c);
        CodeStep(e, d, block, max, data, c);
        DecodeCodes(e.Add(s, data[|s|..], max), Decode(d, block, max, c).d, block, max, data[|s|..], codes[1..]);
        Rejoined(d.out, s, data);
      }
    }
  }

  lemma Rejoined(out: seq<Byte>, s: seq<Byte>, data: seq<Byte>)
    requires s <= data
    ensures out + s + data[|s|..] == out + data
  {
  }

  // ----- the codes as bits

  /** The bits of the codes from the cursor on: each in the width that the table asks for, and zeros up to the next
      group of eight where the width changes. */
  ghost function Pack(c: Cursor, d: Decoder, block: bool, maxbits: nat, codes: seq<nat>): seq<bool>
    requires c.Valid()
    decreases |codes|, BITS - c.width
  {
    if codes == [] then []
    else if d.free > MaxCode(c.width, maxbits) && c.width < BITS then
      var n := c.NewRun(c.width + 1);
      Zeros(n.at - c.at) + Pack(n, d, block, maxbits, codes)
    else
      ToBits(codes[0], c.width) + match Decode(d, block, Pow2(maxbits), codes[0]) {
        case Next(d') => PackNext(c.(at := c.at + c.width), d', block, maxbits, codes[1..])
        case _ => []
      }
  }

  ghost function PackNext(c: Cursor, d: Decoder, block: bool, maxbits: nat, codes: seq<nat>): seq<bool>
    requires c.Valid()
    decreases |codes|, BITS
  {
    if !d.last.Cleared? then Pack(c, d, block, maxbits, codes)
    else var n := c.NewRun(INIT_BITS); Zeros(n.at - c.at) + Pack(n, d, block, maxbits, codes)
  }

  /** Codes fit into the width that they are written in. */
  lemma CodeFits(e: Coder, d: Decoder, block: bool, maxbits: nat, data: seq<Byte>, c: nat, width: nat)
    requires InStep(e, d, block, Pow2(maxbits), data) && data != [] && e.Has(c) && INIT_BITS <= width <= BITS
    requires d.free <= MaxCode(width, maxbits) || width == BITS
    requires maxbits <= BITS
    ensures c < Pow2(width)
  {
    hide Pow2;
    assert Pow2(9) == 512 by { TenBits(); }
    Pow2Grows(9, width);
    Pow2Grows(maxbits, BITS);
  }

  lemma {:induction false} PackLong(c: Cursor, d: Decoder, block: bool, maxbits: nat, codes: seq<nat>)
    requires c.Valid() && codes != []
    ensures |Pack(c, d, block, maxbits, codes)| >= c.width
    decreases BITS - c.width
  {
    hide Decode, MaxCode, ToBits, RoundUp;
    if d.free > MaxCode(c.width, maxbits) && c.width < BITS {
      PackLong(c.NewRun(c.width + 1), d, block, maxbits, codes);
    }
  }

  /** Behind x and y, the bits go on with z. */
  lemma Behind(bits: seq<bool>, at: nat, x: seq<bool>, y: seq<bool>, z: seq<bool>)
    requires at <= |bits| && bits[at..] == (x + y) + z
    ensures at + |x| <= |bits| && bits[at..at + |x|] == x && bits[at + |x|..] == y + z
  {
    assert bits[at..] == x + (y + z);
    assert bits[at..at + |x|] == bits[at..][..|x|] && bits[at + |x|..] == bits[at..][|x|..];
  }

  /** The next code in the bits. */
  lemma ReadCode(bits: seq<bool>, at: nat, code: nat, width: nat, y: seq<bool>, z: seq<bool>)
    requires at <= |bits| && code < Pow2(width) && bits[at..] == (ToBits(code, width) + y) + z
    ensures at + width <= |bits| && FromBits(bits[at..at + width]) == code && bits[at + width..] == y + z
  {
    hide ToBits, FromBits, Pow2;
    Behind(bits, at, ToBits(code, width), y, z);
    FromTo(code, width);
  }

  lemma SmallCode(width: nat)
    requires width >= INIT_BITS
    ensures CLEAR < Pow2(width)
  {
    hide Pow2;
    TenBits();
    Pow2Grows(9, width);
  }

  ghost predicate At(bits: seq<bool>, c: Cursor, x: seq<bool>, tail: seq<bool>) {
    c.Valid() && c.width >= INIT_BITS && c.at <= |bits| && bits[c.at..] == x + tail && |tail| < INIT_BITS
  }

  /** Packed codes are read one after the other. */
  lemma {:induction false} Unpack(bits: seq<bool>, c: Cursor, e: Coder, d: Decoder, block: bool, maxbits: nat,
                                  data: seq<Byte>, codes: seq<nat>, tail: seq<bool>)
    requires c.Valid() && At(bits, c, Pack(c, d, block, maxbits, codes), tail) && maxbits <= BITS
    requires InStep(e, d, block, Pow2(maxbits), data) && Codes(e, block, Pow2(maxbits), !d.last.Start?, data, codes)
    ensures Decompress(bits, c, d, block, maxbits) == DecodeAll(d, block, Pow2(maxbits), codes)
    decreases |codes|, BITS - c.width
  {
    hide Decode, InStep, MaxCode, Pow2, FromBits, ToBits, RoundUp, Decompress, Codes, Pack, PackNext, Cursor.NewRun, At,
         DecodeAll;
    if codes == [] {
      NothingPacked(bits, c, d, block, maxbits, tail);
    } else {
      PackLong(c, d, block, maxbits, codes);
      AtCode(bits, c, Pack(c, d, block, maxbits, codes), tail);
      Unfold(bits, c, d, block, maxbits);
      if d.free > MaxCode(c.width, maxbits) && c.width < BITS {
        Grown(bits, c, d, block, maxbits, codes, tail);
        Unpack(bits, c.NewRun(c.width + 1), e, d, block, maxbits, data, codes, tail);
      } else {
        var e', data' := NextCode(e, d, block, maxbits, data, codes, c.width);
        var d' := Decode(d, block, Pow2(maxbits), codes[0]).d;
        var c' := c.(at := c.at + c.width);
        OneRead(bits, c, d, block, maxbits, codes, tail);
        var n := if d'.last.Cleared? then c'.NewRun(INIT_BITS) else c';
        Unpack(bits, n, e', d', block, maxbits, data', codes[1..], tail);
        OneDecoded(d, block, Pow2(maxbits), codes);
      }
    }
  }

  lemma NothingPacked(bits: seq<bool>, c: Cursor, d: Decoder, block: bool, maxbits: nat, tail: seq<bool>)
    requires c.Valid() && At(bits, c, Pack(c, d, block, maxbits, []), tail)
    ensures Decompress(bits, c, d, block, maxbits) == Next(d) == DecodeAll(d, block, Pow2(maxbits), [])
  {
    hide Decompress, Pow2;
    assert [] + tail == tail;
    AtEnd(bits, c, d, block, maxbits);
  }

  lemma AtCode(bits: seq<bool>, c: Cursor, x: seq<bool>, tail: seq<bool>)
    requires At(bits, c, x, tail) && |x| >= c.width
    ensures c.at + c.width <= |bits| && INIT_BITS <= c.width <= BITS
  {
  }

  lemma Grown(bits: seq<bool>, c: Cursor, d: Decoder, block: bool, maxbits: nat, codes: seq<nat>, tail: seq<bool>)
    requires c.Valid() && codes != [] && At(bits, c, Pack(c, d, block, maxbits, codes), tail)
    requires d.free > MaxCode(c.width, maxbits) && c.width < BITS
    ensures
      var n := c.NewRun(c.width + 1);
      n.Valid() && At(bits, n, Pack(n, d, block, maxbits, codes), tail) && n.width == c.width + 1
  {
    hide Decode, MaxCode, ToBits, RoundUp;
    var n := c.NewRun(c.width + 1);
    Behind(bits, c.at, Zeros(n.at - c.at), Pack(n, d, block, maxbits, codes), tail);
  }

  lemma OneRead(bits: seq<bool>, c: Cursor, d: Decoder, block: bool, maxbits: nat, codes: seq<nat>, tail: seq<bool>)
    requires c.Valid() && codes != [] && At(bits, c, Pack(c, d, block, maxbits, codes), tail)
    requires d.free <= MaxCode(c.width, maxbits) || c.width == BITS
    requires codes[0] < Pow2(c.width) && Decode(d, block, Pow2(maxbits), codes[0]).Next?
    ensures c.at + c.width <= |bits| && FromBits(bits[c.at..c.at + c.width]) == codes[0]
    ensures
      var d' := Decode(d, block, Pow2(maxbits), codes[0]).d;
      var c' := c.(at := c.at + c.width);
      var n := if d'.last.Cleared? then c'.NewRun(INIT_BITS) else c';
      n.Valid() && At(bits, n, Pack(n, d', block, maxbits, codes[1..]), tail)
  {
    hide Decode, MaxCode, ToBits, FromBits, RoundUp, Pow2;
    var d' := Decode(d, block, Pow2(maxbits), codes[0]).d;
    var c' := c.(at := c.at + c.width);
    ReadCode(bits, c.at, codes[0], c.width, PackNext(c', d', block, maxbits, codes[1..]), tail);
    if d'.last.Cleared? {
      var n := c'.NewRun(INIT_BITS);
      Behind(bits, c'.at, Zeros(n.at - c'.at), Pack(n, d', block, maxbits, codes[1..]), tail);
    }
  }

  lemma OneDecoded(d: Decoder, block: bool, max: nat, codes: seq<nat>)
    requires codes != [] && Decode(d, block, max, codes[0]).Next?
    ensures DecodeAll(d, block, max, codes) == DecodeAll(Decode(d, block, max, codes[0]).d, block, max, codes[1..])
  {
    hide Decode;
  }

  /** The first of the codes can be written and decoded, and then coder and decoder are in step again. */
  lemma NextCode(e: Coder, d: Decoder, block: bool, maxbits: nat, data: seq<Byte>, codes: seq<nat>, width: nat)
    returns (e': Coder, data': seq<Byte>)
    requires InStep(e, d, block, Pow2(maxbits), data) && Codes(e, block, Pow2(maxbits), !d.last.Start?, data, codes)
    requires codes != [] && INIT_BITS <= width <= BITS && maxbits <= BITS
    requires d.free <= MaxCode(width, maxbits) || width == BITS
    ensures codes[0] < Pow2(width) && Decode(d, block, Pow2(maxbits), codes[0]).Next?
    ensures
      var d' := Decode(d, block, Pow2(maxbits), codes[0]).d;
      InStep(e', d', block, Pow2(maxbits), data') && Codes(e', block, Pow2(maxbits), !d'.last.Start?, data', codes[1..])
  {
    hide Decode, InStep, MaxCode, Pow2;
    var c := codes[0];
    if block && c == CLEAR {
      SmallCode(width);
      ClearStep(e, d, Pow2(maxbits), data);
      e', data' := Empty(block), data;
    } else {
      var s := e.Str(c);
      CodeStep(e, d, block, Pow2(maxbits), data, c);
      HasString(e, d, block, Pow2(maxbits), data, c);
      CodeFits(e, d, block, maxbits, data, c, width);
      e', data' := e.Add(s, data[|s|..], Pow2(maxbits)), data[|s|..];
    }
  }

  lemma HasString(e: Coder, d: Decoder, block: bool, max: nat, data: seq<Byte>, c: nat)
    requires InStep(e, d, block, max, data) && e.Has(c) && e.Str(c) <= data
    ensures data != []
  {
  }

  /** The bits of a whole file behind the header. */
  ghost function Packed(block: bool, maxbits: nat, codes: seq<nat>): seq<bool> {
    Pack(Cursor(0, 0, INIT_BITS), Begin(block), block, maxbits, codes)
  }

  /** unlzw gives the data back, for every list of codes that stands for them, in any width up to 16 bits, with and
      without block mode; fewer than 9 bits may follow. */
  method Recover(header: Byte, bytes: seq<Byte>, ghost data: seq<Byte>, ghost codes: seq<nat>, ghost tail: seq<bool>)
    returns (res: Unlzw.Outcome, out: seq<Byte>)
    requires header % 32 <= BITS
    requires Codes(Empty(header >= 128), header >= 128, Pow2(header % 32), false, data, codes)
    requires ByteBits(bytes) == Packed(header >= 128, header % 32, codes) + tail && |tail| < INIT_BITS
    ensures res == Unlzw.Done && out == data
  {
    hide Decompress, Pack, Codes, ByteBits, Pow2;
    ghost var block, maxbits := header >= 128, header % 32;
    ghost var c := Cursor(0, 0, INIT_BITS);
    AllAt(bytes, c, Packed(block, maxbits, codes), tail);
    FirstInStep(block, Pow2(maxbits), data);
    Unpack(ByteBits(bytes), c, Empty(block), Begin(block), block, maxbits, data, codes, tail);
    DecodeCodes(Empty(block), Begin(block), block, Pow2(maxbits), data, codes);
    res, out := Unlzw.Unlzw(header, bytes);
    assert [] + data == data;
  }

  lemma AllAt(bytes: seq<Byte>, c: Cursor, x: seq<bool>, tail: seq<bool>)
    requires c == Cursor(0, 0, INIT_BITS) && ByteBits(bytes) == x + tail && |tail| < INIT_BITS
    ensures At(ByteBits(bytes), c, x, tail)
  {
    assert ByteBits(bytes)[0..] == ByteBits(bytes);
  }

  lemma FirstInStep(block: bool, max: nat, data: seq<Byte>)
    ensures InStep(Empty(block), Begin(block), block, max, data)
  {
  }

  /** Such codes there are for all data. */
  lemma Codable(data: seq<Byte>, block: bool, max: nat)
    ensures Codes(Empty(block), block, max, false, data, Greedy(Empty(block), block, max, data))
  {
    GreedyCodes(Empty(block), block, max, false, data);
  }
}
