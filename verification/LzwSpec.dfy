/** LZW as compress uses it, with a dictionary of strings. */
module LzwSpec {
  import opened BitIo

  const INIT_BITS: nat := 9
  const BITS: nat := 16
  const CLEAR: nat := 256
  const FIRST: nat := 257

  /** Before the first code; after a CLEAR; or after a code that stands for a string, and has an entry of its own unless
      the table was full when it came up. */
  datatype Last = Start | Cleared | After(s: seq<Byte>, made: bool)

  /** The codes from 256 on that stand for strings, the next free code, the last string, and the output. */
  datatype Decoder = Decoder(dict: map<nat, seq<Byte>>, free: nat, last: Last, out: seq<Byte>) {
    predicate Has(c: nat) { c < 256 || c in dict }

    function Str(c: nat): seq<Byte>
      requires Has(c)
    {
      if c < 256 then [c] else dict[c]
    }
  }

  /** Corrupt: a code that cannot be decoded. Stale: a string that starts with that of a code without an entry. */
  datatype Step = Next(d: Decoder) | Corrupt | Stale

  function Begin(block: bool): Decoder {
    Decoder(map[], if block then FIRST else 256, Start, [])
  }

  function Decode(d: Decoder, block: bool, max: nat, c: nat): Step {
    match d.last
    case Start => if c < 256 then Next(d.(last := After([c], true), out := d.out + [c])) else Corrupt
    case Cleared =>
      if block && c == CLEAR then Next(Clear(d))
      else if c < 256 then
        Next(d.(free := if 256 < max then FIRST else 256, last := After([c], true), out := d.out + [c]))
      else Corrupt
    case After(w, made) =>
      if block && c == CLEAR then Next(Clear(d))
      else if c > d.free then Corrupt
      else if c == d.free then (if made && w != [] then Next(Extend(d, max, w, w + [w[0]], d.free < max)) else Stale)
      else if d.Has(c) && d.Str(c) != [] then Next(Extend(d, max, w, d.Str(c), true))
      else Corrupt
  }

  function Clear(d: Decoder): Decoder {
    d.(dict := map[], free := FIRST - 1, last := Last.Cleared)
  }

  /** s is put out, and the last string with the first byte of s gets a code, if there is room for it. */
  function Extend(d: Decoder, max: nat, w: seq<Byte>, s: seq<Byte>, made: bool): Decoder
    requires s != []
  {
    var d' := d.(last := After(s, made), out := d.out + s);
    if d.free < max then d'.(dict := d.dict[d.free := w + [s[0]]], free := d.free + 1) else d'
  }

  /** What a decoder always looks like: the codes with strings are those below the next free one, and no string is
      long. */
  ghost predicate Sane(d: Decoder, block: bool, max: nat) {
    var first := if block then FIRST else 256;
    && (forall c :: c in d.dict <==> first <= c < d.free)
    && (forall c :: c in d.dict ==> 2 <= |d.dict[c]| <= c - 254)
    && 256 <= d.free && (d.free <= max || d.free <= FIRST)
    && (match d.last
        case Start => d.free == first
        case Cleared => block && d.free == 256
        case After(w, made) =>
          && w != [] && (block && d.free == 256 ==> max <= 256)
          && if made then |w| == 1 || |w| <= d.free - 255 else |w| <= d.free - 254 && d.free >= max)
  }

  lemma BeginSane(block: bool, max: nat)
    ensures Sane(Begin(block), block, max)
  {
  }

  lemma DecodeSane(d: Decoder, block: bool, max: nat, c: nat)
    requires Sane(d, block, max)
    ensures Decode(d, block, max, c).Next? ==> Sane(Decode(d, block, max, c).d, block, max)
  {
  }

  predicate Made(d: Decoder) { d.last.After? ==> d.last.made }

  /** As long as the table has room for one more entry, or its code does not come up, every code has an entry. */
  lemma StaysMade(d: Decoder, block: bool, max: nat, c: nat)
    requires Sane(d, block, max) && Made(d) && (d.free < max || c < max)
    ensures Decode(d, block, max, c) != Stale
    ensures Decode(d, block, max, c).Next? ==> Made(Decode(d, block, max, c).d)
  {
  }

  // ----- the codes in the bit stream

  /** The next bit, the bit where the current run of codes of this width began, and the width. */
  datatype Cursor = Cursor(at: nat, start: nat, width: nat) {
    predicate Valid() { start <= at && 1 <= width <= BITS }

    /** Codes come in groups of eight, so a new run starts at the next multiple of 8 * width bits. */
    function NewRun(width': nat): Cursor
      requires Valid()
    {
      var p := start + RoundUp(at - start, 8 * width);
      Cursor(p, p, width')
    }
  }

  /** The smallest multiple of m that is not below n. */
  function RoundUp(n: nat, m: nat): (r: nat)
    requires m > 0
    ensures n <= r < n + m
  {
    Division(n + m - 1, m);
    m * ((n + m - 1) / m)
  }

  lemma Division(a: nat, m: nat)
    requires m > 0
    ensures a == m * (a / m) + a % m && 0 <= m * (a / m)
  {
  }

  /** The last entry that codes of this width are used for. */
  function MaxCode(width: nat, maxbits: nat): nat {
    if width == maxbits && width > INIT_BITS then Pow2(width) else Pow2(width) - 1
  }

  /** What the bits from c on decode to. */
  ghost function Decompress(bits: seq<bool>, c: Cursor, d: Decoder, block: bool, maxbits: nat): Step
    requires c.Valid()
    decreases if c.at <= |bits| then |bits| - c.at else 0, BITS - c.width
  {
    if c.at + c.width > |bits| then Next(d)
    else if d.free > MaxCode(c.width, maxbits) && c.width < BITS then
      Decompress(bits, c.NewRun(c.width + 1), d, block, maxbits)
    else
      var code := FromBits(bits[c.at..c.at + c.width]);
      var c' := c.(at := c.at + c.width);
      match Decode(d, block, Pow2(maxbits), code)
      case Next(d') => Decompress(bits, if d'.last.Cleared? then c'.NewRun(INIT_BITS) else c', d', block, maxbits)
      case stop => stop
  }

  lemma AtEnd(bits: seq<bool>, c: Cursor, d: Decoder, block: bool, maxbits: nat)
    requires c.Valid() && c.at + c.width > |bits|
    ensures Decompress(bits, c, d, block, maxbits) == Next(d)
  {
  }

  /** The width grows exactly when the next free code would not fit into it; the full width is used on, with the code
      behind the last one never sent. */
  lemma WidthNeeded(free: nat, width: nat, maxbits: nat)
    ensures width != maxbits || width <= INIT_BITS ==> (free > MaxCode(width, maxbits) <==> free >= Pow2(width))
    ensures width == maxbits && width > INIT_BITS && free <= Pow2(maxbits) ==> free <= MaxCode(width, maxbits)
  {
  }

  /** Where the width changes, the codes of the old width fill up a whole number of groups of eight, and no more groups
      than need be. */
  lemma RunIs(c: Cursor, width': nat) returns (k: nat)
    requires c.Valid()
    ensures
      var n := c.NewRun(width');
      n.at == n.start == c.start + 8 * c.width * k && c.at <= n.at < c.at + 8 * c.width && n.width == width'
  {
    k := (c.at - c.start + 8 * c.width - 1) / (8 * c.width);
  }

  /** One step of the reference decoder. */
  lemma Unfold(bits: seq<bool>, c: Cursor, d: Decoder, block: bool, maxbits: nat)
    requires c.Valid() && c.at + c.width <= |bits|
    ensures
      var all := Decompress(bits, c, d, block, maxbits);
      if d.free > MaxCode(c.width, maxbits) && c.width < BITS then
        all == Decompress(bits, c.NewRun(c.width + 1), d, block, maxbits)
      else
        var code := FromBits(bits[c.at..c.at + c.width]);
        var c' := c.(at := c.at + c.width);
        match Decode(d, block, Pow2(maxbits), code)
        case Next(d') =>
          all == Decompress(bits, if d'.last.Cleared? then c'.NewRun(INIT_BITS) else c', d', block, maxbits)
        case stop => all == stop
  {
    hide Decode, FromBits, Pow2;
  }

  /** With 10 to 16 bits, every code that is not corrupt is decoded. */
  lemma {:induction false} DecompressDecodes(bits: seq<bool>, c: Cursor, d: Decoder, block: bool, maxbits: nat)
    requires c.Valid() && INIT_BITS < maxbits <= BITS && c.width <= maxbits
    requires Sane(d, block, Pow2(maxbits)) && Made(d)
    ensures Decompress(bits, c, d, block, maxbits) != Stale
    decreases if c.at <= |bits| then |bits| - c.at else 0, BITS - c.width
  {
    hide Decode, Sane, Pow2, FromBits, Made;
    if c.at + c.width <= |bits| {
      FreeBound(d, block, maxbits);
      if d.free > MaxCode(c.width, maxbits) && c.width < BITS {
        DecompressDecodes(bits, c.NewRun(c.width + 1), d, block, maxbits);
      } else {
        var code := FromBits(bits[c.at..c.at + c.width]);
        assert code < Pow2(c.width);
        WidthPower(c.width, maxbits);
        StaysMade(d, block, Pow2(maxbits), code);
        DecodeSane(d, block, Pow2(maxbits), code);
        match Decode(d, block, Pow2(maxbits), code)
        case Next(d') =>
          var c' := c.(at := c.at + c.width);
          DecompressDecodes(bits, if d'.last.Cleared? then c'.NewRun(INIT_BITS) else c', d', block, maxbits);
        case _ =>
      }
    }
  }

  lemma FreeBound(d: Decoder, block: bool, maxbits: nat)
    requires Sane(d, block, Pow2(maxbits)) && INIT_BITS < maxbits <= BITS
    ensures d.free <= Pow2(maxbits)
  {
    hide Pow2;
    Pow2Grows(10, maxbits);
    assert Pow2(10) == 1024 by { TenBits(); }
  }

  lemma TenBits()
    ensures Pow2(9) == 512 && Pow2(10) == 1024
  {
    assert Pow2(5) == 32;
  }

  lemma WidthPower(width: nat, maxbits: nat)
    requires width <= maxbits
    ensures Pow2(width) <= Pow2(maxbits)
  {
    Pow2Grows(width, maxbits);
  }
}
