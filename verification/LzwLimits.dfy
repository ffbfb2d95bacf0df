/** For which numbers of bits unlzw is an LZW decoder. */
module LzwLimits {
  import opened BitIo
  import opened LzwSpec

  /** What unlzw makes of the data behind the header byte. */
  ghost function All(data: seq<Byte>, block: bool, maxbits: nat): Step {
    Decompress(ByteBits(data), Cursor(0, 0, INIT_BITS), Begin(block), block, maxbits)
  }

  predicate CodeAt(bits: seq<bool>, at: nat, n: nat, code: nat) {
    at + n <= |bits| && bits[at..at + n] == ToBits(code, n)
  }

  /** A code in the bits that is no CLEAR and needs no wider codes is decoded, and the next code stands behind it. */
  lemma OneCode(bits: seq<bool>, c: Cursor, d: Decoder, block: bool, maxbits: nat, code: nat)
    requires c.Valid() && code < Pow2(c.width) && CodeAt(bits, c.at, c.width, code)
    requires d.free <= MaxCode(c.width, maxbits)
    requires !(block && code == CLEAR)
    ensures
      var all := Decompress(bits, c, d, block, maxbits);
      match Decode(d, block, Pow2(maxbits), code)
      case Next(d') => all == Decompress(bits, c.(at := c.at + c.width), d', block, maxbits)
      case stop => all == stop
  {
    hide Decompress, FromBits, ToBits, Pow2, RoundUp;
    FromTo(code, c.width);
    Unfold(bits, c, d, block, maxbits);
  }

  // ----- fewer than 9 bits: there are no entries at all

  lemma FewBits(block: bool, maxbits: nat) returns (data: seq<Byte>)
    requires maxbits < 9
    ensures All(data, block, maxbits) == Stale
  {
    hide ToBits, Pow2, Decompress, ByteBits, FromBits;
    var f := Begin(block).free;
    var bits := ToBits(0, 9) + ToBits(f, 9) + ToBits(f, 9) + Zeros(5);
    data := ToBytes(bits);
    TenBits();
    Pow2Grows(maxbits, 8);
    assert Pow2(8) == 256 by { Pow2Values(); }
    var d0 := Begin(block);
    var d1 := d0.(last := After([0], true), out := [0]);
    assert bits[0..9] == ToBits(0, 9) && bits[9..18] == ToBits(f, 9) && bits[18..27] == ToBits(f, 9);
    assert d0.out + [0] == [0] && [0] + [0] == [0, 0];
    OneCode(bits, Cursor(0, 0, 9), d0, block, maxbits, 0);
    OneCode(bits, Cursor(9, 0, 9), d1, block, maxbits, f);
    OneCode(bits, Cursor(18, 0, 9), Extend(d1, Pow2(maxbits), [0], [0, 0], false), block, maxbits, f);
  }

  // ----- 9 bits: the table fills up, and codes of 10 bits follow

  /** Zero bits fill the table. */
  lemma {:induction false} ZeroRun(bits: seq<bool>, at: nat, d: Decoder, block: bool) returns (d': Decoder)
    requires d.last == After([0], true) && 256 <= d.free <= 512
    requires at + 9 * (512 - d.free) <= |bits| && forall i :: at <= i < at + 9 * (512 - d.free) ==> !bits[i]
    ensures d'.last == After([0], true) && d'.free == 512
    ensures Decompress(bits, Cursor(at, 0, 9), d, block, 9)
      == Decompress(bits, Cursor(at + 9 * (512 - d.free), 0, 9), d', block, 9)
    decreases 512 - d.free
  {
    hide ToBits, Pow2, Decompress, FromBits;
    TenBits();
    if d.free == 512 {
      d' := d;
    } else {
      ZeroBits(bits, at, 9);
      OneCode(bits, Cursor(at, 0, 9), d, block, 9, 0);
      d' := ZeroRun(bits, at + 9, Extend(d, 512, [0], [0], true), block);
    }
  }

  lemma {:induction false} ZeroBits(bits: seq<bool>, at: nat, n: nat)
    requires at + n <= |bits| && forall i :: at <= i < at + n ==> !bits[i]
    ensures CodeAt(bits, at, n, 0)
    decreases n
  {
    if n > 0 {
      ZeroBits(bits, at + 1, n - 1);
      assert bits[at..at + n] == [bits[at]] + bits[at + 1..at + n];
    }
  }

  lemma {:induction false} ZerosAt(n: nat, i: nat)
    requires i < n
    ensures !Zeros(n)[i]
  {
    if i > 0 {
      ZerosAt(n - 1, i - 1);
    }
  }

  lemma NineBits(block: bool) returns (data: seq<Byte>)
    ensures All(data, block, 9) == Stale
  {
    hide ToBits, Pow2, Decompress, ByteBits, FromBits, Zeros, RoundUp;
    var n := if block then 2304 else 2376;
    var bits := Zeros(n) + ToBits(512, 10) + ToBits(512, 10) + Zeros(4);
    data := ToBytes(bits);
    forall i | 0 <= i < n
      ensures !bits[i]
    {
      ZerosAt(n, i);
    }
    TenBits();
    ZeroBits(bits, 0, 9);
    assert Begin(block).out + [0] == [0] && [0] + [0] == [0, 0];
    OneCode(bits, Cursor(0, 0, 9), Begin(block), block, 9, 0);
    var d := ZeroRun(bits, 9, Begin(block).(last := After([0], true), out := [0]), block);
    var at := 9 + 9 * (512 - Begin(block).free);
    Unfold(bits, Cursor(at, 0, 9), d, block, 9);
    Groups(at);
    assert bits[n..n + 10] == ToBits(512, 10) && bits[n + 10..n + 20] == ToBits(512, 10);
    OneCode(bits, Cursor(n, n, 10), d, block, 9, 512);
    OneCode(bits, Cursor(n + 10, n, 10), Extend(d, 512, [0], [0, 0], false), block, 9, 512);
  }

  lemma Groups(at: nat)
    ensures at == 2304 ==> RoundUp(at, 72) == 2304
    ensures at == 2313 ==> RoundUp(at, 72) == 2376
  {
  }

  /** unlzw decodes all data without going by an entry that was never made if and only if there are at least 10 bits. */
  lemma CleanFromTenBits(block: bool, maxbits: nat)
    requires maxbits <= BITS
    ensures (forall data: seq<Byte> :: All(data, block, maxbits) != Stale) <==> maxbits >= 10
  {
    hide Decompress, ByteBits, Sane, Pow2;
    if maxbits >= 10 {
      forall data: seq<Byte>
        ensures All(data, block, maxbits) != Stale
      {
        BeginSane(block, Pow2(maxbits));
        DecompressDecodes(ByteBits(data), Cursor(0, 0, INIT_BITS), Begin(block), block, maxbits);
      }
    } else if maxbits == 9 {
      var data := NineBits(block);
    } else {
      var data := FewBits(block, maxbits);
    }
  }
}
