/** The bit writer of bits.c. */
module BitWriter {
  import opened BitIo

  const BUF_SIZE: nat := 16

  class Writer {
    var out: seq<Byte>
    var biBuf: nat
    var biValid: nat

    /** All bits above the last valid one are zero. */
    ghost predicate Valid()
      reads this
    {
      biValid <= BUF_SIZE && biBuf < Pow2(biValid)
    }

    /** The bits sent so far. */
    ghost function Sent(): seq<bool>
      reads this
    {
      ByteBits(out) + ToBits(biBuf, biValid)
    }

    /** bi_init. */
    constructor ()
      ensures Valid() && out == [] && Sent() == []
    {
      out, biBuf, biValid := [], 0, 0;
    }

    method PutByte(w: nat)
      modifies this`out
      ensures out == old(out) + [LowByte(w)] && ByteBits(out) == old(ByteBits(out)) + ToBits(w, 8)
    {
      LowBits(w);
      ByteBitsAppend(out, [LowByte(w)]);
      out := out + [LowByte(w)];
    }

    /** put_short: lowest byte first. */
    method PutShort(w: nat)
      requires w < 0x10000
      modifies this`out
      ensures out == old(out) + [LowByte(w), LowByte(Shr(w, 8))]
      ensures ByteBits(out) == old(ByteBits(out)) + ToBits(w, 16)
    {
      hide ToBits, Shr, ByteBits, Pow2;
      ghost var before := ByteBits(out);
      PutByte(w);
      PutByte(Shr(w, 8));
      Pow2Values();
      ShrBits(w, 8, 16);
      ToBitsPrefix(w, 8, 16);
      Halves(before, ToBits(w, 16), 8);
    }

    method SendBits(value: nat, length: nat)
      requires Valid() && length <= BUF_SIZE && value < Pow2(length)
      modifies this
      ensures Valid() && Sent() == old(Sent()) + ToBits(value, length)
    {
      hide ToBits, FromBits, Or, Shr, Pow2, ByteBits, And;
      ghost var n := biValid;
      ghost var s, t, full := ToBits(biBuf, n), ToBits(value, length), biBuf + Pow2(n) * value;
      OrAbove(biBuf, n, value);
      ToBitsAppend(biBuf, n, value, length);
      if biValid > BUF_SIZE - length {
        biBuf := U16(Or(biBuf, Pow2(biValid) * value));
        LowBits(full);
        ToBitsPrefix(full, 16, n + length);
        PutShort(biBuf);
        ShrBits(value, BUF_SIZE - n, length);
        biBuf := Shr(value, BUF_SIZE - biValid);
        biValid := biValid + length - BUF_SIZE;
        Cut(old(ByteBits(out)), s, t, 16);
      } else {
        biBuf := Or(biBuf, Pow2(biValid) * value);
        biValid := biValid + length;
        Cut(ByteBits(out), s, t, 0);
      }
    }

    static lemma Cut(p: seq<bool>, s: seq<bool>, t: seq<bool>, k: nat)
      requires k <= |s| + |t|
      ensures p + (s + t)[..k] + (s + t)[k..] == p + s + t
      ensures p + (s + t) == p + s + t
      ensures |s| <= k ==> (s + t)[k..] == t[k - |s|..]
    {
    }

    /** Sends a list of fields. */
    method SendAll(fields: seq<Field>)
      requires Valid() && forall f :: f in fields ==> f.Fits()
      modifies this
      ensures Valid() && Sent() == old(Sent()) + FieldBits(fields)
    {
      hide Valid, Sent, ToBits, FieldBits, Pow2;
      ghost var before := Sent();
      assert before + FieldBits(fields[..0]) == before by { NoFields(before); }
      for i := 0 to |fields|
        invariant Valid() && Sent() == before + FieldBits(fields[..i])
      {
        assert fields[i] in fields && fields[..i + 1] == fields[..i] + [fields[i]];
        SendBits(fields[i].value, fields[i].length);
        FieldBitsAppend(fields[..i], fields[i]);
        Associative(before, FieldBits(fields[..i]), fields[i].Bits());
      }
      assert fields[..|fields|] == fields;
    }

    /** bi_windup: zero bits up to the next byte boundary. */
    method Windup()
      requires Valid()
      modifies this
      ensures Valid() && biValid == biBuf == 0 && Sent() == old(Sent()) + Zeros(Padding(|old(Sent())|))
      ensures ByteBits(out) == Sent()
    {
      hide ToBits, ByteBits, Pow2, Padding, Zeros;
      ghost var bytes, rest := ByteBits(out), ToBits(biBuf, biValid);
      PaddingOf(|out|, biValid);
      if biValid > 8 {
        FitsShort(biBuf, biValid);
        PutShort(biBuf);
        ToBitsPad(biBuf, biValid, 16);
        Cut(bytes, rest, Zeros(16 - biValid), 0);
      } else if biValid > 0 {
        PutByte(biBuf);
        ToBitsPad(biBuf, biValid, 8);
        Cut(bytes, rest, Zeros(8 - biValid), 0);
      } else {
        NoBits(bytes);
      }
      biBuf := 0;
      biValid := 0;
      NoBits(ByteBits(out));
    }

    /** copy_block: a stored block, with its length and the complement of it if asked for. */
    method CopyBlock(buf: seq<Byte>, header: bool)
      requires Valid()
      modifies this
      ensures Valid() && biValid == 0
      ensures Sent() == old(Sent()) + Zeros(Padding(|old(Sent())|)) + (if header then StoredHeader(|buf|) else [])
        + ByteBits(buf)
    {
      hide ToBits, ByteBits, Pow2, Padding, Zeros;
      Windup();
      ghost var sent := Sent();
      if header {
        PutShort(U16(|buf|));
        PutShort(0xFFFF - U16(|buf|));
        Cut(sent, ToBits(U16(|buf|), 16), ToBits(0xFFFF - U16(|buf|), 16), 0);
      } else {
        NoBits(sent);
      }
      ghost var before := out;
      for i := 0 to |buf|
        invariant out == before + buf[..i] && biBuf == biValid == 0
      {
        LowByteIs(buf[i]);
        PutByte(buf[i]);
        assert buf[..i + 1] == buf[..i] + [buf[i]];
      }
      assert out == before + buf;
      ByteBitsAppend(before, buf);
      NoBits(ByteBits(out));
    }
  }

  lemma Halves(p: seq<bool>, s: seq<bool>, n: nat)
    requires n <= |s|
    ensures p + s[..n] + s[n..] == p + s
  {
  }

  lemma PaddingOf(n: nat, k: nat)
    requires k <= BUF_SIZE
    ensures Padding(8 * n + k) == if k > 8 then 16 - k else if k > 0 then 8 - k else 0
  {
  }

  lemma NoBits(s: seq<bool>)
    ensures ToBits(0, 0) == [] == Zeros(0) && Pow2(0) == 1 && s + [] == s
  {
  }

  lemma LowByteIs(b: Byte)
    ensures LowByte(b) == b
  {
    LowBits(b);
    Pow2Values();
    FromTo(b, 8);
    FromTo(LowByte(b), 8);
  }

  lemma FitsShort(v: nat, n: nat)
    requires v < Pow2(n) && n <= 16
    ensures v < 0x10000
  {
    Pow2Values();
    Pow2Grows(n, 16);
  }

  /** The number of bits from n to the next byte boundary. */
  function Padding(n: nat): nat { (8 - n % 8) % 8 }

  /** LEN and NLEN of section 3.2.4 of RFC 1951. */
  function StoredHeader(len: nat): seq<bool> {
    ToBits(U16(len), 16) + ToBits(0xFFFF - U16(len), 16)
  }

  datatype Field = Field(value: nat, length: nat) {
    predicate Fits() { length <= BUF_SIZE && value < Pow2(length) }

    function Bits(): seq<bool> { ToBits(value, length) }
  }

  function FieldBits(fields: seq<Field>): seq<bool> {
    if fields == [] then [] else fields[0].Bits() + FieldBits(fields[1..])
  }

  lemma NoFields(before: seq<bool>)
    ensures before + FieldBits([]) == before
  {
  }

  lemma {:induction false} FieldBitsAppend(fields: seq<Field>, f: Field)
    ensures FieldBits(fields + [f]) == FieldBits(fields) + f.Bits()
  {
    if fields == [] {
      assert fields + [f] == [f] && [f][1..] == [];
    } else {
      FieldBitsAppend(fields[1..], f);
      assert (fields + [f])[1..] == fields[1..] + [f];
    }
  }

  /** bi_reverse. */
  method Reverse(code0: nat, len0: nat) returns (res: nat)
    requires 1 <= len0 <= 15
    ensures ToBits(res, len0) == MsbBits(code0, len0) && res < Pow2(len0)
  {
    hide Or, And, Pow2, ToBits, Msb, Shr, Bit, MsbBits;
    StartReverse(code0);
    var code, len := code0, len0;
    res := 0;
    while true
      invariant 1 <= len <= len0
      invariant code == Shr(code0, len0 - len) && res == 2 * Msb(ToBits(code0, len0 - len))
      decreases len
    {
      BitPutLow(Msb(ToBits(code0, len0 - len)), code);
      ReverseStep(code0, len0 - len);
      res := Or(res, And(code, 1));
      code, res := code / 2, res * 2;
      len := len - 1;
      if !(len > 0) {
        break;
      }
    }
    res := res / 2;
    ToBitsOfMsb(code0, len0);
  }

  lemma StartReverse(code: nat)
    ensures Shr(code, 0) == code && Msb(ToBits(code, 0)) == 0
  {
  }

  lemma ReverseStep(code: nat, m: nat)
    ensures Shr(code, m + 1) == Shr(code, m) / 2
    ensures Msb(ToBits(code, m + 1)) == 2 * Msb(ToBits(code, m)) + if Bit(Shr(code, m)) then 1 else 0
  {
    NextBit(code, m);
    ShrStep(code, m);
    assert ToBits(code, m + 1)[..m] == ToBits(code, m);
  }

  lemma BitPutLow(x: nat, y: nat)
    ensures Or(2 * x, And(y, 1)) == 2 * x + if Bit(y) then 1 else 0
  {
    assert And(y, 1) == if Bit(y) then 1 else 0;
    assert x > 0 ==> Or(x, 0) == x;
  }

  lemma {:induction false} ShrStep(x: nat, n: nat)
    ensures Shr(x, n + 1) == Shr(x, n) / 2
    decreases n
  {
    if n > 0 {
      ShrStep(x / 2, n - 1);
    }
  }
}
