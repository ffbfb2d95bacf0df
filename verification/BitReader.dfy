/** The bit buffer of inflate.c: NEEDBITS and DUMPBITS. */
module BitReader {
  import opened BitIo
  import opened BitWriter

  class Reader {
    const input: seq<Byte>
    var inptr: nat
    var bb: nat
    var bk: nat

    /** The buffer holds the last bk bits of the bytes taken so far, and with bk below 24 it fits into 32 bits. */
    ghost predicate Valid()
      reads this
    {
      && inptr <= |input| && bk < 24 && bb < Pow2(bk) && bk <= 8 * inptr
      && Stream() == ByteBits(input)[8 * inptr - bk..]
    }

    /** The bits that are still to be read. */
    ghost function Stream(): seq<bool>
      reads this
    {
      ToBits(bb, bk) + if inptr <= |input| then ByteBits(input[inptr..]) else []
    }

    constructor (input: seq<Byte>)
      ensures Valid() && this.input == input && Stream() == ByteBits(input) && inptr == bk == 0
    {
      this.input := input;
      inptr, bb, bk := 0, 0, 0;
      new;
      assert input[0..] == input;
    }

    /** NEEDBITS: fails only at the end of the input, and only if there are too few bits. */
    method NeedBits(n: nat) returns (ok: bool)
      requires Valid() && n <= 16
      modifies this`inptr, this`bb, this`bk
      ensures Valid() && Stream() == old(Stream())
      ensures ok <==> n <= |Stream()|
      ensures ok ==> n <= bk
      ensures bk - old(bk) == 8 * (inptr - old(inptr)) >= 0 && (bk < n + 8 || bk == old(bk))
    {
      hide ToBits, Pow2, Or, ByteBits;
      ghost var stream, at := Stream(), 8 * inptr - bk;
      ghost var k := bk;
      while bk < n
        invariant inptr <= |input| && bk < 24 && bb < Pow2(bk) && at == 8 * inptr - bk
        invariant ToBits(bb, bk) + ByteBits(input[inptr..]) == stream && k <= bk && (bk < n + 8 || bk == k)
        decreases n - bk
      {
        if inptr == |input| {
          AllRead(input);
          ok := false;
          return;
        }
        AppendByte(bb, bk, input, inptr);
        bb := Or(bb, Pow2(bk) * input[inptr]);
        inptr := inptr + 1;
        bk := bk + 8;
      }
      ok := true;
    }

    /** b & mask_bits[n]. */
    method Peek(n: nat) returns (v: nat)
      requires Valid() && n <= bk
      ensures n <= |Stream()| && v == FromBits(Stream()[..n])
    {
      AndMask(bb, n);
      ToBitsPrefix(bb, n, bk);
      v := And(bb, Pow2(n) - 1);
      Front(ToBits(bb, bk), ByteBits(input[inptr..]), n);
    }

    method DumpBits(n: nat)
      requires Valid() && n <= bk
      modifies this`bb, this`bk
      ensures Valid() && n <= |old(Stream())| && Stream() == old(Stream())[n..] && bk == old(bk) - n
    {
      ShrBits(bb, n, bk);
      Front(ToBits(bb, bk), ByteBits(input[inptr..]), n);
      Later(ByteBits(input), 8 * inptr - bk, n);
      bb := Shr(bb, n);
      bk := bk - n;
    }

    /** Gives back the bytes that have been taken but not used; the rest of a byte in use is dropped. */
    method GiveBack()
      requires Valid()
      modifies this`inptr, this`bk
      ensures inptr <= |input| && ByteBits(input[inptr..]) == old(Stream())[|old(Stream())| % 8..]
    {
      hide ToBits, Pow2, ByteBits;
      ghost var at := 8 * inptr - bk;
      ghost var stream := ByteBits(input)[at..];
      while bk >= 8
        invariant inptr <= |input| && 8 * inptr - bk == at >= 0
        decreases bk
      {
        bk := bk - 8;
        inptr := inptr - 1;
      }
      ByteBitsDrop(input, inptr);
      Later(ByteBits(input), at, bk);
      Whole(|input| - inptr, bk);
      assert |stream| == 8 * (|input| - inptr) + bk;
    }

    /** The three together. */
    method GetBits(n: nat) returns (ok: bool, v: nat)
      requires Valid() && n <= 16
      modifies this`inptr, this`bb, this`bk
      ensures Valid() && (ok <==> n <= |old(Stream())|)
      ensures ok ==> v == FromBits(old(Stream())[..n]) && Stream() == old(Stream())[n..] && v < Pow2(n)
      ensures ok ==> ToBits(v, n) == old(Stream())[..n]
      ensures !ok ==> Stream() == old(Stream())
    {
      hide ToBits, Pow2, ByteBits, FromBits;
      ok := NeedBits(n);
      v := 0;
      if ok {
        v := Peek(n);
        ToFrom(Stream()[..n]);
        DumpBits(n);
      }
    }
  }

  lemma ByteBitsDrop(input: seq<Byte>, n: nat)
    requires n <= |input|
    ensures ByteBits(input[n..]) == ByteBits(input)[8 * n..]
  {
    assert input == input[..n] + input[n..];
    ByteBitsAppend(input[..n], input[n..]);
  }

  lemma Whole(a: nat, k: nat)
    requires k < 8
    ensures (8 * a + k) % 8 == k
  {
  }

  lemma Later(s: seq<bool>, i: nat, j: nat)
    requires i + j <= |s|
    ensures s[i..][j..] == s[i + j..]
  {
  }

  lemma AllRead(input: seq<Byte>)
    ensures ByteBits(input[|input|..]) == []
  {
  }

  lemma Front(a: seq<bool>, b: seq<bool>, n: nat)
    requires n <= |a|
    ensures (a + b)[..n] == a[..n] && (a + b)[n..] == a[n..] + b
  {
  }

  lemma AppendByte(bb: nat, bk: nat, input: seq<Byte>, i: nat)
    requires bb < Pow2(bk) && i < |input|
    ensures
      var b := Or(bb, Pow2(bk) * input[i]);
      b < Pow2(bk + 8) && ToBits(b, bk + 8) + ByteBits(input[i + 1..]) == ToBits(bb, bk) + ByteBits(input[i..])
  {
    OrAbove(bb, bk, input[i]);
    assert input[i] < Pow2(8) by { Pow2Values(); }
    ToBitsAppend(bb, bk, input[i], 8);
    FirstByte(input, i);
    Associative(ToBits(bb, bk), ToBits(input[i], 8), ByteBits(input[i + 1..]));
  }

  lemma FirstByte(input: seq<Byte>, i: nat)
    requires i < |input|
    ensures ByteBits(input[i..]) == ToBits(input[i], 8) + ByteBits(input[i + 1..])
  {
    assert input[i..][1..] == input[i + 1..];
  }

  /** Reads a list of fields back. */
  method ReadAll(r: Reader, lengths: seq<nat>, ghost fields: seq<Field>, ghost rest: seq<bool>)
    returns (values: seq<nat>)
    requires r.Valid() && |lengths| == |fields| && r.Stream() == FieldBits(fields) + rest
    requires forall i :: 0 <= i < |fields| ==> fields[i].Fits() && lengths[i] == fields[i].length
    modifies r
    ensures r.Valid() && r.Stream() == rest
    ensures |values| == |fields| && forall i :: 0 <= i < |fields| ==> values[i] == fields[i].value
  {
    hide ToBits, Pow2, ByteBits, FromBits;
    values := [];
    for i := 0 to |lengths|
      invariant r.Valid() && r.Stream() == FieldBits(fields[i..]) + rest
      invariant |values| == i && forall j :: 0 <= j < i ==> values[j] == fields[j].value
    {
      FirstField(fields, i, rest);
      FromTo(fields[i].value, fields[i].length);
      var ok, v := r.GetBits(lengths[i]);
      values := values + [v];
    }
    assert fields[|fields|..] == [];
  }

  lemma FirstField(fields: seq<Field>, i: nat, rest: seq<bool>)
    requires i < |fields|
    ensures
      var all, n := FieldBits(fields[i..]) + rest, fields[i].length;
      n <= |all| && all[..n] == ToBits(fields[i].value, n) && all[n..] == FieldBits(fields[i + 1..]) + rest
  {
    hide ToBits;
    assert fields[i..][1..] == fields[i + 1..];
  }

  /** What is sent by send_bits and bi_windup reads back as it was. */
  method FieldsRoundTrip(fields: seq<Field>, lengths: seq<nat>) returns (values: seq<nat>)
    requires |lengths| == |fields|
    requires forall i :: 0 <= i < |fields| ==> fields[i].Fits() && lengths[i] == fields[i].length
    ensures |values| == |fields| && forall i :: 0 <= i < |fields| ==> values[i] == fields[i].value
  {
    hide ToBits, FieldBits, ByteBits, Pow2, Padding, Zeros;
    var w := new Writer();
    w.SendAll(fields);
    ghost var sent := w.Sent();
    assert sent == FieldBits(fields);
    w.Windup();
    var r := new Reader(w.out);
    values := ReadAll(r, lengths, fields, Zeros(Padding(|sent|)));
  }
}
