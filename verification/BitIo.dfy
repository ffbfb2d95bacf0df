/** Numbers as bit strings, first bit lowest (section 3.1.1 of RFC 1951), and bytes as bit strings. */
module BitIo {
  type Byte = x: nat | x < 256

  function Pow2(n: nat): (p: nat)
    ensures p >= 1
  {
    if n == 0 then 1 else 2 * Pow2(n - 1)
  }

  lemma Pow2Add(m: nat, n: nat)
    ensures Pow2(m + n) == Pow2(m) * Pow2(n)
  {
    if m > 0 {
      Pow2Add(m - 1, n);
      Twice(Pow2(m - 1), Pow2(n));
    }
  }

  lemma Twice(a: nat, b: nat)
    ensures (2 * a) * b == 2 * (a * b)
  {
  }

  lemma TwiceRight(a: nat, b: nat)
    ensures a * (2 * b) == 2 * (a * b)
  {
  }

  lemma Pow2Grows(m: nat, n: nat)
    requires m <= n
    ensures Pow2(m) <= Pow2(n)
    decreases n
  {
    if m < n {
      Pow2Grows(m, n - 1);
    }
  }

  // ----- bit strings

  function Bit(x: nat): bool { x % 2 == 1 }

  /** The lowest n bits of v. */
  function ToBits(v: nat, n: nat): (s: seq<bool>)
    ensures |s| == n
  {
    if n == 0 then [] else [Bit(v)] + ToBits(v / 2, n - 1)
  }

  function FromBits(s: seq<bool>): (v: nat)
    ensures v < Pow2(|s|)
  {
    if s == [] then 0 else (if s[0] then 1 else 0) + 2 * FromBits(s[1..])
  }

  lemma {:induction false} ToFrom(s: seq<bool>)
    ensures ToBits(FromBits(s), |s|) == s
  {
    if s != [] {
      ToFrom(s[1..]);
      assert s == [s[0]] + s[1..];
    }
  }

  lemma {:induction false} FromTo(v: nat, n: nat)
    requires v < Pow2(n)
    ensures FromBits(ToBits(v, n)) == v
  {
    if n > 0 {
      FromTo(v / 2, n - 1);
      assert ToBits(v, n)[1..] == ToBits(v / 2, n - 1);
    }
  }

  lemma FromBitsUnique(s: seq<bool>, t: seq<bool>)
    requires |s| == |t| && FromBits(s) == FromBits(t)
    ensures s == t
  {
    ToFrom(s);
    ToFrom(t);
  }

  lemma {:induction false} FromBitsAppend(s: seq<bool>, t: seq<bool>)
    ensures FromBits(s + t) == FromBits(s) + Pow2(|s|) * FromBits(t)
  {
    if s == [] {
      assert s + t == t;
    } else {
      FromBitsAppend(s[1..], t);
      assert (s + t)[1..] == s[1..] + t;
      Twice(Pow2(|s| - 1), FromBits(t));
    }
  }

  lemma ToBitsAppend(v: nat, m: nat, w: nat, n: nat)
    requires v < Pow2(m) && w < Pow2(n)
    ensures ToBits(v + Pow2(m) * w, m + n) == ToBits(v, m) + ToBits(w, n)
    ensures v + Pow2(m) * w < Pow2(m + n)
  {
    var s, t := ToBits(v, m), ToBits(w, n);
    FromTo(v, m);
    FromTo(w, n);
    FromBitsAppend(s, t);
    ToFrom(s + t);
  }

  // ----- | and & as C computes them

  function Or(x: nat, y: nat): nat
    decreases x + y
  {
    if x == 0 then y else if y == 0 then x
    else (if Bit(x) || Bit(y) then 1 else 0) + 2 * Or(x / 2, y / 2)
  }

  function And(x: nat, y: nat): nat
    decreases x
  {
    if x == 0 || y == 0 then 0 else (if Bit(x) && Bit(y) then 1 else 0) + 2 * And(x / 2, y / 2)
  }

  function Xor(x: nat, y: nat): nat
    decreases x + y
  {
    if x == 0 then y else if y == 0 then x
    else (if Bit(x) != Bit(y) then 1 else 0) + 2 * Xor(x / 2, y / 2)
  }

  /** The highest of m + 1 bits: testing it, and turning it over. */
  lemma {:induction false} TopBit(x: nat, m: nat)
    requires x < Pow2(m + 1)
    ensures And(x, Pow2(m)) == if x >= Pow2(m) then Pow2(m) else 0
    ensures Xor(x, Pow2(m)) == if x >= Pow2(m) then x - Pow2(m) else x + Pow2(m)
  {
    if m > 0 && x > 0 {
      TopBit(x / 2, m - 1);
    }
  }

  /** Bits put above all bits that are set are simply added. */
  lemma {:induction false} OrAbove(x: nat, n: nat, y: nat)
    requires x < Pow2(n)
    ensures Or(x, Pow2(n) * y) == x + Pow2(n) * y
  {
    if n > 0 && x > 0 && y > 0 {
      Twice(Pow2(n - 1), y);
      OrAbove(x / 2, n - 1, y);
    }
  }

  lemma {:induction false} AndMask(x: nat, n: nat)
    ensures And(x, Pow2(n) - 1) == FromBits(ToBits(x, n))
  {
    if n > 0 {
      AndMask(x / 2, n - 1);
      assert ToBits(x, n)[1..] == ToBits(x / 2, n - 1);
      assert (Pow2(n) - 1) / 2 == Pow2(n - 1) - 1;
      if x == 0 {
        AndMask(0, n - 1);
      }
    }
  }

  /** x >> n. */
  function Shr(x: nat, n: nat): nat
    decreases n
  {
    if n == 0 then x else Shr(x / 2, n - 1)
  }

  lemma {:induction false} ShrBits(x: nat, n: nat, k: nat)
    requires n <= k && x < Pow2(k)
    ensures ToBits(Shr(x, n), k - n) == ToBits(x, k)[n..] && Shr(x, n) < Pow2(k - n)
    decreases n
  {
    if n > 0 {
      ShrBits(x / 2, n - 1, k - 1);
      assert ToBits(x, k)[n..] == ToBits(x / 2, k - 1)[n - 1..];
    }
  }

  // ----- bytes

  function ByteBits(bytes: seq<Byte>): (s: seq<bool>)
    ensures |s| == 8 * |bytes|
  {
    if bytes == [] then [] else ToBits(bytes[0], 8) + ByteBits(bytes[1..])
  }

  lemma Associative(a: seq<bool>, b: seq<bool>, c: seq<bool>)
    ensures (a + b) + c == a + (b + c)
  {
  }

  lemma {:induction false} ByteBitsAppend(a: seq<Byte>, b: seq<Byte>)
    ensures ByteBits(a + b) == ByteBits(a) + ByteBits(b)
  {
    if a == [] {
      assert a + b == b;
    } else {
      hide ToBits;
      ByteBitsAppend(a[1..], b);
      assert (a + b)[1..] == a[1..] + b;
      Associative(ToBits(a[0], 8), ByteBits(a[1..]), ByteBits(b));
    }
  }

  /** Whole bytes of bits are the bits of bytes. */
  lemma {:induction false} ToBytes(bits: seq<bool>) returns (bytes: seq<Byte>)
    requires |bits| % 8 == 0
    ensures ByteBits(bytes) == bits
    decreases |bits|
  {
    if bits == [] {
      bytes := [];
    } else {
      var more := ToBytes(bits[8..]);
      ToFrom(bits[..8]);
      assert Pow2(8) == 256 by { Pow2Values(); }
      bytes := [FromBits(bits[..8])] + more;
      assert bytes[1..] == more && bits == bits[..8] + bits[8..];
    }
  }

  lemma {:induction false} ToBitsPrefix(v: nat, n: nat, m: nat)
    requires n <= m
    ensures ToBits(v, m)[..n] == ToBits(v, n)
    decreases n
  {
    if n > 0 {
      ToBitsPrefix(v / 2, n - 1, m - 1);
      assert ToBits(v, m)[..n] == [Bit(v)] + ToBits(v / 2, m - 1)[..n - 1];
    }
  }

  function Zeros(n: nat): (s: seq<bool>)
    ensures |s| == n
  {
    if n == 0 then [] else [false] + Zeros(n - 1)
  }

  lemma {:induction false} ToBitsPad(v: nat, n: nat, m: nat)
    requires v < Pow2(n) && n <= m
    ensures ToBits(v, m) == ToBits(v, n) + Zeros(m - n)
    decreases m
  {
    if n > 0 {
      ToBitsPad(v / 2, n - 1, m - 1);
    } else if m > 0 {
      ToBitsPad(0, 0, m - 1);
    }
  }

  lemma Pow2Values()
    ensures Pow2(1) == 2 && Pow2(3) == 8 && Pow2(8) == 256 && Pow2(16) == 0x10000
  {
    assert Pow2(4) == 16;
    assert Pow2(8) == 16 * Pow2(4);
    assert Pow2(12) == 16 * Pow2(8);
    assert Pow2(16) == 16 * Pow2(12);
  }

  /** (ush)x, and the low byte of x. */
  function U16(x: nat): (y: nat)
    ensures y < 0x10000
  {
    AndMask(x, 16);
    Pow2Values();
    And(x, 0xFFFF)
  }

  function LowByte(x: nat): Byte {
    AndMask(x, 8);
    Pow2Values();
    And(x, 0xFF)
  }

  lemma LowBits(x: nat)
    ensures ToBits(U16(x), 16) == ToBits(x, 16) && ToBits(LowByte(x), 8) == ToBits(x, 8)
  {
    AndMask(x, 16);
    AndMask(x, 8);
    Pow2Values();
    ToFrom(ToBits(x, 16));
    ToFrom(ToBits(x, 8));
  }

  // ----- first bit highest, the order of Huffman codes

  function MsbBits(v: nat, n: nat): (s: seq<bool>)
    ensures |s| == n
  {
    if n == 0 then [] else MsbBits(v / 2, n - 1) + [Bit(v)]
  }

  function Msb(s: seq<bool>): (v: nat)
    ensures v < Pow2(|s|)
  {
    if s == [] then 0 else 2 * Msb(s[..|s| - 1]) + if s[|s| - 1] then 1 else 0
  }

  lemma {:induction false} MsbOfBits(v: nat, n: nat)
    requires v < Pow2(n)
    ensures Msb(MsbBits(v, n)) == v
  {
    if n > 0 {
      MsbOfBits(v / 2, n - 1);
      assert MsbBits(v, n)[..n - 1] == MsbBits(v / 2, n - 1);
    }
  }

  lemma {:induction false} BitsOfMsb(s: seq<bool>)
    ensures MsbBits(Msb(s), |s|) == s
  {
    if s != [] {
      BitsOfMsb(s[..|s| - 1]);
    }
  }

  lemma MsbScaled(a: nat, p: nat, b: nat, c: nat)
    ensures 2 * (a * p + b) + c == a * (2 * p) + (2 * b + c)
  {
    TwiceRight(a, p);
  }

  lemma {:induction false} MsbAppend(s: seq<bool>, t: seq<bool>)
    ensures Msb(s + t) == Msb(s) * Pow2(|t|) + Msb(t)
    decreases |t|
  {
    if t == [] {
      assert s + t == s;
    } else {
      var u := t[..|t| - 1];
      assert (s + t)[..|s + t| - 1] == s + u;
      MsbAppend(s, u);
      MsbScaled(Msb(s), Pow2(|u|), Msb(u), if t[|u|] then 1 else 0);
    }
  }

  /** Reading a bit string from the other end. */
  lemma {:induction false} ToBitsOfMsb(v: nat, n: nat)
    ensures ToBits(Msb(ToBits(v, n)), n) == MsbBits(v, n)
  {
    if n > 0 {
      var t := ToBits(v / 2, n - 1);
      ToBitsOfMsb(v / 2, n - 1);
      MsbCons(Bit(v), t);
      ToBitsTop(Msb(t), n - 1, Bit(v));
    }
  }

  lemma {:induction false} MsbCons(b: bool, t: seq<bool>)
    ensures Msb([b] + t) == Msb(t) + if b then Pow2(|t|) else 0
  {
    if t == [] {
      assert [b] + t == [b] && [b][..0] == t;
    } else {
      var u := t[..|t| - 1];
      assert ([b] + t)[..|t|] == [b] + u;
      MsbCons(b, u);
    }
  }

  lemma {:induction false} ToBitsTop(v: nat, n: nat, b: bool)
    requires v < Pow2(n)
    ensures ToBits(v + (if b then Pow2(n) else 0), n + 1) == ToBits(v, n) + [b]
  {
    if n > 0 {
      ToBitsTop(v / 2, n - 1, b);
    }
  }

  lemma {:induction false} NextBit(v: nat, n: nat)
    ensures ToBits(v, n + 1) == ToBits(v, n) + [Bit(Shr(v, n))]
  {
    if n > 0 {
      NextBit(v / 2, n - 1);
    }
  }

  // ----- numbers with the same low bits

  lemma {:induction false} Decompose(v: nat, n: nat)
    ensures v == FromBits(ToBits(v, n)) + Pow2(n) * Shr(v, n)
  {
    if n > 0 {
      Decompose(v / 2, n - 1);
      assert ToBits(v, n)[1..] == ToBits(v / 2, n - 1);
      Twice(Pow2(n - 1), Shr(v, n));
    }
  }

  lemma {:induction false} BelowPow(n: nat)
    ensures n < Pow2(n)
  {
    if n > 0 {
      BelowPow(n - 1);
    }
  }

  /** The n-th number whose low bits are s. */
  function Stride(s: seq<bool>, n: nat): nat {
    FromBits(s) + Pow2(|s|) * n
  }

  lemma StrideHas(s: seq<bool>, n: nat)
    ensures ToBits(Stride(s, n), |s|) == s && Stride(s, n + 1) == Stride(s, n) + Pow2(|s|)
  {
    hide ToBits, FromBits, Pow2;
    BelowPow(n);
    FromTo(n, n);
    FromBitsAppend(s, ToBits(n, n));
    ToFrom(s + ToBits(n, n));
    ToBitsPrefix(Stride(s, n), |s|, |s| + n);
    assert (s + ToBits(n, n))[..|s|] == s;
    NextMultiple(Pow2(|s|), n);
  }

  lemma NextMultiple(p: nat, n: nat)
    ensures p * (n + 1) == p * n + p
  {
  }

  /** Between two neighbouring strides no number has these low bits. */
  lemma StrideOnly(s: seq<bool>, n: nat, m: nat)
    requires ToBits(m, |s|) == s && m < Stride(s, n + 1)
    ensures m <= Stride(s, n)
  {
    Decompose(m, |s|);
    if Shr(m, |s|) > n {
      Multiples(Pow2(|s|), n + 1, Shr(m, |s|));
    }
    Multiples(Pow2(|s|), if Shr(m, |s|) <= n then Shr(m, |s|) else n, n);
  }

  lemma Multiples(p: nat, a: nat, b: nat)
    requires a <= b
    ensures p * a <= p * b
  {
  }
}
