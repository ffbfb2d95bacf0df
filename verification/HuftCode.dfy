/** Codes by their counts per length: the order in which huft_build meets them, and how a bit string finds its code
    without any table. */
module HuftCode {
  import opened BitIo

  /** The first code of length k, if there are c[j] codes of each length j. */
  function First(c: seq<nat>, k: nat): nat
    requires k <= |c|
  {
    if k <= 1 then 0 else 2 * (First(c, k - 1) + c[k - 1])
  }

  /** The codes of length up to k take up the first Upto(k) of the 2^k bit strings of length k. */
  function Upto(c: seq<nat>, k: nat): nat
    requires 1 <= k < |c|
  {
    First(c, k) + c[k]
  }

  ghost predicate Complete(c: seq<nat>, g: nat) {
    1 <= g < |c| && c[g] >= 1 && Upto(c, g) == Pow2(g)
  }

  datatype Code = NoCode | Code(len: nat, rank: nat)

  /** The first length at which the bits of x are below the end of the codes of that length. */
  function Scan(c: seq<nat>, g: nat, x: seq<bool>, k: nat): Code
    requires 1 <= k && g < |c| && g <= |x|
    decreases g + 1 - k
  {
    if k > g then NoCode
    else if First(c, k) <= Msb(x[..k]) < Upto(c, k) then Code(k, Msb(x[..k]) - First(c, k))
    else Scan(c, g, x, k + 1)
  }

  lemma MsbNext(x: seq<bool>, k: nat)
    requires k < |x|
    ensures Msb(x[..k + 1]) == 2 * Msb(x[..k]) + if x[k] then 1 else 0
  {
    assert x[..k + 1][..k] == x[..k];
  }

  /** A bit string in the range of the codes of length k is in no range of a shorter length. */
  lemma {:induction false} ScanFinds(c: seq<nat>, g: nat, x: seq<bool>, j: nat, k: nat)
    requires 1 <= j <= k <= g < |c| && g <= |x| && First(c, k) <= Msb(x[..k]) < Upto(c, k)
    ensures Scan(c, g, x, j) == Code(k, Msb(x[..k]) - First(c, k))
    decreases k - j
  {
    if j < k {
      PastShorter(c, x, j, k);
      ScanFinds(c, g, x, j + 1, k);
    }
  }

  lemma {:induction false} PastShorter(c: seq<nat>, x: seq<bool>, j: nat, k: nat)
    requires 1 <= j < k < |c| && k <= |x| && First(c, k) <= Msb(x[..k])
    ensures Upto(c, j) <= Msb(x[..j])
    decreases k - j
  {
    MsbNext(x, k - 1);
    if j + 1 < k {
      PastShorter(c, x, j, k - 1);
    }
  }

  lemma {:induction false} UptoFits(c: seq<nat>, k: nat, g: nat)
    requires 1 <= k <= g && Complete(c, g)
    ensures Upto(c, k) <= Pow2(k) && First(c, k) < Pow2(k) && (k < g ==> Upto(c, k) < Pow2(k))
    decreases g - k
  {
    if k < g {
      UptoNext(c, k, g);
    }
  }

  lemma {:induction false} UptoNext(c: seq<nat>, k: nat, g: nat)
    requires 1 <= k < g && Complete(c, g)
    ensures Upto(c, k) < Pow2(k)
    decreases g - k
  {
    if k + 1 < g {
      UptoNext(c, k + 1, g);
    }
  }

  /** Comparing with the bits of length k. */
  lemma {:induction false} MsbPrefix(x: seq<bool>, y: seq<bool>)
    requires |y| <= |x| && Msb(x[..|y|]) == Msb(y)
    ensures y <= x
  {
    BitsOfMsb(y);
    BitsOfMsb(x[..|y|]);
  }

  // ----- blocks: the bit strings that start with a given prefix

  lemma InBlock(x: seq<bool>, w: nat, m: nat)
    requires w <= m <= |x|
    ensures Msb(x[..w]) * Pow2(m - w) <= Msb(x[..m]) < (Msb(x[..w]) + 1) * Pow2(m - w)
  {
    assert x[..m] == x[..w] + x[w..m];
    MsbAppend(x[..w], x[w..m]);
    OneMore(Msb(x[..w]), Pow2(m - w));
  }

  lemma OneMore(a: nat, b: nat)
    ensures (a + 1) * b == a * b + b
  {
  }

  ghost predicate AllZero(s: seq<bool>) { forall i :: 0 <= i < |s| ==> !s[i] }

  lemma {:induction false} MsbZeros(s: seq<bool>)
    requires AllZero(s)
    ensures Msb(s) == 0
  {
    if s != [] {
      MsbZeros(s[..|s| - 1]);
    }
  }

  lemma {:induction false} FromZeros(s: seq<bool>)
    requires AllZero(s)
    ensures FromBits(s) == 0
  {
    if s != [] {
      FromZeros(s[1..]);
    }
  }

  /** The start of a block. */
  lemma BlockStart(x: seq<bool>, w: nat)
    requires w <= |x| && AllZero(x[w..])
    ensures Msb(x) == Msb(x[..w]) * Pow2(|x| - w)
  {
    hide Msb, Pow2;
    assert x == x[..w] + x[w..];
    MsbAppend(x[..w], x[w..]);
    MsbZeros(x[w..]);
  }

  lemma {:induction false} ZeroTail(x: seq<bool>, w: nat)
    requires w <= |x| && AllZero(x[w..])
    ensures FromBits(x) == FromBits(x[..w])
  {
    if w == 0 {
      assert x[0..] == x;
      FromZeros(x);
    } else {
      assert x[1..][w - 1..] == x[w..];
      ZeroTail(x[1..], w - 1);
      assert x[..w][1..] == x[1..][..w - 1];
    }
  }

  /** A table of j bits for the prefix pr can serve all codes in its block, or the next level of tables starts inside
      it. */
  ghost predicate Sized(c: seq<nat>, g: nat, l: nat, pr: seq<bool>, j: nat)
    requires g < |c|
  {
    && 1 <= j && |pr| + j <= g
    && (j >= l || |pr| + j == g || (Msb(pr) + 1) * Pow2(j) <= Upto(c, |pr| + j))
  }

  /** The root table has l bits at least. */
  lemma RootSize(c: seq<nat>, g: nat, l: nat, j: nat)
    requires Complete(c, g) && l <= g && Sized(c, g, l, [], j)
    ensures j >= l
  {
    if j < g {
      UptoFits(c, j, g);
    }
  }

  lemma FitsTable(c: seq<nat>, g: nat, l: nat, pr: seq<bool>, j: nat, code: seq<bool>)
    requires g < |c| && Sized(c, g, l, pr, j) && |code| <= g && pr <= code && First(c, |code|) <= Msb(code)
    ensures |code| <= |pr| + j || j >= l
  {
    hide Msb, Pow2, First;
    assert code[..|pr|] == pr;
    var m := |pr| + j;
    if |code| > m && j < l {
      assert code[..|code|] == code;
      PastShorter(c, code, m, |code|);
      InBlock(code, |pr|, m);
    }
  }

  /** The codes of length k and less reach beyond the number e; seen at length m they reach beyond the block of e. */
  lemma {:induction false} UptoReaches(c: seq<nat>, k: nat, m: nat, e: nat)
    requires 1 <= k <= m < |c| && e < Upto(c, k)
    ensures e * Pow2(m - k) < Upto(c, m)
    decreases m - k
  {
    if k < m {
      UptoReaches(c, k, m - 1, e);
      TwiceRight(e, Pow2(m - 1 - k));
    }
  }

  /** Of two neighbouring codes only the first is in the block of pr: then all of the block lies before the second. */
  lemma PastBlock(code: seq<bool>, next: seq<bool>, pr: seq<bool>, x: seq<bool>)
    requires |code| == |next| <= |x| && Msb(next) == Msb(code) + 1
    requires pr <= code && !(pr <= next) && pr <= x
    ensures Msb(x[..|next|]) < Msb(next)
  {
    hide Msb, Pow2;
    var k, w := |code|, |pr|;
    assert code[..k] == code && next[..k] == next && code[..w] == pr && x[..w] == pr;
    InBlock(code, w, k);
    InBlock(next, w, k);
    InBlock(x, w, k);
    if Msb(next[..w]) == Msb(pr) {
      MsbPrefix(next, pr);
    }
    BlocksApart(Msb(next[..w]), Msb(pr), Pow2(k - w), Msb(code));
  }

  lemma BlocksApart(b: nat, a: nat, size: nat, code: nat)
    requires b != a && b * size <= code + 1 < (b + 1) * size && a * size <= code
    ensures (a + 1) * size <= b * size
  {
    if b < a {
      Multiples(size, b + 1, a);
    } else {
      Multiples(size, a + 1, b);
    }
  }

  /** The bits of the next code: a zero turns into a one, and zeros follow. */
  lemma {:induction false} SuccBits(v: nat, n: nat) returns (m: nat)
    requires v + 1 < Pow2(n)
    ensures m < n && !MsbBits(v, n)[m] && MsbBits(v + 1, n)[..m] == MsbBits(v, n)[..m] && MsbBits(v + 1, n)[m]
    ensures AllZero(MsbBits(v + 1, n)[m + 1..])
    ensures forall i :: m < i < n ==> MsbBits(v, n)[i]
  {
    if v % 2 == 0 {
      m := n - 1;
    } else {
      m := SuccBits(v / 2, n - 1);
    }
  }
}
