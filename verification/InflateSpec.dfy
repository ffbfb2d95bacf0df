/** What the bits of a compressed block stand for (sections 3.2.4 to 3.2.7 of RFC 1951). */
module InflateSpec {
  import opened BitIo
  import opened Huffman
  import opened Lz77

  const CPLENS: seq<nat> := [3, 4, 5, 6, 7, 8, 9, 10, 11, 13, 15, 17, 19, 23, 27, 31,
                             35, 43, 51, 59, 67, 83, 99, 115, 131, 163, 195, 227, 258, 0, 0]
  const CPLEXT: seq<nat> := [0, 0, 0, 0, 0, 0, 0, 0, 1, 1, 1, 1, 2, 2, 2, 2,
                             3, 3, 3, 3, 4, 4, 4, 4, 5, 5, 5, 5, 0, 99, 99]
  const CPDIST: seq<nat> := [1, 2, 3, 4, 5, 7, 9, 13, 17, 25, 33, 49, 65, 97, 129, 193,
                             257, 385, 513, 769, 1025, 1537, 2049, 3073, 4097, 6145,
                             8193, 12289, 16385, 24577]
  const CPDEXT: seq<nat> := [0, 0, 0, 0, 1, 1, 2, 2, 3, 3, 4, 4, 5, 5, 6, 6,
                             7, 7, 8, 8, 9, 9, 10, 10, 11, 11, 12, 12, 13, 13]

  const END_BLOCK: nat := 256

  /** The longest code: with as many bits behind a block, no look-up reads behind the input. */
  const LOOKAHEAD: nat := 15

  // ----- items

  /** A literal, or a length symbol and a distance symbol with their extra bits. */
  datatype Item = Lit(sym: nat) | Copy(lsym: nat, lx: nat, dsym: nat, dx: nat)

  predicate HasCode(b: seq<nat>, s: nat) { s < |b| && b[s] > 0 }

  predicate ItemOk(ll: seq<nat>, dl: seq<nat>, it: Item) {
    match it
    case Lit(sym) => sym < 256 && HasCode(ll, sym)
    case Copy(lsym, lx, dsym, dx) =>
      && 257 <= lsym < 286 && HasCode(ll, lsym) && lx < Pow2(CPLEXT[lsym - 257])
      && dsym < 30 && HasCode(dl, dsym) && dx < Pow2(CPDEXT[dsym])
  }

  function LengthBits(ll: seq<nat>, lsym: nat, lx: nat): seq<bool>
    requires 257 <= lsym < 286 && HasCode(ll, lsym)
  {
    CodeBits(ll, lsym) + ToBits(lx, CPLEXT[lsym - 257])
  }

  function DistBits(dl: seq<nat>, dsym: nat, dx: nat): seq<bool>
    requires dsym < 30 && HasCode(dl, dsym)
  {
    CodeBits(dl, dsym) + ToBits(dx, CPDEXT[dsym])
  }

  function ItemBits(ll: seq<nat>, dl: seq<nat>, it: Item): seq<bool>
    requires ItemOk(ll, dl, it)
  {
    match it
    case Lit(sym) => CodeBits(ll, sym)
    case Copy(lsym, lx, dsym, dx) => LengthBits(ll, lsym, lx) + DistBits(dl, dsym, dx)
  }

  predicate ItemsOk(ll: seq<nat>, dl: seq<nat>, its: seq<Item>) {
    forall i :: 0 <= i < |its| ==> ItemOk(ll, dl, its[i])
  }

  function ItemsBits(ll: seq<nat>, dl: seq<nat>, its: seq<Item>): seq<bool>
    requires ItemsOk(ll, dl, its)
  {
    if its == [] then [] else ItemBits(ll, dl, its[0]) + ItemsBits(ll, dl, its[1..])
  }

  lemma {:induction false} ItemsAppend(ll: seq<nat>, dl: seq<nat>, its: seq<Item>, it: Item)
    requires ItemsOk(ll, dl, its) && ItemOk(ll, dl, it)
    ensures ItemsOk(ll, dl, its + [it])
    ensures ItemsBits(ll, dl, its + [it]) == ItemsBits(ll, dl, its) + ItemBits(ll, dl, it)
  {
    hide ItemOk, ItemBits;
    if its == [] {
      assert its + [it] == [it] && [it][1..] == [];
    } else {
      assert (its + [it])[1..] == its[1..] + [it];
      ItemsAppend(ll, dl, its[1..], it);
      Associative(ItemBits(ll, dl, its[0]), ItemsBits(ll, dl, its[1..]), ItemBits(ll, dl, it));
    }
  }

  function Length(lsym: nat, lx: nat): nat
    requires 257 <= lsym < 286
  {
    CPLENS[lsym - 257] + lx
  }

  function Distance(dsym: nat, dx: nat): nat
    requires dsym < 30
  {
    CPDIST[dsym] + dx
  }

  lemma SmallPowers()
    ensures Pow2(0) == 1 && Pow2(1) == 2 && Pow2(2) == 4 && Pow2(3) == 8
    ensures Pow2(4) == 16 && Pow2(5) == 32 && Pow2(6) == 64
  {
    assert Pow2(2) == 4;
    assert Pow2(4) == 16;
  }

  lemma LargePowers()
    ensures Pow2(7) == 128 && Pow2(8) == 256 && Pow2(9) == 512 && Pow2(10) == 1024 && Pow2(11) == 2048
    ensures Pow2(12) == 4096 && Pow2(13) == 8192
  {
    SmallPowers();
    assert Pow2(8) == 4 * Pow2(6);
    assert Pow2(10) == 4 * Pow2(8);
    assert Pow2(12) == 4 * Pow2(10);
  }

  /** The lengths (section 3.2.5 of RFC 1951): from 3 on without a gap and without an overlap, with one more extra bit
      after every four symbols from 265 on; 285 stands for 258. */
  lemma LengthTable()
    ensures forall i :: 0 <= i < 28 ==> CPLEXT[i] == if i < 8 then 0 else i / 4 - 1
    ensures CPLENS[0] == 3 && forall i :: 0 <= i < 27 ==> CPLENS[i + 1] == CPLENS[i] + Pow2(CPLEXT[i])
    ensures CPLENS[28] == 258 && CPLEXT[28] == 0
    ensures forall i :: 28 < i < |CPLEXT| ==> CPLEXT[i] == 99
  {
    SmallPowers();
  }

  /** The distances: from 1 on without a gap and without an overlap, with one more extra bit after every two symbols
      from 4 on. */
  lemma DistanceTable()
    ensures forall i :: 0 <= i < 30 ==> CPDEXT[i] == if i < 2 then 0 else i / 2 - 1
    ensures CPDIST[0] == 1 && forall i :: 0 <= i < 29 ==> CPDIST[i + 1] == CPDIST[i] + Pow2(CPDEXT[i])
    ensures CPDIST[29] + Pow2(CPDEXT[29]) == WSIZE + 1
  {
    SmallPowers();
    LargePowers();
  }

  /** Values below those of later symbols. */
  lemma {:induction false} Rising(base: seq<nat>, extra: seq<nat>, i: nat, j: nat)
    requires i < j < |base| <= |extra| && forall k :: i <= k < j ==> base[k + 1] == base[k] + Pow2(extra[k])
    ensures base[i] + Pow2(extra[i]) <= base[j]
    decreases j
  {
    if i < j - 1 {
      Rising(base, extra, i, j - 1);
    }
  }

  /** Each length up to 257 has one symbol and one value of its extra bits. */
  lemma LengthUnique(s: nat, x: nat, s': nat, x': nat)
    requires 257 <= s < 285 && 257 <= s' < 285 && x < Pow2(CPLEXT[s - 257]) && x' < Pow2(CPLEXT[s' - 257])
    requires Length(s, x) == Length(s', x')
    ensures s == s' && x == x'
  {
    hide Pow2;
    LengthTable();
    if s < s' {
      Rising(CPLENS, CPLEXT, s - 257, s' - 257);
    } else if s' < s {
      Rising(CPLENS, CPLEXT, s' - 257, s - 257);
    }
  }

  lemma DistanceUnique(s: nat, x: nat, s': nat, x': nat)
    requires s < 30 && s' < 30 && x < Pow2(CPDEXT[s]) && x' < Pow2(CPDEXT[s'])
    requires Distance(s, x) == Distance(s', x')
    ensures s == s' && x == x'
  {
    hide Pow2;
    DistanceTable();
    if s < s' {
      Rising(CPDIST, CPDEXT, s, s');
    } else if s' < s {
      Rising(CPDIST, CPDEXT, s', s);
    }
  }

  lemma LengthRange(lsym: nat, lx: nat)
    requires 257 <= lsym < 286 && lx < Pow2(CPLEXT[lsym - 257])
    ensures MIN_MATCH <= Length(lsym, lx) <= MAX_MATCH && CPLEXT[lsym - 257] <= 5
  {
    SmallPowers();
  }

  lemma DistanceRange(dsym: nat, dx: nat)
    requires dsym < 30 && dx < Pow2(CPDEXT[dsym])
    ensures 1 <= Distance(dsym, dx) <= WSIZE && CPDEXT[dsym] <= 13
  {
    SmallPowers();
    LargePowers();
  }

  function TokenOf(it: Item): Token<Byte>
    requires it.Lit? ==> it.sym < 256
    requires it.Copy? ==> 257 <= it.lsym < 286 && it.dsym < 30
  {
    match it
    case Lit(sym) => Literal(sym)
    case Copy(lsym, lx, dsym, dx) => Match(Distance(dsym, dx), Length(lsym, lx))
  }

  lemma TokenFits(ll: seq<nat>, dl: seq<nat>, it: Item, past: seq<Byte>)
    requires ItemOk(ll, dl, it) && |past| >= WSIZE
    ensures Applies(past, TokenOf(it))
  {
    hide Pow2, Length, Distance;
    match it
    case Lit(_) =>
    case Copy(lsym, lx, dsym, dx) =>
      LengthRange(lsym, lx);
      DistanceRange(dsym, dx);
  }

  /** The past after a list of items; a distance may reach back to what was in the window before. */
  ghost function Feed(ll: seq<nat>, dl: seq<nat>, past: seq<Byte>, its: seq<Item>): (now: seq<Byte>)
    requires ItemsOk(ll, dl, its) && |past| >= WSIZE
    ensures |now| >= |past|
  {
    if its == [] then past
    else
      var mid := Feed(ll, dl, past, its[..|its| - 1]);
      TokenFits(ll, dl, its[|its| - 1], mid);
      Apply(mid, TokenOf(its[|its| - 1]))
  }

  function Tokens(its: seq<Item>): seq<Token<Byte>>
    requires forall i :: 0 <= i < |its| ==>
      (its[i].Lit? ==> its[i].sym < 256) && (its[i].Copy? ==> 257 <= its[i].lsym < 286 && its[i].dsym < 30)
  {
    seq(|its|, i requires 0 <= i < |its| => TokenOf(its[i]))
  }

  /** If no distance goes back beyond the start of the output, the old contents of the window do not matter. */
  lemma {:induction false} FeedExpands(ll: seq<nat>, dl: seq<nat>, before: seq<Byte>, its: seq<Item>)
    requires ItemsOk(ll, dl, its) && |before| == WSIZE && Legal(Tokens(its))
    ensures Feed(ll, dl, before, its) == before + Expand(Tokens(its))
  {
    hide Pow2, Length, Distance;
    if its != [] {
      var fst, last := its[..|its| - 1], its[|its| - 1];
      var ts := Tokens(its);
      assert ts[..|ts| - 1] == Tokens(fst);
      FeedExpands(ll, dl, before, fst);
      var out := Expand(Tokens(fst));
      TokenFits(ll, dl, last, before + out);
      match TokenOf(last)
      case Literal(_) =>
      case Match(d, n) => CopyAfter(before, out, d, n);
    }
  }

  lemma {:induction false} CopyAfter(before: seq<Byte>, out: seq<Byte>, d: nat, n: nat)
    requires 1 <= d <= |out|
    ensures CopyBack(before + out, d, n) == before + CopyBack(out, d, n)
    decreases n
  {
    if n > 0 {
      var b := [out[|out| - d]];
      assert (before + out) + b == before + (out + b);
      CopyAfter(before, out + b, d, n - 1);
    }
  }
}
