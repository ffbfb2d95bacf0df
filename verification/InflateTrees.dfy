/** The codes of fixed and dynamic blocks, as built by huft_build. */
module InflateTrees {
  import opened BitIo
  import opened Huffman
  import opened HuftTable
  import opened HuftFront
  import opened InflateSpec
  import opened PrefixCode
  import opened Inflate

  lemma ReadsDecodes(tree: Tree, tables: Pool, l: nat)
    requires !NoCodes(tree.b) && Decodes(tables, tree.b, tree.s, tree.d, tree.e) && |tables| > 0 && tables[0].bits == l
    requires Shaped(tables) && Fair(tree.b, Longest(tree.b))
    ensures tree.Reads(tables, l)
  {
    hide Walk, Starts, Fair, Shaped;
    forall x: seq<bool> | |x| == Span(tree.b)
      ensures Walk(tables, 0, 0, x).Got?
    {
      assert Decoded(tables, tree.b, tree.s, tree.d, tree.e, x);
      if sym: nat :| Starts(tree.b, sym, x) {
      }
    }
  }

  lemma ReadsInvalid(tree: Tree, junk: Junk)
    requires NoCodes(tree.b)
    ensures tree.Reads(InvalidOnly(junk), 1)
  {
    hide Walk, Fair, Kraft;
    EmptyFair(tree.b);
    forall x: seq<bool> | |x| == 1
      ensures Walk(InvalidOnly(junk), 0, 0, x) == Got(99, junk.At(x[0]), 1)
    {
      InvalidWalk(junk, x);
    }
  }

  lemma EmptyFair(b: seq<nat>)
    requires NoCodes(b)
    ensures Fair(b, 1)
  {
    hide Count;
    CountPositive(b, 1);
    assert Kraft(b, 1) == 0;
  }

  lemma InvalidWalk(junk: Junk, x: seq<bool>)
    requires |x| == 1
    ensures Walk(InvalidOnly(junk), 0, 0, x) == Got(99, junk.At(x[0]), 1)
  {
    assert x[0..1] == x;
    assert FromBits(x) < 2;
  }

  /** huft_build, for a code whose levels fit: the tables read the code. */
  method BuildTree(b: seq<nat>, s: nat, d: seq<nat>, e: seq<nat>, m: nat, junk: Junk)
    returns (r: nat, tables: Pool, l: nat)
    requires |b| > 0 && forall i :: 0 <= i < |b| ==> b[i] <= BMAX
    requires |d| == |e| && forall i :: 0 <= i < |b| && b[i] > 0 ==> i < s + |d|
    requires forall i :: 0 <= i < |e| ==> e[i] <= 16 || e[i] == 99
    requires Longest(b) <= 2 * m || |b| < Pow2(m)
    ensures r == (if Overfull(b) then 2 else if Partial(b) then 1 else 0)
    ensures r == 0 || (r == 1 && Longest(b) <= 2 * m) ==> Tree(b, s, d, e).Reads(tables, l)
    ensures NoCodes(b) ==> tables == InvalidOnly(junk)
    ensures l ==
      if NoCodes(b) then 1 else if m < Shortest(b) then Shortest(b) else if m > Longest(b) then Longest(b) else m
  {
    hide Kraft, Pow2, Decodes, FitsLevels, Shaped, Longest, Shortest, Tree.Reads;
    r, tables, l := Build(b, s, d, e, m, junk);
    if NoCodes(b) {
      ReadsInvalid(Tree(b, s, d, e), junk);
    } else {
      Levels(b, m, l);
      if r == 0 || (r == 1 && Longest(b) <= 2 * m) {
        FairLongest(b);
        ReadsDecodes(Tree(b, s, d, e), tables, l);
      }
    }
  }

  /** The Kraft sum is above 1. */
  ghost predicate Overfull(b: seq<nat>) { !NoCodes(b) && Kraft(b, Longest(b)) > Pow2(Longest(b)) }

  /** The Kraft sum is below 1, and the code is not that of one bit. */
  ghost predicate Partial(b: seq<nat>) { !NoCodes(b) && Kraft(b, Longest(b)) < Pow2(Longest(b)) && Longest(b) != 1 }

  lemma FairLongest(b: seq<nat>)
    requires !NoCodes(b) && !Overfull(b) && forall i :: 0 <= i < |b| ==> b[i] <= BMAX
    ensures Fair(b, Longest(b))
  {
  }

  lemma Levels(b: seq<nat>, m: nat, l: nat)
    requires !NoCodes(b) && l == (if m < Shortest(b) then Shortest(b) else if m > Longest(b) then Longest(b) else m)
    ensures Longest(b) <= 2 * m ==> FitsLevels(b, l)
    ensures |b| < Pow2(m) && !Overfull(b) && !Partial(b) ==> FitsLevels(b, l)
  {
    hide Kraft, Pow2, FitsLevels;
    if Longest(b) <= 2 * l {
      TwoLevelsFit(b, l);
    } else if |b| < Pow2(m) && !Overfull(b) && !Partial(b) {
      Pow2Grows(m, l);
      FewSymbolsFit(b, l);
    }
  }

  // ----- fixed codes

  /** The lengths of section 3.2.6 of RFC 1951. */
  function FixedLengths(): seq<nat> {
    Repeated(8, 144) + Repeated(9, 112) + Repeated(7, 24) + Repeated(8, 8)
  }

  function Repeated(v: nat, n: nat): (s: seq<nat>)
    ensures |s| == n && forall i :: 0 <= i < n ==> s[i] == v
  {
    seq(n, _ => v)
  }

  lemma {:induction false} CountRepeated(v: nat, n: nat, k: nat)
    ensures Count(Repeated(v, n), k) == if k == v then n else 0
  {
    if n > 0 {
      assert Repeated(v, n)[..n - 1] == Repeated(v, n - 1);
      CountRepeated(v, n - 1, k);
    }
  }

  lemma FixedCounts(k: nat)
    ensures Count(FixedLengths(), k) == if k == 7 then 24 else if k == 8 then 152 else if k == 9 then 112 else 0
  {
    hide Count, Repeated;
    var a, b, c, d := Repeated(8, 144), Repeated(9, 112), Repeated(7, 24), Repeated(8, 8);
    CountJoined(a, b, k);
    CountJoined(a + b, c, k);
    CountJoined(a + b + c, d, k);
    CountRepeated(8, 144, k);
    CountRepeated(9, 112, k);
    CountRepeated(7, 24, k);
    CountRepeated(8, 8, k);
  }

  /** The fixed literal/length code is complete. */
  lemma FixedComplete()
    ensures var b := FixedLengths();
      |b| == 288 && Longest(b) == 9 && !NoCodes(b) && !Overfull(b) && !Partial(b) && b[END_BLOCK] == 7
  {
    hide Count;
    var b := FixedLengths();
    assert b[144] == 9 && b[256] == 7;
    assert forall i :: 0 <= i < |b| ==> b[i] <= 9;
    forall k | 0 <= k <= 9
      ensures Count(b, k) == if k == 7 then 24 else if k == 8 then 152 else if k == 9 then 112 else 0
    {
      FixedCounts(k);
    }
    assert Kraft(b, 6) == 0 by {
      assert Kraft(b, 1) == 0 && Kraft(b, 2) == 0 && Kraft(b, 3) == 0 && Kraft(b, 4) == 0 && Kraft(b, 5) == 0;
    }
    assert Kraft(b, 7) == 24 && Kraft(b, 8) == 200 && Kraft(b, 9) == 512;
    assert Pow2(9) == 512;
  }

  /** The fixed distance code is incomplete: two codes are left over. */
  lemma FixedDistances()
    ensures var b := Repeated(5, 30); |b| == 30 && Longest(b) == 5 && !NoCodes(b) && !Overfull(b) && Partial(b)
  {
    hide Count;
    var b := Repeated(5, 30);
    assert b[0] == 5;
    forall k | 0 <= k <= 5
      ensures Count(b, k) == if k == 5 then 30 else 0
    {
      CountRepeated(5, 30, k);
    }
    assert Kraft(b, 1) == 0 && Kraft(b, 2) == 0 && Kraft(b, 3) == 0 && Kraft(b, 4) == 0 && Kraft(b, 5) == 30;
    assert Pow2(5) == 32;
  }

  /** The codes that section 3.2.6 of RFC 1951 lists: 8 bits from 00110000 on, 9 bits from 110010000 on, 7 bits from
      0000000 on, 8 bits from 11000000 on. */
  lemma FixedCode(s: nat)
    requires s < 288
    ensures
      var b := FixedLengths();
      if s < 144 then b[s] == 8 && CodeOf(b, s) == 0x30 + s
      else if s < 256 then b[s] == 9 && CodeOf(b, s) == 0x190 + (s - 144)
      else if s < 280 then b[s] == 7 && CodeOf(b, s) == s - 256
      else b[s] == 8 && CodeOf(b, s) == 0xC0 + (s - 280)
  {
    hide Count, Repeated;
    FixedFirst();
    FixedBefore(s);
  }

  lemma FixedFirst()
    ensures var b := FixedLengths(); FirstCode(b, 7) == 0 && FirstCode(b, 8) == 0x30 && FirstCode(b, 9) == 0x190
  {
    hide Count;
    var b := FixedLengths();
    forall k | 0 <= k <= 9
      ensures Count(b, k) == if k == 7 then 24 else if k == 8 then 152 else if k == 9 then 112 else 0
    {
      FixedCounts(k);
    }
    assert FirstCode(b, 1) == 0 && FirstCode(b, 2) == 0 && FirstCode(b, 3) == 0 && FirstCode(b, 4) == 0;
    assert FirstCode(b, 5) == 0 && FirstCode(b, 6) == 0;
  }

  lemma FixedBefore(s: nat)
    requires s < 288
    ensures
      var b := FixedLengths();
      && b[s] == (if s < 144 then 8 else if s < 256 then 9 else if s < 280 then 7 else 8)
      && Count(b[..s], b[s]) ==
         if s < 144 then s else if s < 256 then s - 144 else if s < 280 then s - 256 else 144 + (s - 280)
  {
    hide Count;
    var b, x, y, z := FixedLengths(), Repeated(8, 144), Repeated(9, 112), Repeated(7, 24);
    if s < 144 {
      assert b[..s] == Repeated(8, s);
      CountRepeated(8, s, 8);
    } else if s < 256 {
      assert b[..s] == x + Repeated(9, s - 144);
      CountJoined(x, Repeated(9, s - 144), 9);
      CountRepeated(8, 144, 9);
      CountRepeated(9, s - 144, 9);
    } else if s < 280 {
      assert b[..s] == x + y + Repeated(7, s - 256);
      CountJoined(x + y, Repeated(7, s - 256), 7);
      CountJoined(x, y, 7);
      CountRepeated(8, 144, 7);
      CountRepeated(9, 112, 7);
      CountRepeated(7, s - 256, 7);
    } else {
      assert b[..s] == x + y + z + Repeated(8, s - 280);
      CountJoined(x + y + z, Repeated(8, s - 280), 8);
      CountJoined(x + y, z, 8);
      CountJoined(x, y, 8);
      CountRepeated(8, 144, 8);
      CountRepeated(9, 112, 8);
      CountRepeated(7, 24, 8);
      CountRepeated(8, s - 280, 8);
    }
  }

  /** Fixed distance codes are the numbers of the symbols. */
  lemma FixedDistanceCode(s: nat)
    requires s < 30
    ensures Repeated(5, 30)[s] == 5 && CodeOf(Repeated(5, 30), s) == s
  {
    hide Count;
    var b := Repeated(5, 30);
    assert b[..s] == Repeated(5, s);
    CountRepeated(5, s, 5);
    forall k | 0 <= k <= 4
      ensures Count(b, k) == 0
    {
      CountRepeated(5, 30, k);
    }
    assert FirstCode(b, 1) == 0 && FirstCode(b, 2) == 0 && FirstCode(b, 3) == 0 && FirstCode(b, 4) == 0;
  }

  function FixedTrees(): Trees {
    Trees(Tree(FixedLengths(), 257, CPLENS, CPLEXT), Tree(Repeated(5, 30), 0, CPDIST, CPDEXT))
  }

  lemma {:induction false} MarksOk(b: seq<nat>)
    ensures Tree(b, 257, CPLENS, CPLEXT).Marks(286) && Tree(b, 0, CPDIST, CPDEXT).Marks(30)
    ensures forall i :: 0 <= i < |CPLEXT| ==> CPLEXT[i] <= 16 || CPLEXT[i] == 99
    ensures forall i :: 0 <= i < |CPDEXT| ==> CPDEXT[i] <= 16
  {
  }

  lemma FixedOk()
    ensures FixedTrees().Ok()
  {
    hide Kraft, Pow2, Count, Longest, Overfull, Partial, FixedLengths, Tree.Marks;
    FixedComplete();
    FixedDistances();
    FairLongest(FixedLengths());
    FairLongest(Repeated(5, 30));
    MarksOk(FixedLengths());
    MarksOk(Repeated(5, 30));
  }
}
