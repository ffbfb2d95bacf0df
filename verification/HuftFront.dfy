/** huft_build of inflate.c as a whole: from code lengths to decoding tables. */
module HuftFront {
  import opened BitIo
  import opened Huffman
  import opened HuftCode
  import opened HuftTable
  import opened HuftBuild
  import HuftLoop

  // ----- counting

  /** The number of codes of each length. */
  ghost predicate Counted(b: seq<nat>, c: seq<nat>) {
    |c| == BMAX + 1 && forall k :: 0 <= k <= BMAX ==> c[k] == Count(b, k)
  }

  method CountLengths(b: seq<nat>) returns (c: seq<nat>)
    requires forall i :: 0 <= i < |b| ==> b[i] <= BMAX
    ensures Counted(b, c)
  {
    c := seq(BMAX + 1, _ => 0);
    var i := 0;
    while i < |b|
      invariant 0 <= i <= |b| && Counted(b[..i], c)
    {
      assert b[..i + 1][..i] == b[..i];
      c := c[b[i] := c[b[i]] + 1];
      i := i + 1;
    }
    assert b[..|b|] == b;
  }

  lemma {:induction false} CountPositive(b: seq<nat>, k: nat)
    ensures Count(b, k) > 0 <==> k in b
  {
    if b != [] {
      assert b == b[..|b| - 1] + [b[|b| - 1]];
      CountPositive(b[..|b| - 1], k);
    }
  }

  lemma {:induction false} CountAtMost(b: seq<nat>, k: nat)
    ensures Count(b, k) <= |b| && (Count(b, k) == |b| <==> forall i :: 0 <= i < |b| ==> b[i] == k)
  {
    if b != [] {
      CountAtMost(b[..|b| - 1], k);
    }
  }

  /** k0 is the smallest and g the largest length that occurs. */
  ghost predicate Between(c: seq<nat>, k0: nat, g: nat) {
    && 1 <= k0 <= g <= BMAX < |c| && c[k0] > 0 && c[g] > 0
    && (forall k :: 1 <= k < k0 ==> c[k] == 0) && (forall k :: g < k <= BMAX ==> c[k] == 0)
  }

  method Extremes(c: seq<nat>, ghost k: nat) returns (k0: nat, g: nat)
    requires |c| == BMAX + 1 && 1 <= k <= BMAX && c[k] > 0
    ensures Between(c, k0, g)
  {
    k0 := 1;
    while c[k0] == 0
      invariant 1 <= k0 <= k && forall j :: 1 <= j < k0 ==> c[j] == 0
      decreases k - k0
    {
      k0 := k0 + 1;
    }
    g := BMAX;
    while c[g] == 0
      invariant k <= g <= BMAX && forall j :: g < j <= BMAX ==> c[j] == 0
      decreases g
    {
      g := g - 1;
    }
  }

  // ----- how many codes are missing

  lemma {:induction false} KraftNone(b: seq<nat>, c: seq<nat>, k: nat)
    requires Counted(b, c) && k <= BMAX && forall j :: 1 <= j <= k ==> c[j] == 0
    ensures Kraft(b, k) == 0
  {
    if k > 0 {
      KraftNone(b, c, k - 1);
    }
  }

  /** y is what is left of the 2^g codes of length g; a negative number as soon as some length has too many codes. */
  method Missing(b: seq<nat>, c: seq<nat>, k0: nat, g: nat) returns (y: int)
    requires Counted(b, c) && Between(c, k0, g)
    ensures y < 0 <==> Kraft(b, g) > Pow2(g)
    ensures y >= 0 ==> y == Pow2(g) - Kraft(b, g)
  {
    hide Kraft, Pow2, Count;
    var j := k0;
    KraftNone(b, c, k0 - 1);
    y := Pow2(j);
    KraftStep(b, j);
    while j < g
      invariant k0 <= j <= g && y == Pow2(j) - 2 * Kraft(b, j - 1) && Kraft(b, j) == 2 * Kraft(b, j - 1) + c[j]
    {
      y := y - c[j];
      if y < 0 {
        if Kraft(b, g) <= Pow2(g) {
          KraftExceeds(b, j, g);
        }
        return;
      }
      KraftStep(b, j + 1);
      j := j + 1;
      y := 2 * y;
    }
    y := y - c[g];
  }

  lemma KraftStep(b: seq<nat>, k: nat)
    requires k >= 1
    ensures Kraft(b, k) == 2 * Kraft(b, k - 1) + Count(b, k) && Pow2(k) == 2 * Pow2(k - 1)
  {
  }

  // ----- the symbols in the order of their codes

  /** How many lengths are between 1 and k. */
  function Total(b: seq<nat>, k: nat): nat {
    if k == 0 then 0 else Total(b, k - 1) + Count(b, k)
  }

  lemma {:induction false} TotalLast(b: seq<nat>, k: nat)
    requires b != []
    ensures Total(b, k) == Total(b[..|b| - 1], k) + if 1 <= b[|b| - 1] <= k then 1 else 0
  {
    if k > 0 {
      TotalLast(b, k - 1);
    }
  }

  lemma {:induction false} TotalAtMost(b: seq<nat>, k: nat)
    ensures Total(b, k) <= |b|
    decreases |b|, k
  {
    if b != [] {
      TotalLast(b, k);
      TotalAtMost(b[..|b| - 1], k);
    } else if k > 0 {
      TotalAtMost(b, k - 1);
    }
  }

  /** The counts below g are those of the lengths. */
  ghost predicate CountedBelow(b: seq<nat>, c: seq<nat>, g: nat) {
    1 <= g < |c| && (forall k :: 1 <= k < g ==> c[k] == Count(b, k)) && forall i :: 0 <= i < |b| ==> b[i] <= g
  }

  lemma {:induction false} ShorterTotal(b: seq<nat>, c: seq<nat>, g: nat, k: nat)
    requires CountedBelow(b, c, g) && 1 <= k <= g
    ensures Shorter(c, k) == Total(b, k - 1)
  {
    if k > 1 {
      ShorterTotal(b, c, g, k - 1);
    }
  }

  lemma {:induction false} TotalGrows(b: seq<nat>, j: nat, k: nat)
    requires j <= k
    ensures Total(b, j) <= Total(b, k)
  {
    if j < k {
      TotalGrows(b, j, k - 1);
    }
  }

  /** The place of symbol s among the codes. */
  function Place(b: seq<nat>, s: nat): nat
    requires s < |b| && b[s] > 0
  {
    Total(b, b[s] - 1) + Count(b[..s], b[s])
  }

  lemma PlaceFits(b: seq<nat>, s: nat, g: nat)
    requires s < |b| && 0 < b[s] <= g
    ensures Place(b, s) < Total(b, b[s]) <= Total(b, g) <= |b|
  {
    CountBefore(b, s, |b|);
    assert b[..|b|] == b;
    TotalGrows(b, b[s], g);
    TotalAtMost(b, g);
  }

  lemma PlacesDiffer(b: seq<nat>, s: nat, i: nat)
    requires s < i < |b| && b[s] > 0 && b[i] > 0
    ensures Place(b, s) != Place(b, i)
  {
    hide Total, Count;
    PlaceFits(b, s, b[s]);
    PlaceFits(b, i, b[i]);
    if b[s] == b[i] {
      CountBefore(b, s, i);
    } else if b[s] < b[i] {
      TotalGrows(b, b[s], b[i] - 1);
    } else {
      TotalGrows(b, b[i], b[s] - 1);
    }
  }

  /** Every symbol that has a code is at its place in v. */
  ghost predicate InPlace(b: seq<nat>, v: seq<nat>, n: nat)
    requires n <= |b|
  {
    forall s :: 0 <= s < n && b[s] > 0 ==> Place(b, s) < |v| && v[Place(b, s)] == s
  }

  /** Starting offsets for each length, and the symbols put there one by one. */
  method SortSymbols(b: seq<nat>, c: seq<nat>, g: nat) returns (v: seq<nat>)
    requires CountedBelow(b, c, g)
    ensures |v| == Total(b, g) && InPlace(b, v, |b|) && forall i :: 0 <= i < |v| ==> v[i] < |b| && b[v[i]] > 0
  {
    hide Total, Count, Place, Shorter;
    var x := Offsets(b, c, g);
    TotalAtMost(b, g);
    v := seq(|b|, _ => 0);
    var i := 0;
    assert b[..0] == [];
    forall k | 1 <= k <= g
      ensures Count(b[..0], k) == 0
    {
      CountAtMost(b[..0], k);
    }
    while i < |b|
      invariant 0 <= i <= |b| == |v| && |x| == g + 1 && InPlace(b, v, i)
      invariant forall k :: 1 <= k <= g ==> x[k] == Total(b, k - 1) + Count(b[..i], k)
    {
      var j := b[i];
      if j != 0 {
        PlaceFits(b, i, g);
        PlaceIs(b, i);
        forall s | 0 <= s < i && b[s] > 0
          ensures Place(b, s) != Place(b, i)
        {
          PlacesDiffer(b, s, i);
        }
        v := v[x[j] := i];
        x := x[j := x[j] + 1];
      }
      CountNext(b, i);
      i := i + 1;
    }
    assert b[..|b|] == b;
    TotalStep(b, g);
    forall s | 0 <= s < |b| && b[s] > 0
      ensures Place(b, s) < Total(b, g)
    {
      PlaceFits(b, s, g);
    }
    v := v[..x[g]];
    OnlySymbols(b, v, g);
  }

  lemma PlaceIs(b: seq<nat>, i: nat)
    requires i < |b| && b[i] > 0
    ensures Place(b, i) == Total(b, b[i] - 1) + Count(b[..i], b[i])
  {
  }

  lemma TotalStep(b: seq<nat>, k: nat)
    requires k >= 1
    ensures Total(b, k) == Total(b, k - 1) + Count(b, k)
  {
  }

  lemma CountNext(b: seq<nat>, i: nat)
    requires i < |b|
    ensures forall k :: Count(b[..i + 1], k) == Count(b[..i], k) + if b[i] == k then 1 else 0
  {
    assert b[..i + 1][..i] == b[..i];
  }

  method Offsets(b: seq<nat>, c: seq<nat>, g: nat) returns (x: seq<nat>)
    requires CountedBelow(b, c, g)
    ensures |x| == g + 1 && forall k :: 1 <= k <= g ==> x[k] == Total(b, k - 1)
  {
    hide Count;
    x := [0, 0];
    var j, i := 0, 1;
    while i < g
      invariant 1 <= i <= g && |x| == i + 1 && j == x[i] && forall k :: 1 <= k <= i ==> x[k] == Total(b, k - 1)
    {
      j := j + c[i];
      x := x + [j];
      i := i + 1;
    }
  }

  /** Every place up to the last belongs to a symbol. */
  lemma {:induction false} PlaceTaken(b: seq<nat>, g: nat, p: nat) returns (s: nat)
    requires p < Total(b, g)
    ensures s < |b| && 0 < b[s] <= g && Place(b, s) == p
    decreases g
  {
    if p < Total(b, g - 1) {
      s := PlaceTaken(b, g - 1, p);
    } else {
      s := NthExists(b, g, p - Total(b, g - 1));
    }
  }

  lemma {:induction false} NthExists(b: seq<nat>, k: nat, r: nat) returns (s: nat)
    requires r < Count(b, k)
    ensures IsNth(b, k, r, s)
  {
    var b' := b[..|b| - 1];
    if r < Count(b', k) {
      s := NthExists(b', k, r);
      assert b[..s] == b'[..s];
    } else {
      s := |b| - 1;
    }
  }

  lemma OnlySymbols(b: seq<nat>, v: seq<nat>, g: nat)
    requires |v| == Total(b, g) <= |b|
    requires forall s :: 0 <= s < |b| && b[s] > 0 && Place(b, s) < |v| ==> v[Place(b, s)] == s
    ensures forall i :: 0 <= i < |v| ==> v[i] < |b| && b[v[i]] > 0
  {
    hide Total, Place;
    forall i | 0 <= i < |v|
      ensures v[i] < |b| && b[v[i]] > 0
    {
      var s := PlaceTaken(b, g, i);
    }
  }

  // ----- what the tables mean

  /** The counts with those of the longest codes raised by y, so that the code is complete. */
  ghost predicate Completed(b: seq<nat>, c: seq<nat>, g: nat) {
    && CountedBelow(b, c, g) && c[g] == Count(b, g) + (Pow2(g) - Kraft(b, g)) && Count(b, g) > 0
    && Kraft(b, g) <= Pow2(g)
  }

  lemma {:induction false} FirstIs(b: seq<nat>, c: seq<nat>, g: nat, k: nat)
    requires CountedBelow(b, c, g) && 1 <= k <= g
    ensures First(c, k) == FirstCode(b, k)
  {
    if k > 1 {
      FirstIs(b, c, g, k - 1);
    }
  }

  lemma UptoIs(b: seq<nat>, c: seq<nat>, g: nat, k: nat)
    requires CountedBelow(b, c, g) && 1 <= k < g
    ensures Upto(c, k) == Kraft(b, k)
  {
    FirstIs(b, c, g, k);
    KraftIsFirst(b, k);
  }

  lemma IsComplete(b: seq<nat>, c: seq<nat>, g: nat)
    requires Completed(b, c, g)
    ensures Complete(c, g)
  {
    FirstIs(b, c, g, g);
    KraftIsFirst(b, g);
  }

  ghost predicate Starts(b: seq<nat>, s: nat, x: seq<bool>) {
    s < |b| && b[s] > 0 && CodeBits(b, s) <= x
  }

  /** The symbol s has the code that Scan finds. */
  lemma StartsScan(b: seq<nat>, c: seq<nat>, g: nat, s: nat, x: seq<bool>)
    requires Completed(b, c, g) && |x| == g && Starts(b, s, x)
    ensures Scan(c, g, x, 1) == Code(b[s], Count(b[..s], b[s])) && b[s] < |c|
  {
    hide Msb, Pow2, Count, First, FirstCode, Kraft;
    var k := b[s];
    assert x[..k] == CodeBits(b, s);
    KraftExceeds(b, k, g);
    CodeFits(b, s);
    FirstIs(b, c, g, k);
    CountBefore(b, s, |b|);
    assert b[..|b|] == b;
    ScanFinds(c, g, x, 1, k);
  }

  /** Where Scan finds a code of a symbol, the bits start with it. */
  lemma ScanStarts(b: seq<nat>, c: seq<nat>, g: nat, x: seq<bool>) returns (k: nat, r: nat)
    requires Completed(b, c, g) && |x| == g
    ensures 1 <= k <= g && Scan(c, g, x, 1) == Code(k, r)
    ensures forall s :: IsNth(b, k, r, s) ==> Starts(b, s, x)
    ensures k < g ==> r < Count(b, k)
    ensures r < c[k]
  {
    hide Msb, Pow2, Count, FirstCode, Kraft;
    IsComplete(b, c, g);
    HuftLoop.ScanTotal(c, g, x, 1);
    k, r := Scan(c, g, x, 1).len, Scan(c, g, x, 1).rank;
    FirstIs(b, c, g, k);
    forall s | IsNth(b, k, r, s)
      ensures Starts(b, s, x)
    {
      KraftExceeds(b, k, g);
      CodeFits(b, s);
      MsbPrefix(x, CodeBits(b, s));
    }
  }

  // ----- the whole function

  predicate NoCodes(b: seq<nat>) { forall i :: 0 <= i < |b| ==> b[i] == 0 }

  function Longest(b: seq<nat>): (g: nat)
    ensures forall i :: 0 <= i < |b| ==> b[i] <= g
    ensures if NoCodes(b) then g == 0 else g in b && g > 0
  {
    if b == [] then 0 else var g := Longest(b[1..]); if b[0] > g then b[0] else g
  }

  function Shortest(b: seq<nat>): (k: nat)
    requires !NoCodes(b)
    ensures k in b && k > 0 && forall i :: 0 <= i < |b| && b[i] > 0 ==> k <= b[i]
  {
    if NoCodes(b[1..]) then b[0] else var k := Shortest(b[1..]); if 0 < b[0] < k then b[0] else k
  }

  /** The operation and the value that a table has for symbol sym. */
  function Operation(s: nat, e: seq<nat>, sym: nat): nat {
    if sym < s then (if sym < 256 then 16 else 15) else if sym - s < |e| then e[sym - s] else 0
  }

  function Value(s: nat, d: seq<nat>, sym: nat): nat {
    if sym < s then sym else if sym - s < |d| then d[sym - s] else 0
  }

  /** What the value of an invalid entry can be: that of some symbol that has a code. If no symbol has one, it is what
      has been in memory before. */
  ghost predicate LeftValue(b: seq<nat>, s: nat, d: seq<nat>, n: nat) {
    NoCodes(b) || exists i :: 0 <= i < |b| && b[i] > 0 && n == Value(s, d, i)
  }

  /** Bits that start with the code of a symbol give the symbol; bits that start with no code are marked as invalid. */
  ghost predicate Decoded(tables: Pool, b: seq<nat>, s: nat, d: seq<nat>, e: seq<nat>, x: seq<bool>) {
    var w := Walk(tables, 0, 0, x);
    && (forall sym: nat :: Starts(b, sym, x) ==> w == Got(Operation(s, e, sym), Value(s, d, sym), b[sym]))
    && ((forall sym: nat :: !Starts(b, sym, x)) ==> w.Got? && w.e == 99 && LeftValue(b, s, d, w.n))
  }

  ghost predicate Decodes(tables: Pool, b: seq<nat>, s: nat, d: seq<nat>, e: seq<nat>) {
    forall x: seq<bool> :: |x| == Longest(b) ==> Decoded(tables, b, s, d, e, x)
  }

  /** At every level below the root, the codes that end within a table of l bits leave less than such a table. */
  ghost predicate FitsLevels(b: seq<nat>, l: nat) {
    forall n: nat :: n >= 1 && Depth(l, n) + l < Longest(b) ==>
      Pow2(Depth(l, n) + l) < Kraft(b, Depth(l, n) + l) + Pow2(l)
  }

  lemma DecodesOne(tables: Pool, b: seq<nat>, c: seq<nat>, s: nat, d: seq<nat>, e: seq<nat>, g: nat, v: seq<nat>,
                   x: seq<bool>)
    requires Completed(b, c, g) && |x| == g && |v| == Total(b, g) && InPlace(b, v, |b|) && Book(v, s, d, e).Valid()
    requires v != [] && v[|v| - 1] < |b| && b[v[|v| - 1]] > 0
    requires Walk(tables, 0, 0, x) == Expected(c, g, Book(v, s, d, e), x)
    ensures Decoded(tables, b, s, d, e, x)
  {
    hide Msb, Pow2, Count, First, FirstCode, Kraft, Walk, Scan, Total, Shorter, CodeBits;
    var k, r := ScanStarts(b, c, g, x);
    ShorterTotal(b, c, g, k);
    forall sym: nat | Starts(b, sym, x)
      ensures Walk(tables, 0, 0, x) == Got(Operation(s, e, sym), Value(s, d, sym), b[sym])
    {
      StartsScan(b, c, g, sym, x);
    }
    if forall sym: nat :: !Starts(b, sym, x) {
      if r < Count(b, k) {
        var sym := NthExists(b, k, r);
      } else {
        TotalStep(b, g);
        assert Book(v, s, d, e).LeftOver() == Value(s, d, v[|v| - 1]);
      }
    }
  }

  /** With a complete code, all bits start with a code. */
  lemma AllStart(b: seq<nat>, x: seq<bool>) returns (sym: nat)
    requires !NoCodes(b) && Kraft(b, Longest(b)) == Pow2(Longest(b)) && |x| == Longest(b)
    ensures Starts(b, sym, x)
  {
    hide Msb, Pow2, Count, First, FirstCode, Kraft, Scan, CodeBits;
    var g := Longest(b);
    var c := seq(g + 1, (k: nat) => Count(b, k));
    CountPositive(b, g);
    var k, r := ScanStarts(b, c, g, x);
    sym := NthExists(b, k, r);
  }

  lemma SameGaps(b: seq<nat>, c: seq<nat>, l: nat)
    requires Completed(b, c, Longest(b)) && l >= 1
    ensures FitsLevels(b, l) <==> NoGap(c, Longest(b), l)
  {
    hide Pow2, Kraft, First, Upto, Longest, Count, Depth;
    var g := Longest(b);
    forall n: nat | n >= 1 && Depth(l, n) + l < g
      ensures Upto(c, Depth(l, n) + l) == Kraft(b, Depth(l, n) + l)
    {
      UptoIs(b, c, g, Depth(l, n) + l);
    }
    if FitsLevels(b, l) {
      forall n: nat | n >= 1 && Depth(l, n) + l < g
        ensures Roomy(c, l, Depth(l, n))
      {
      }
    }
    if NoGap(c, g, l) {
      forall n: nat | n >= 1 && Depth(l, n) + l < g
        ensures Pow2(Depth(l, n) + l) < Kraft(b, Depth(l, n) + l) + Pow2(l)
      {
        assert Roomy(c, l, Depth(l, n));
      }
    }
  }

  /** Both outcomes of the main loop, in terms of the symbols. */
  lemma Outcome(tables: Pool, b: seq<nat>, c: seq<nat>, s: nat, d: seq<nat>, e: seq<nat>, v: seq<nat>, l: nat)
    requires
      var g, book := Longest(b), Book(v, s, d, e);
      && Completed(b, c, g) && l >= 1 && |v| == Total(b, g) && InPlace(b, v, |b|) && book.Valid()
      && v != [] && v[|v| - 1] < |b| && b[v[|v| - 1]] > 0
      && (NoGap(c, g, l) ==> forall x: seq<bool> :: |x| == g ==> Walk(tables, 0, 0, x) == Expected(c, g, book, x))
      && (!NoGap(c, g, l) ==> exists x: seq<bool> :: |x| == g && Walk(tables, 0, 0, x) == Lost)
    ensures Decodes(tables, b, s, d, e) <==> FitsLevels(b, l)
  {
    hide Walk, Expected, NoGap, FitsLevels, Decoded, Count, Kraft, Pow2, InPlace, Total;
    SameGaps(b, c, l);
    var g := Longest(b);
    if NoGap(c, g, l) {
      forall x: seq<bool> | |x| == g
        ensures Decoded(tables, b, s, d, e, x)
      {
        DecodesOne(tables, b, c, s, d, e, g, v, x);
      }
    } else {
      var x: seq<bool> :| |x| == g && Walk(tables, 0, 0, x) == Lost;
      LostIsWrong(tables, b, s, d, e, x);
    }
  }

  lemma LostIsWrong(tables: Pool, b: seq<nat>, s: nat, d: seq<nat>, e: seq<nat>, x: seq<bool>)
    requires Walk(tables, 0, 0, x) == Lost
    ensures !Decoded(tables, b, s, d, e, x)
  {
  }

  /** What has been in memory before in the place of the values of the two entries for all-zero lengths, which are not
      set. */
  datatype Junk = Junk(zero: nat, one: nat) {
    function At(bit: bool): nat { if bit then one else zero }
  }

  function InvalidOnly(junk: Junk): Pool { [Table(1, [Leaf(99, 1, junk.zero), Leaf(99, 1, junk.one)])] }

  /** Builds the tables for the code lengths b, with a root table of about m bits: returns 0, or 1 for an incomplete and
      2 for an oversubscribed set of lengths. */
  method Build(b: seq<nat>, s: nat, d: seq<nat>, e: seq<nat>, m: nat, junk: Junk) returns (r: nat, tables: Pool, l: nat)
    requires |b| > 0 && forall i :: 0 <= i < |b| ==> b[i] <= BMAX
    requires |d| == |e| && forall i :: 0 <= i < |b| && b[i] > 0 ==> i < s + |d|
    requires forall i :: 0 <= i < |e| ==> e[i] <= 16 || e[i] == 99
    ensures NoCodes(b) ==> r == 0 && tables == InvalidOnly(junk) && l == 1
    ensures !NoCodes(b) ==>
      var g := Longest(b);
      && r == (if Kraft(b, g) > Pow2(g) then 2 else if Kraft(b, g) < Pow2(g) && g != 1 then 1 else 0)
      && l == (if m < Shortest(b) then Shortest(b) else if m > g then g else m)
      && (r != 2 ==> (Decodes(tables, b, s, d, e) <==> FitsLevels(b, l)))
      && (r != 2 && FitsLevels(b, l) ==> |tables| > 0 && tables[0].bits == l && Shaped(tables))
  {
    hide Walk, Expected, NoGap, FitsLevels, Decodes, Shaped, Total, Count, Kraft, Pow2, First, Longest, Shortest;
    var c := CountLengths(b);
    CountAtMost(b, 0);
    if c[0] == |b| {
      return 0, InvalidOnly(junk), 1;
    }
    ghost var k := Longest(b);
    CountPositive(b, k);
    var k0, g := Extremes(c, k);
    Occurring(b, c, k0, g);
    l := if m < k0 then k0 else if m > g then g else m;
    var y := Missing(b, c, k0, g);
    if y < 0 {
      return 2, [], l;
    }
    c := c[g := c[g] + y];
    var v := SortSymbols(b, c, g);
    IsComplete(b, c, g);
    tables := HuftLoop.MakeTables(c, k0, g, l, Book(v, s, d, e));
    Outcome(tables, b, c, s, d, e, v, l);
    SameGaps(b, c, l);
    r := if y != 0 && g != 1 then 1 else 0;
  }

  lemma Occurring(b: seq<nat>, c: seq<nat>, k0: nat, g: nat)
    requires Counted(b, c) && Between(c, k0, g) && !NoCodes(b) && forall i :: 0 <= i < |b| ==> b[i] <= BMAX
    ensures k0 == Shortest(b) && g == Longest(b)
  {
    hide Count;
    CountPositive(b, k0);
    CountPositive(b, g);
    CountPositive(b, Shortest(b));
    CountPositive(b, Longest(b));
  }

  // ----- when the levels fit

  lemma {:induction false} DepthAtLeast(l: nat, n: nat)
    requires n >= 1
    ensures l <= Depth(l, n)
  {
  }

  /** With two levels of tables there is no gap: literal and length codes have a root table of 9 bits. */
  lemma TwoLevelsFit(b: seq<nat>, l: nat)
    requires Longest(b) <= 2 * l
    ensures FitsLevels(b, l)
  {
    forall n: nat | n >= 1
      ensures l <= Depth(l, n)
    {
      DepthAtLeast(l, n);
    }
  }

  /** What the codes up to length k leave over is taken up by longer codes, one each at least. */
  lemma {:induction false} LeftOver(b: seq<nat>, k: nat, g: nat)
    requires k <= g && Kraft(b, g) == Pow2(g)
    ensures Pow2(k) <= Kraft(b, k) + (Total(b, g) - Total(b, k)) && Kraft(b, k) <= Pow2(k)
    decreases g - k
  {
    hide Count;
    if k < g {
      LeftOver(b, k + 1, g);
    }
  }

  /** A complete code for fewer than 2^l symbols leaves no gap: distance codes have a root table of 6 bits. */
  lemma FewSymbolsFit(b: seq<nat>, l: nat)
    requires Kraft(b, Longest(b)) == Pow2(Longest(b)) && |b| < Pow2(l)
    ensures FitsLevels(b, l)
  {
    hide Kraft, Pow2, Total, Longest, Depth;
    forall n: nat | n >= 1 && Depth(l, n) + l < Longest(b)
      ensures Pow2(Depth(l, n) + l) < Kraft(b, Depth(l, n) + l) + Pow2(l)
    {
      LeftOver(b, Depth(l, n) + l, Longest(b));
      TotalAtMost(b, Longest(b));
    }
  }

  /** Codes of 1, 2, 3, 4 and 5 bits and 256 codes of 13 bits make a complete code, but with tables of 6 bits there is a
      gap. */
  ghost predicate Gappy(b: seq<nat>) {
    |b| == 261 && b[..5] == [1, 2, 3, 4, 5] && forall i :: 5 <= i < 261 ==> b[i] == 13
  }

  lemma GapExample(b: seq<nat>)
    requires Gappy(b)
    ensures Kraft(b, Longest(b)) == Pow2(Longest(b)) && Shortest(b) <= 6 && !FitsLevels(b, 6)
  {
    hide Count, Shortest;
    assert b[..5][0] == 1 && b[..5][1] == 2 && b[..5][2] == 3 && b[..5][3] == 4 && b[..5][4] == 5;
    assert b[5] == 13;
    assert Longest(b) == 13;
    GappyCounts(b, 261);
    assert b[..261] == b;
    assert Kraft(b, 1) == 1 && Kraft(b, 2) == 3 && Kraft(b, 3) == 7 && Kraft(b, 4) == 15 && Kraft(b, 5) == 31;
    assert Kraft(b, 6) == 62 && Kraft(b, 7) == 124 && Kraft(b, 8) == 248 && Kraft(b, 9) == 496 && Kraft(b, 10) == 992;
    assert Kraft(b, 11) == 1984 && Kraft(b, 12) == 3968 && Kraft(b, 13) == 8192;
    assert Depth(6, 1) == 6;
    assert Pow2(6) == 64 && Pow2(12) == 64 * Pow2(6) && Pow2(13) == 2 * Pow2(12);
  }

  lemma {:induction false} GappyCounts(b: seq<nat>, n: nat)
    requires Gappy(b) && 5 <= n <= |b|
    ensures forall k :: 1 <= k <= 13 ==> Count(b[..n], k) == if k <= 5 then 1 else if k == 13 then n - 5 else 0
  {
    if n > 5 {
      GappyCounts(b, n - 1);
      assert b[..n][..n - 1] == b[..n - 1];
    } else {
      var b0: seq<nat> := [];
      var b1 := b0 + [1];
      var b2 := b1 + [2];
      var b3 := b2 + [3];
      var b4 := b3 + [4];
      assert b[..5] == b4 + [5];
      CountSnoc(b0, 1);
      CountSnoc(b1, 2);
      CountSnoc(b2, 3);
      CountSnoc(b3, 4);
      CountSnoc(b4, 5);
    }
  }

  lemma CountSnoc(b: seq<nat>, x: nat)
    ensures forall k :: Count(b + [x], k) == Count(b, k) + if k == x then 1 else 0
  {
    assert (b + [x])[..|b|] == b;
  }
}
