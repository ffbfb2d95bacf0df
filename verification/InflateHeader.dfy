/** The header of a dynamic block: the lengths of its codes (section 3.2.7 of RFC 1951). */
module InflateHeader {
  import opened BitIo
  import opened BitReader
  import opened BitWriter
  import opened Huffman
  import opened HuftTable
  import opened HuftFront
  import opened InflateSpec
  import opened InflateItems
  import opened PrefixCode
  import opened Inflate
  import opened InflateTrees

  const BORDER: seq<nat> := [16, 17, 18, 0, 8, 7, 9, 6, 10, 5, 11, 4, 12, 3, 13, 2, 14, 1, 15]

  // ----- runs of lengths

  datatype LenItem = Len(v: nat) | Again(x: nat) | ShortZeros(x: nat) | LongZeros(x: nat) {
    function Sym(): nat {
      match this case Len(v) => v case Again(_) => 16 case ShortZeros(_) => 17 case LongZeros(_) => 18
    }

    function Extra(): nat { if Len? then 0 else x }

    function ExtraBits(): nat {
      match this case Len(_) => 0 case Again(_) => 2 case ShortZeros(_) => 3 case LongZeros(_) => 7
    }

    function Count(): nat {
      match this case Len(_) => 1 case Again(x) => 3 + x case ShortZeros(x) => 3 + x case LongZeros(x) => 11 + x
    }

    /** The lengths it stands for, after the length `last`. */
    function Spread(last: nat): seq<nat> {
      Repeated(match this case Len(v) => v case Again(_) => last case _ => 0, Count())
    }

    predicate Ok(cl: seq<nat>) {
      HasCode(cl, Sym()) && (Len? ==> v < 16) && Extra() < Pow2(ExtraBits())
    }

    function Bits(cl: seq<nat>): seq<bool>
      requires HasCode(cl, Sym())
    {
      CodeBits(cl, Sym()) + ToBits(Extra(), ExtraBits())
    }
  }

  function Last(lens: seq<nat>): nat { if lens == [] then 0 else lens[|lens| - 1] }

  function SpreadAll(its: seq<LenItem>): seq<nat> {
    if its == [] then [] else
      var lens := SpreadAll(its[..|its| - 1]);
      lens + its[|its| - 1].Spread(Last(lens))
  }

  predicate AllOk(cl: seq<nat>, its: seq<LenItem>) { forall i :: 0 <= i < |its| ==> its[i].Ok(cl) }

  function LensBits(cl: seq<nat>, its: seq<LenItem>): seq<bool>
    requires AllOk(cl, its)
  {
    if its == [] then [] else its[0].Bits(cl) + LensBits(cl, its[1..])
  }

  /** The order is one of the symbols of the code for the lengths, each of them once. */
  ghost predicate Once(order: seq<nat>) {
    && |order| == 19 && (forall i :: 0 <= i < 19 ==> order[i] < 19)
    && (forall i, j :: 0 <= i < j < 19 ==> order[i] != order[j])
    && (forall s :: 0 <= s < 19 ==> s in order)
  }

  /** The order of section 3.2.7 of RFC 1951: the runs, zero, and then from 8 on up and from 7 on down in turn. */
  lemma BorderOrder()
    ensures |BORDER| == 19 && BORDER[..4] == [16, 17, 18, 0]
    ensures forall k :: 0 <= k < 8 ==> BORDER[4 + 2 * k] == 8 + k
    ensures forall k :: 0 <= k < 7 ==> BORDER[5 + 2 * k] == 7 - k
  {
  }

  /** The runs of that section: symbol 16 stands for 3 to 6 lengths like the last one, 17 for 3 to 10 zeros, 18 for 11
      to 138 zeros, each number in one way. */
  lemma RunsAre(x: nat, last: nat)
    ensures Again(x).Sym() == 16 && ShortZeros(x).Sym() == 17 && LongZeros(x).Sym() == 18
    ensures x < Pow2(Again(x).ExtraBits()) <==> x < 4
    ensures x < Pow2(ShortZeros(x).ExtraBits()) <==> x < 8
    ensures x < Pow2(LongZeros(x).ExtraBits()) <==> x < 128
    ensures Again(x).Spread(last) == Repeated(last, 3 + x)
    ensures ShortZeros(x).Spread(last) == Repeated(0, 3 + x) && LongZeros(x).Spread(last) == Repeated(0, 11 + x)
  {
    SmallPowers();
    LargePowers();
  }

  lemma BorderOnce()
    ensures Once(BORDER)
  {
  }

  /** The lengths of the code for the lengths, from the j-th on, in the order in which they are sent. */
  ghost function ClBits(order: seq<nat>, cl: seq<nat>, nb: nat, j: nat): seq<bool>
    requires Once(order) && |cl| == 19 && nb <= 19
    decreases nb - j
  {
    if j >= nb then [] else ToBits(cl[order[j]], 3) + ClBits(order, cl, nb, j + 1)
  }

  ghost predicate ClOk(order: seq<nat>, cl: seq<nat>, nb: nat) {
    && Once(order) && |cl| == 19 && nb <= 19 && (forall i :: 0 <= i < 19 ==> cl[i] < 8)
    && forall j :: nb <= j < 19 ==> cl[order[j]] == 0
  }

  datatype Header = Header(nl: nat, nd: nat, nb: nat, cl: seq<nat>, its: seq<LenItem>) {
    function Lengths(): seq<nat> { SpreadAll(its) }

    ghost predicate Ok() {
      && 257 <= nl <= 286 && 1 <= nd <= 30 && 4 <= nb <= 19 && ClOk(BORDER, cl, nb) && !Overfull(cl) && !Partial(cl)
      && AllOk(cl, its) && |Lengths()| == nl + nd
    }

    ghost function Bits(): seq<bool>
      requires Ok()
    {
      ToBits(nl - 257, 5) + (ToBits(nd - 1, 5) + (ToBits(nb - 4, 4) + LengthBits()))
    }

    ghost function LengthBits(): seq<bool>
      requires Ok()
    {
      ClBits(BORDER, cl, nb, 0) + LensBits(cl, its)
    }
  }

  // ----- reading them

  function TripleBits(vs: seq<nat>): seq<bool> {
    if vs == [] then [] else TripleBits(vs[..|vs| - 1]) + ToBits(vs[|vs| - 1], 3)
  }

  lemma TripleNext(vs: seq<nat>, v: nat, s: seq<bool>)
    requires |s| >= 3 && ToBits(v, 3) == s[..3]
    ensures TripleBits(vs) + s == TripleBits(vs + [v]) + s[3..]
  {
    hide ToBits;
    assert (vs + [v])[..|vs|] == vs;
    Halves(TripleBits(vs), s, 3);
  }

  /** The values vs, read in this order, are the bits of the lengths cl. */
  lemma {:induction false} ClBitsAre(order: seq<nat>, cl: seq<nat>, nb: nat, j: nat, vs: seq<nat>, rest: seq<bool>)
    requires Once(order) && |cl| == 19 && j <= nb == |vs| <= 19 && forall i :: 0 <= i < nb ==> cl[order[i]] == vs[i]
    ensures TripleBits(vs) + rest == TripleBits(vs[..j]) + (ClBits(order, cl, nb, j) + rest)
    decreases nb - j
  {
    hide ToBits;
    if j == nb {
      assert vs[..j] == vs && [] + rest == rest;
    } else {
      ClBitsAre(order, cl, nb, j + 1, vs, rest);
      assert vs[..j + 1][..j] == vs[..j];
      var v, more := ToBits(vs[j], 3), ClBits(order, cl, nb, j + 1);
      Associative(TripleBits(vs[..j]), v, more + rest);
      Associative(v, more, rest);
    }
  }

  lemma {:induction false} TripleLong(vs: seq<nat>)
    ensures |TripleBits(vs)| == 3 * |vs|
  {
    if vs != [] {
      TripleLong(vs[..|vs| - 1]);
    }
  }

  /** Reads the lengths of the code for the lengths. */
  method ReadClLengths(r: Reader, order: seq<nat>, nb: nat) returns (ok: bool, got: seq<nat>)
    requires r.Valid() && nb <= 19 && Once(order)
    modifies r
    ensures r.Valid() && |r.Stream()| <= |old(r.Stream())| && |got| == 19 && forall i :: 0 <= i < 19 ==> got[i] < 8
    ensures ok <==> |old(r.Stream())| >= 3 * nb
    ensures ok ==> ClOk(order, got, nb) && old(r.Stream()) == ClBits(order, got, nb, 0) + r.Stream()
  {
    hide Reader.Valid, Reader.Stream, ToBits, FromBits, ByteBits, Pow2, TripleBits;
    ghost var vs: seq<nat> := [];
    got := Repeated(0, 19);
    Pow2Values();
    NoTriples(r.Stream());
    var j := 0;
    while j < nb
      invariant r.Valid() && |r.Stream()| <= |old(r.Stream())|
      invariant j <= nb && |got| == 19 && (forall i :: 0 <= i < 19 ==> got[i] < 8)
      invariant |vs| == j && old(r.Stream()) == TripleBits(vs) + r.Stream()
      invariant forall i :: 0 <= i < j ==> got[order[i]] == vs[i]
    {
      TripleLong(vs);
      ghost var stream := r.Stream();
      var v;
      ok, v := r.GetBits(3);
      if !ok {
        return;
      }
      TripleNext(vs, v, stream);
      vs := vs + [v];
      got := got[order[j] := v];
      j := j + 1;
    }
    TripleLong(vs);
    ok := true;
    got := ClearRest(order, got, nb);
    ClBitsAre(order, got, nb, 0, vs, r.Stream());
    NoTriples(ClBits(order, got, nb, 0) + r.Stream());
    assert vs[..0] == [];
  }

  /** Bits are the bits of one list of lengths only. */
  lemma ClUnique(order: seq<nat>, nb: nat, cl: seq<nat>, rest: seq<bool>, cl': seq<nat>, rest': seq<bool>)
    requires ClOk(order, cl, nb) && ClOk(order, cl', nb)
    requires ClBits(order, cl, nb, 0) + rest == ClBits(order, cl', nb, 0) + rest'
    ensures cl == cl' && rest == rest'
  {
    hide ToBits, Pow2;
    ClUniqueFrom(order, nb, 0, cl, rest, cl', rest');
    SameLengths(order, cl, cl');
  }

  lemma {:induction false} ClUniqueFrom(order: seq<nat>, nb: nat, j: nat, cl: seq<nat>, rest: seq<bool>, cl': seq<nat>,
                                        rest': seq<bool>)
    requires ClOk(order, cl, nb) && ClOk(order, cl', nb) && j <= nb
    requires ClBits(order, cl, nb, j) + rest == ClBits(order, cl', nb, j) + rest'
    ensures rest == rest' && forall i :: j <= i < 19 ==> cl[order[i]] == cl'[order[i]]
    decreases nb - j
  {
    hide ToBits, Pow2;
    if j == nb {
      assert [] + rest == rest && [] + rest' == rest';
    } else {
      var v, v' := cl[order[j]], cl'[order[j]];
      var more, more' := ClBits(order, cl, nb, j + 1), ClBits(order, cl', nb, j + 1);
      Pow2Values();
      Associative(ToBits(v, 3), more, rest);
      Associative(ToBits(v', 3), more', rest');
      SameExtra(3, v, v', more + rest, more' + rest');
      ClUniqueFrom(order, nb, j + 1, cl, rest, cl', rest');
    }
  }

  lemma NoTriples(s: seq<bool>)
    ensures TripleBits([]) + s == s
  {
  }

  /** The lengths that are not sent are zero. */
  method ClearRest(order: seq<nat>, lens: seq<nat>, nb: nat) returns (got: seq<nat>)
    requires Once(order) && |lens| == 19 && nb <= 19 && forall i :: 0 <= i < 19 ==> lens[i] < 8
    ensures |got| == 19 && forall i :: 0 <= i < 19 ==> got[i] < 8
    ensures forall i :: 0 <= i < 19 ==> got[order[i]] == if i < nb then lens[order[i]] else 0
  {
    got := lens;
    var j := nb;
    while j < 19
      invariant nb <= j <= 19 && |got| == 19 && (forall i :: 0 <= i < 19 ==> got[i] < 8)
      invariant forall i :: 0 <= i < 19 ==> got[order[i]] == if i < nb || i >= j then lens[order[i]] else 0
    {
      got := got[order[j] := 0];
      j := j + 1;
    }
  }

  lemma SameLengths(order: seq<nat>, got: seq<nat>, cl: seq<nat>)
    requires Once(order) && |got| == |cl| == 19 && forall i :: 0 <= i < 19 ==> got[order[i]] == cl[order[i]]
    ensures got == cl
  {
    forall s | 0 <= s < 19
      ensures got[s] == cl[s]
    {
      assert s in order;
    }
  }

  // ----- the lengths themselves

  /** Lengths with a single code. Not all bits start with it, but huft_build takes them, and bits that start with no
      code are then taken for the symbol j. */
  ghost predicate Poor(cl: seq<nat>, j: nat) {
    HasCode(cl, j) && j < 19 && forall i :: 0 <= i < |cl| && cl[i] > 0 ==> i == j
  }

  /** No code is at the start of the bits. */
  ghost predicate NoCodeAt(cl: seq<nat>, g: nat, x: seq<bool>) {
    |x| >= g && forall sym: nat :: !Starts(cl, sym, x[..g])
  }

  /** The code for the lengths has a single table, so one look is enough. */
  method NextLength(r: Reader, tl: Pool, bl: nat, ghost cl: seq<nat>, ghost junk: Junk) returns (ok: bool, j: nat)
    requires r.Valid() && Tree(cl, 19, [], []).Reads(tl, bl) && bl == Span(cl) <= LOOKAHEAD
    requires |cl| == 19 && !Overfull(cl) && !Partial(cl) && (NoCodes(cl) ==> tl == InvalidOnly(junk))
    modifies r
    ensures r.Valid() && |r.Stream()| <= |old(r.Stream())| && (ok <==> bl <= |old(r.Stream())|)
    ensures NoCodes(cl) ==> (ok <==> old(r.Stream()) != [])
    ensures ok && NoCodes(cl) ==> j == junk.At(old(r.Stream())[0]) && r.Stream() == old(r.Stream())[1..]
    ensures ok && !NoCodes(cl) ==>
      && j < 19
      && ((HasCode(cl, j) && old(r.Stream()) == CodeBits(cl, j) + r.Stream())
        || (NoCodeAt(cl, bl, old(r.Stream())) && Poor(cl, j)))
  {
    hide Reader.Valid, Reader.Stream, CodeBits, Tree.Reads, HasCode, Poor, Overfull, Partial, FromBits, NoCodeAt;
    j := 0;
    ghost var stream := r.Stream();
    ok := r.NeedBits(bl);
    if ok {
      var i := r.Peek(bl);
      if NoCodes(cl) {
        JunkEntry(junk, stream, i);
      } else {
        EntryMeans(tl, bl, cl, stream, i);
      }
      var entry := tl[0].entries[i];
      r.DumpBits(entry.b);
      j := entry.n;
    }
  }

  lemma JunkEntry(junk: Junk, stream: seq<bool>, i: nat)
    requires |stream| >= 1 && i == FromBits(stream[..1])
    ensures i < 2 && InvalidOnly(junk)[0].entries[i] == Leaf(99, 1, junk.At(stream[0]))
  {
    assert stream[..1][1..] == [];
  }

  /** What an entry of the table says about the bits. */
  lemma EntryMeans(tl: Pool, bl: nat, cl: seq<nat>, stream: seq<bool>, i: nat)
    requires !NoCodes(cl)
    requires Tree(cl, 19, [], []).Reads(tl, bl) && bl == Span(cl) <= |stream| && i == FromBits(stream[..bl])
    requires |cl| == 19 && !Overfull(cl) && !Partial(cl)
    ensures |tl| > 0 && i < |tl[0].entries| && tl[0].entries[i].Leaf? && tl[0].entries[i].b <= bl
    ensures
      var r := tl[0].entries[i];
      && r.n < 19
      && ((HasCode(cl, r.n) && stream == CodeBits(cl, r.n) + stream[r.b..])
        || (NoCodeAt(cl, bl, stream) && Poor(cl, r.n)))
  {
    hide FromBits, CodeBits, Walk, Shaped, Decoded, Poor, Fair, Overfull, Partial;
    var x := stream[..bl];
    assert Decoded(tl, cl, 19, [], [], x);
    OneTable(tl, x);
    if sym: nat :| Starts(cl, sym, x) {
      assert sym < 19;
      Meant(tl, cl, x, sym);
      PrefixOf(CodeBits(cl, sym), stream, bl);
    } else {
      Strays(tl, bl, cl, x);
    }
  }

  lemma PrefixOf(c: seq<bool>, s: seq<bool>, n: nat)
    requires n <= |s| && c <= s[..n]
    ensures s == c + s[|c|..]
  {
  }

  /** Bits that start with no code. */
  lemma Strays(tl: Pool, bl: nat, cl: seq<nat>, x: seq<bool>)
    requires !NoCodes(cl)
    requires Tree(cl, 19, [], []).Reads(tl, bl) && |x| == Span(cl) && forall sym: nat :: !Starts(cl, sym, x)
    requires |cl| == 19 && !Overfull(cl) && !Partial(cl)
    ensures Walk(tl, 0, 0, x).Got? && Poor(cl, Walk(tl, 0, 0, x).n) && Walk(tl, 0, 0, x).n < 19
  {
    hide Walk, Starts, Kraft, Pow2, Longest, Fair, Shaped;
    assert Decoded(tl, cl, 19, [], [], x);
    if Kraft(cl, Longest(cl)) == Pow2(Longest(cl)) {
      var sym := AllStart(cl, x);
    }
    OneCode(cl);
  }

  /** An incomplete code of one bit has one symbol. */
  lemma OneCode(cl: seq<nat>)
    requires !NoCodes(cl) && Longest(cl) == 1 && Kraft(cl, 1) < Pow2(1)
    ensures forall i, j :: 0 <= i < |cl| && 0 <= j < |cl| && cl[i] > 0 && cl[j] > 0 ==> i == j
  {
    hide Count;
    assert Kraft(cl, 1) == Count(cl, 1) && Pow2(1) == 2;
    assert cl[..|cl|] == cl;
    forall i, j | 0 <= i < j < |cl| && cl[i] > 0 && cl[j] > 0
      ensures false
    {
      CountPositive(cl[..j], 1);
      assert cl[..j][i] == 1;
      CountBefore(cl, j, |cl|);
    }
  }

  lemma Meant(tl: Pool, cl: seq<nat>, x: seq<bool>, sym: nat)
    requires Decoded(tl, cl, 19, [], [], x) && Starts(cl, sym, x) && sym < 19
    ensures Walk(tl, 0, 0, x) == Got(16, sym, cl[sym])
  {
    hide Walk, CodeBits;
  }

  /** The root table decides x. */
  lemma OneTable(p: Pool, x: seq<bool>)
    requires Shaped(p) && |p| > 0 && Walk(p, 0, 0, x).Got? && |x| == p[0].bits
    ensures
      && FromBits(x) < |p[0].entries|
      && var r := p[0].entries[FromBits(x)];
      && r.Leaf? && r.b <= p[0].bits && Walk(p, 0, 0, x) == Got(r.e, r.n, r.b)
  {
    hide FromBits;
    assert x[0..|x|] == x;
    WalkStep(p, 0, 0, x);
  }

  lemma {:induction false} SpreadGrows(its: seq<LenItem>, k: nat)
    requires k <= |its|
    ensures |SpreadAll(its[..k])| <= |SpreadAll(its)| && (k < |its| ==> |SpreadAll(its[..k])| < |SpreadAll(its)|)
    decreases |its|
  {
    if k < |its| {
      SpreadGrows(its[..|its| - 1], k);
      assert its[..|its| - 1][..k] == its[..k];
    } else {
      assert its[..k] == its;
    }
  }

  lemma SpreadNext(its: seq<LenItem>, k: nat)
    requires k < |its|
    ensures
      var lens := SpreadAll(its[..k]);
      && SpreadAll(its[..k + 1]) == lens + its[k].Spread(Last(lens))
      && |lens| + its[k].Count() <= |SpreadAll(its)|
  {
    assert its[..k + 1][..k] == its[..k];
    SpreadGrows(its, k + 1);
  }

  function SymbolExtra(j: nat): nat { if j < 16 then 0 else if j == 16 then 2 else if j == 17 then 3 else 7 }

  /** What a symbol and its extra bits stand for; symbols from 18 on are all alike. */
  function Stands(j: nat, x: nat): LenItem {
    if j < 16 then Len(j) else if j == 16 then Again(x) else if j == 17 then ShortZeros(x) else LongZeros(x)
  }

  /** Reads the extra bits behind the symbol j of the code for the lengths: how many lengths it stands for. */
  method RunLength(r: Reader, j: nat) returns (ok: bool, m: nat, ghost it: LenItem)
    requires r.Valid()
    modifies r
    ensures r.Valid() && |r.Stream()| <= |old(r.Stream())| && m >= 1 && (ok <==> |old(r.Stream())| >= SymbolExtra(j))
    ensures (j < 19 ==> it.Sym() == j) && (it.Len? ==> it.v < 16) && it.ExtraBits() == SymbolExtra(j)
    ensures ok ==>
      && it.Extra() < Pow2(it.ExtraBits()) && m == it.Count()
      && old(r.Stream()) == ToBits(it.Extra(), it.ExtraBits()) + r.Stream()
    ensures ok ==>
      it == Stands(j, FromBits(old(r.Stream())[..SymbolExtra(j)])) && r.Stream() == old(r.Stream())[SymbolExtra(j)..]
  {
    hide Reader.Valid, Reader.Stream, FromBits, ByteBits, Pow2, ToBits;
    m := 1;
    ghost var stream := r.Stream();
    var x: nat := 0;
    if j < 16 {
      ok := true;
      it := Len(j);
      NoExtra(stream);
    } else if j == 16 {
      ok, x := r.GetBits(2);
      m, it := 3 + x, Again(x);
    } else if j == 17 {
      ok, x := r.GetBits(3);
      m, it := 3 + x, ShortZeros(x);
    } else {
      ok, x := r.GetBits(7);
      m, it := 11 + x, LongZeros(x);
    }
    if ok && j >= 16 {
      assert stream == stream[..SymbolExtra(j)] + stream[SymbolExtra(j)..];
    }
  }

  lemma NoExtra(s: seq<bool>)
    ensures ToBits(0, 0) + s == s && 0 < Pow2(0)
  {
  }

  // ----- without a code for the lengths

  datatype Guessed = Lengths(lens: seq<nat>, rest: seq<bool>) | TooLong | Cut

  /** One round of reading lengths with a code in which no symbol has a code: each bit is taken for a symbol, the one
      that memory holds. */
  function GuessRun(x: seq<bool>, n: nat, lens: seq<nat>, junk: Junk): Guessed {
    if x == [] then Cut
    else
      var j := junk.At(x[0]);
      if |x| < 1 + SymbolExtra(j) then Cut
      else
        var it := Stands(j, FromBits(x[1..][..SymbolExtra(j)]));
        if |lens| + it.Count() > n then TooLong
        else Lengths(lens + it.Spread(Last(lens)), x[1..][SymbolExtra(j)..])
  }

  /** The n lengths that are read, the first of which are lens. */
  function Guess(x: seq<bool>, n: nat, lens: seq<nat>, junk: Junk): (g: Guessed)
    requires |lens| <= n
    ensures g.Lengths? ==> |g.lens| == n && |g.rest| <= |x|
    decreases n - |lens|
  {
    if |lens| == n then Lengths(lens, x)
    else match GuessRun(x, n, lens, junk) {
      case Lengths(more, rest) => Guess(rest, n, more, junk)
      case stop => stop
    }
  }

  /** The outcome of reading lengths is that of guessing. */
  ghost predicate Agrees(res: Result, lens: seq<nat>, rest: seq<bool>, g: Guessed) {
    match g
    case Lengths(lens', rest') => res == Code(0) && lens == lens' && rest == rest'
    case TooLong => res == Code(1)
    case Cut => res == EndOfFile
  }

  /** Why reading lengths stops, with the lengths of `got` read and the bits `left` in front. */
  datatype LensStop = AllThere | Excess | Short | Stray

  ghost predicate LensStops(cl: seq<nat>, g: nat, n: nat, got: seq<LenItem>, left: seq<bool>, why: LensStop) {
    var k := |SpreadAll(got)|;
    match why
    case AllThere => k == n
    case Excess => k < n && SomeTooMany(cl, n - k, left)
    case Short => k < n && LensEnd(cl, g, left)
    case Stray => k < n && NoCodeAt(cl, g, left)
  }

  /** The bits go on with a run of more than n lengths. */
  ghost predicate TooMany(cl: seq<nat>, n: nat, x: seq<bool>, it: LenItem, r: seq<bool>) {
    it.Ok(cl) && x == it.Bits(cl) + r && it.Count() > n
  }

  ghost predicate SomeTooMany(cl: seq<nat>, n: nat, x: seq<bool>) {
    exists it: LenItem, r: seq<bool> :: TooMany(cl, n, x, it, r)
  }

  /** The bits are too few for a look-up, or for the extra bits of a symbol. */
  ghost predicate LensEnd(cl: seq<nat>, g: nat, x: seq<bool>) {
    |x| < g || exists j: nat, r: seq<bool> :: NoRun(cl, x, j, r)
  }

  ghost predicate NoRun(cl: seq<nat>, x: seq<bool>, j: nat, r: seq<bool>) {
    HasCode(cl, j) && j < 19 && x == CodeBits(cl, j) + r && |r| < SymbolExtra(j)
  }

  /** All lengths are the same. */
  ghost predicate Flat(lens: seq<nat>) { forall i, j :: 0 <= i < |lens| && 0 <= j < |lens| ==> lens[i] == lens[j] }

  /** The length that a code with the symbol j alone stands for again and again. */
  function Always(j: nat): nat { if j < 16 then j else 0 }

  ghost predicate AllAre(lens: seq<nat>, v: nat) { forall i :: 0 <= i < |lens| ==> lens[i] == v }

  /** One round of the loop: a run is read, and appended if there is room for it. */
  method ReadRun(r: Reader, tl: Pool, bl: nat, n: nat, lens0: seq<nat>, l0: nat, ghost cl: seq<nat>, ghost junk: Junk)
    returns (res: Result, lens: seq<nat>, l: nat, ghost it: LenItem, ghost stray: bool)
    requires r.Valid() && Tree(cl, 19, [], []).Reads(tl, bl) && bl == Span(cl) <= LOOKAHEAD
    requires |cl| == 19 && !Overfull(cl) && !Partial(cl) && (NoCodes(cl) ==> tl == InvalidOnly(junk))
    requires |lens0| < n && l0 < 16 && forall i :: 0 <= i < |lens0| ==> lens0[i] < 16
    modifies r
    ensures r.Valid() && |r.Stream()| <= |old(r.Stream())|
    ensures res == Code(0) || res == Code(1) || res == EndOfFile
    ensures res == Code(0) ==>
      |lens0| < |lens| <= n && l < 16 && (forall i :: 0 <= i < |lens| ==> lens[i] < 16) && Last(lens) == l
    ensures NoCodes(cl) && l0 == Last(lens0) ==>
      Agrees(res, lens, r.Stream(), GuessRun(old(r.Stream()), n, lens0, junk))
    ensures !NoCodes(cl) && !stray ==> match res
      case Code(0) =>
        && it.Ok(cl) && old(r.Stream()) == it.Bits(cl) + r.Stream()
        && (l0 == Last(lens0) ==> lens == lens0 + it.Spread(l0))
      case Code(_) => TooMany(cl, n - |lens0|, old(r.Stream()), it, r.Stream())
      case EndOfFile => LensEnd(cl, bl, old(r.Stream()))
    ensures !NoCodes(cl) && stray ==> NoCodeAt(cl, bl, old(r.Stream())) && exists j: nat :: Poor(cl, j)
    ensures forall j: nat ::
      Poor(cl, j) && res == Code(0) && AllAre(lens0, Always(j)) && (l0 == Always(j) || (l0 == 0 && lens0 == [])) ==>
      AllAre(lens, Always(j)) && l == Always(j)
  {
    hide Reader.Valid, Reader.Stream, ToBits, CodeBits, Tree.Reads, Pow2, Poor, Overfull, Partial, NoCodeAt, Span;
    ghost var s0 := r.Stream();
    lens, l, it, stray := lens0, l0, Len(0), false;
    var ok, j := NextLength(r, tl, bl, cl, junk);
    if !ok {
      res := EndOfFile;
      return;
    }
    ghost var s1 := r.Stream();
    stray := !(HasCode(cl, j) && s0 == CodeBits(cl, j) + s1);
    var m;
    ok, m, it := RunLength(r, j);
    if !ok {
      assert !NoCodes(cl) && !stray ==> NoRun(cl, s0, j, s1);
      res := EndOfFile;
      return;
    }
    if !stray {
      Associative(CodeBits(cl, j), ToBits(it.Extra(), it.ExtraBits()), r.Stream());
    }
    if |lens0| + m > n {
      res := Code(1);
      return;
    }
    l := if j < 16 then j else if j == 16 then l0 else 0;
    SpreadLast(lens0, l, m);
    lens := lens0 + Repeated(l, m);
    res := Code(0);
    PoorRun(cl, j);
  }

  /** With a single symbol, nothing else is read. */
  lemma PoorRun(cl: seq<nat>, j: nat)
    requires !NoCodes(cl) ==> j < 19 && (HasCode(cl, j) || Poor(cl, j))
    ensures forall q: nat :: Poor(cl, q) ==> q == j
  {
  }

  /** Reads the lengths of the two codes. */
  method ReadLengths(r: Reader, tl: Pool, bl: nat, n: nat, ghost cl: seq<nat>, ghost junk: Junk)
    returns (res: Result, lens: seq<nat>, ghost got: seq<LenItem>, ghost left: seq<bool>, ghost why: LensStop)
    requires r.Valid() && Tree(cl, 19, [], []).Reads(tl, bl) && bl == Span(cl) <= LOOKAHEAD
    requires |cl| == 19 && !Overfull(cl) && !Partial(cl) && (NoCodes(cl) ==> tl == InvalidOnly(junk))
    modifies r
    ensures r.Valid() && |r.Stream()| <= |old(r.Stream())|
    ensures res == Code(0) ==> |lens| == n && forall i :: 0 <= i < n ==> lens[i] < 16
    ensures NoCodes(cl) ==> Agrees(res, lens, r.Stream(), Guess(old(r.Stream()), n, [], junk))
    ensures AllOk(cl, got) && old(r.Stream()) == LensBits(cl, got) + left
    ensures !NoCodes(cl) ==> LensStops(cl, bl, n, got, left, why)
    ensures !NoCodes(cl) ==> match why
      case AllThere => res == Code(0) && lens == SpreadAll(got) && left == r.Stream()
      case Excess => res == Code(1)
      case Short => res == EndOfFile
      case Stray => res == Code(0) ==> Flat(lens)
  {
    hide Reader.Valid, Reader.Stream, ToBits, FromBits, ByteBits, Pow2, CodeBits, LensBits, SpreadAll, Tree.Reads,
         Overfull, Partial, Span, Poor, NoCodeAt, AllOk, GuessRun;
    got, left, why := [], r.Stream(), AllThere;
    lens := [];
    var l: nat := 0;
    NoLens();
    NoLensBits(cl, left);
    NoneOk(cl);
    while |lens| < n
      invariant r.Valid() && |r.Stream()| <= |old(r.Stream())| && |lens| <= n && l < 16
      invariant forall i :: 0 <= i < |lens| ==> lens[i] < 16
      invariant AllOk(cl, got) && old(r.Stream()) == LensBits(cl, got) + left
      invariant why == AllThere || why == Stray
      invariant NoCodes(cl) ==>
        l == Last(lens) && Guess(old(r.Stream()), n, [], junk) == Guess(r.Stream(), n, lens, junk)
      invariant !NoCodes(cl) && why == AllThere ==> lens == SpreadAll(got) && l == Last(lens) && left == r.Stream()
      invariant !NoCodes(cl) && why == Stray ==>
        LensStops(cl, bl, n, got, left, Stray) && exists j: nat :: Poor(cl, j)
      invariant forall j: nat :: Poor(cl, j) ==> AllAre(lens, Always(j)) && (l == Always(j) || (l == 0 && lens == []))
      decreases n - |lens|
    {
      ghost var it, stray, was := Len(0), false, lens;
      res, lens, l, it, stray := ReadRun(r, tl, bl, n, lens, l, cl, junk);
      if !NoCodes(cl) && why == AllThere {
        if stray {
          why := Stray;
        } else if res == Code(0) {
          OneMoreRun(cl, got, it, left, r.Stream());
          got, left := got + [it], r.Stream();
        } else {
          why := if res == Code(1) then Excess else Short;
        }
      }
      if res != Code(0) {
        return;
      }
    }
    res := Code(0);
  }

  lemma NoneOk(cl: seq<nat>)
    ensures AllOk(cl, [])
  {
  }

  lemma OneMoreRun(cl: seq<nat>, got: seq<LenItem>, it: LenItem, left: seq<bool>, more: seq<bool>)
    requires AllOk(cl, got) && it.Ok(cl) && left == it.Bits(cl) + more
    ensures AllOk(cl, got + [it]) && LensBits(cl, got) + left == LensBits(cl, got + [it]) + more
    ensures SpreadAll(got + [it]) == SpreadAll(got) + it.Spread(Last(SpreadAll(got)))
  {
    hide CodeBits, ToBits, Pow2, HasCode;
    LensAppend(cl, got, it);
    Associative(LensBits(cl, got), it.Bits(cl), more);
    assert (got + [it])[..|got|] == got;
  }

  lemma {:induction false} LensAppend(cl: seq<nat>, got: seq<LenItem>, it: LenItem)
    requires AllOk(cl, got) && it.Ok(cl)
    ensures AllOk(cl, got + [it]) && LensBits(cl, got + [it]) == LensBits(cl, got) + it.Bits(cl)
  {
    hide CodeBits, ToBits, Pow2, HasCode;
    if got == [] {
      assert got + [it] == [it] && [it][1..] == [];
    } else {
      assert (got + [it])[1..] == got[1..] + [it];
      LensAppend(cl, got[1..], it);
      Associative(got[0].Bits(cl), LensBits(cl, got[1..]), it.Bits(cl));
    }
  }

  lemma SameRun(cl: seq<nat>, g: nat, it: LenItem, r: seq<bool>, it': LenItem, r': seq<bool>)
    requires Fair(cl, g) && it.Ok(cl) && it'.Ok(cl) && it.Bits(cl) + r == it'.Bits(cl) + r'
    ensures it == it' && r == r'
  {
    hide CodeBits, ToBits, Pow2, Fair;
    Associative(CodeBits(cl, it.Sym()), ToBits(it.Extra(), it.ExtraBits()), r);
    Associative(CodeBits(cl, it'.Sym()), ToBits(it'.Extra(), it'.ExtraBits()), r');
    SameCode(cl, g, it.Sym(), it'.Sym(),
             ToBits(it.Extra(), it.ExtraBits()) + r, ToBits(it'.Extra(), it'.ExtraBits()) + r');
    SameExtra(it.ExtraBits(), it.Extra(), it'.Extra(), r, r');
  }

  // ----- only one header has the bits

  /** The runs read are the first of those sent. */
  lemma {:induction false} LensPrefix(cl: seq<nat>, g: nat, its: seq<LenItem>, rest: seq<bool>, got: seq<LenItem>,
                                      left: seq<bool>)
    requires Fair(cl, g) && AllOk(cl, its) && AllOk(cl, got) && |got| <= |its|
    requires LensBits(cl, its) + rest == LensBits(cl, got) + left
    ensures got == its[..|got|] && left == LensBits(cl, its[|got|..]) + rest
    decreases |got|
  {
    hide CodeBits, ToBits, Pow2, Fair, LenItem.Bits;
    if got == [] {
      assert its[0..] == its && [] + left == left;
    } else {
      var more, more' := LensBits(cl, its[1..]), LensBits(cl, got[1..]);
      Associative(its[0].Bits(cl), more, rest);
      Associative(got[0].Bits(cl), more', left);
      SameRun(cl, g, its[0], more + rest, got[0], more' + left);
      LensPrefix(cl, g, its[1..], rest, got[1..], left);
      LongerPrefix(its, got);
    }
  }

  lemma LongerPrefix(its: seq<LenItem>, got: seq<LenItem>)
    requires 1 <= |got| <= |its| && got[0] == its[0] && got[1..] == its[1..][..|got| - 1]
    ensures got == its[..|got|] && its[1..][|got| - 1..] == its[|got|..]
  {
    assert got == [got[0]] + got[1..] && its[..|got|] == [its[0]] + its[1..|got|];
  }

  /** In front of a run that fits, reading lengths does not stop. */
  lemma RunGoesOn(cl: seq<nat>, g: nat, it: LenItem, r: seq<bool>, k: nat)
    requires Fair(cl, g) && it.Ok(cl) && |r| >= g && it.Count() <= k
    ensures !LensEnd(cl, g, it.Bits(cl) + r) && !NoCodeAt(cl, g, it.Bits(cl) + r)
    ensures !SomeTooMany(cl, k, it.Bits(cl) + r)
  {
    hide CodeBits, ToBits, Pow2, Fair, LenItem.Count;
    var x, extra := it.Bits(cl) + r, ToBits(it.Extra(), it.ExtraBits());
    Associative(CodeBits(cl, it.Sym()), extra, r);
    CodeStarts(cl, it.Sym(), extra + r);
    FairBound(cl, g);
    StartsPadded(cl, g, it.Sym(), x);
    forall j: nat, r': seq<bool> | NoRun(cl, x, j, r')
      ensures false
    {
      SameCode(cl, g, it.Sym(), j, extra + r, r');
    }
    forall it': LenItem, r': seq<bool> | TooMany(cl, k, x, it', r')
      ensures false
    {
      SameRun(cl, g, it, r, it', r');
    }
  }

  lemma LensUnique(cl: seq<nat>, g: nat, n: nat, its: seq<LenItem>, rest: seq<bool>, got: seq<LenItem>,
                   left: seq<bool>, why: LensStop)
    requires Fair(cl, g) && AllOk(cl, its) && AllOk(cl, got) && |SpreadAll(its)| == n
    requires |rest| >= g || why == AllThere
    requires LensBits(cl, its) + rest == LensBits(cl, got) + left && LensStops(cl, g, n, got, left, why)
    ensures why == AllThere && got == its && left == rest
  {
    hide CodeBits, ToBits, Pow2, Fair, LenItem.Bits, SpreadAll, LensEnd, NoCodeAt, SomeTooMany;
    if |got| > |its| {
      LensPrefix(cl, g, got, left, its, rest);
      SpreadGrows(got, |its|);
    } else {
      LensPrefix(cl, g, its, rest, got, left);
      var k := |got|;
      if k < |its| {
        SpreadGrows(its, k);
        SpreadNext(its, k);
        var more := LensBits(cl, its[k + 1..]) + rest;
        assert its[k..][1..] == its[k + 1..];
        Associative(its[k].Bits(cl), LensBits(cl, its[k + 1..]), rest);
        RunGoesOn(cl, g, its[k], more, n - |SpreadAll(got)|);
      } else {
        assert its[..k] == its && its[k..] == [];
        NoLensBits(cl, rest);
      }
    }
  }

  lemma NoLens()
    ensures SpreadAll([]) == []
  {
  }

  lemma NoLensBits(cl: seq<nat>, rest: seq<bool>)
    ensures LensBits(cl, []) + rest == rest
  {
  }

  lemma SpreadLast(lens: seq<nat>, l: nat, m: nat)
    requires m > 0
    ensures Last(lens + Repeated(l, m)) == l
  {
  }

  /** Reads the three counts of a header. */
  method ReadCounts(r: Reader) returns (ok: bool, nl: nat, nd: nat, nb: nat)
    requires r.Valid()
    modifies r
    ensures r.Valid() && |r.Stream()| <= |old(r.Stream())| && (ok <==> |old(r.Stream())| >= 14)
    ensures ok ==>
      4 <= nb <= 19 && 1 <= nd <= 32 && 257 <= nl <= 288 && CountsAre(old(r.Stream()), nl, nd, nb, r.Stream())
  {
    hide Reader.Valid, Reader.Stream, ToBits, FromBits, Pow2;
    nl, nd, nb := 0, 0, 0;
    SmallPowers();
    ghost var s0 := r.Stream();
    var v;
    ok, v := r.GetBits(5);
    if !ok {
      return;
    }
    nl := 257 + v;
    ghost var s1 := r.Stream();
    ok, v := r.GetBits(5);
    if !ok {
      return;
    }
    nd := 1 + v;
    ghost var s2 := r.Stream();
    ok, v := r.GetBits(4);
    if !ok {
      return;
    }
    nb := 4 + v;
    assert s0 == s0[..5] + s1 && s1 == s1[..5] + s2 && s2 == s2[..4] + r.Stream();
  }

  ghost predicate CountsAre(x: seq<bool>, nl: nat, nd: nat, nb: nat, y: seq<bool>) {
    && nl >= 257 && nd >= 1 && nb >= 4
    && x == ToBits(nl - 257, 5) + (ToBits(nd - 1, 5) + (ToBits(nb - 4, 4) + y))
  }

  lemma HeaderParts(a: seq<bool>, b: seq<bool>, c: seq<bool>, d: seq<bool>, rest: seq<bool>)
    ensures (a + (b + (c + d))) + rest == a + (b + (c + (d + rest)))
  {
  }

  lemma CountsUnique(h: Header, rest: seq<bool>, nl: nat, nd: nat, nb: nat, y: seq<bool>)
    requires h.Ok() && nb <= 19 && nd <= 32 && nl <= 288 && CountsAre(h.Bits() + rest, nl, nd, nb, y)
    ensures nl == h.nl && nd == h.nd && nb == h.nb && y == h.LengthBits() + rest
  {
    hide ToBits, FromBits, Pow2, ClOk, AllOk, Overfull, Partial, Header.LengthBits;
    SmallPowers();
    var a, b, c, d := ToBits(h.nl - 257, 5), ToBits(h.nd - 1, 5), ToBits(h.nb - 4, 4), h.LengthBits() + rest;
    var b', c' := ToBits(nd - 1, 5), ToBits(nb - 4, 4);
    HeaderParts(a, b, c, h.LengthBits(), rest);
    SameExtra(5, h.nl - 257, nl - 257, b + (c + d), b' + (c' + y));
    SameExtra(5, h.nd - 1, nd - 1, c + d, c' + y);
    SameExtra(4, h.nb - 4, nb - 4, d, y);
  }

  // ----- headers without a code for the lengths

  function LitCount(z: seq<bool>): nat
    requires |z| >= 14
  {
    257 + FromBits(z[..5])
  }

  function DistCount(z: seq<bool>): nat
    requires |z| >= 14
  {
    1 + FromBits(z[5..10])
  }

  function ClCount(z: seq<bool>): nat
    requires |z| >= 14
  {
    4 + FromBits(z[10..14])
  }

  /** The bits are those of a header in which all lengths of the code for the lengths are zero. */
  predicate EmptyCode(z: seq<bool>) {
    && |z| >= 14 && LitCount(z) <= 286 && DistCount(z) <= 30 && |z| >= 14 + 3 * ClCount(z)
    && z[14..14 + 3 * ClCount(z)] == Zeros(3 * ClCount(z))
  }

  /** The lengths that are read from them. */
  function GuessAt(z: seq<bool>, junk: Junk): (g: Guessed)
    requires EmptyCode(z)
    ensures g.Lengths? ==> |g.lens| == LitCount(z) + DistCount(z) && |g.rest| <= |z|
  {
    Guess(z[14 + 3 * ClCount(z)..], LitCount(z) + DistCount(z), [], junk)
  }

  lemma EmptyNeeds(z: seq<bool>)
    ensures EmptyCode(z) ==> |z| >= 14 && LitCount(z) <= 286 && DistCount(z) <= 30 && |z| >= 14 + 3 * ClCount(z)
  {
  }

  lemma EmptyBuilds(cl: seq<nat>)
    ensures NoCodes(cl) ==> !Overfull(cl) && !Partial(cl)
  {
  }

  lemma CountsRead(z: seq<bool>, nl: nat, nd: nat, nb: nat, y: seq<bool>)
    requires CountsAre(z, nl, nd, nb, y) && nl <= 288 && nd <= 32 && nb <= 19
    ensures |z| >= 14 && LitCount(z) == nl && DistCount(z) == nd && ClCount(z) == nb && y == z[14..]
  {
    hide ToBits, FromBits, Pow2;
    SmallPowers();
    var a, b, c := ToBits(nl - 257, 5), ToBits(nd - 1, 5), ToBits(nb - 4, 4);
    assert z[..5] == a && z[5..10] == b && z[10..14] == c;
    FromTo(nl - 257, 5);
    FromTo(nd - 1, 5);
    FromTo(nb - 4, 4);
  }

  /** The three zero bits of each length. */
  lemma {:induction false} NoClBits(order: seq<nat>, cl: seq<nat>, nb: nat, j: nat)
    requires ClOk(order, cl, nb) && NoCodes(cl) && j <= nb
    ensures ClBits(order, cl, nb, j) == Zeros(3 * (nb - j))
    decreases nb - j
  {
    if j < nb {
      NoClBits(order, cl, nb, j + 1);
      ThreeZeros(3 * (nb - j - 1));
    }
  }

  lemma ThreeZeros(n: nat)
    ensures ToBits(0, 3) + Zeros(n) == Zeros(n + 3)
  {
    assert ToBits(0, 3) == [false] + ([false] + [false]);
    assert Zeros(n + 1) == [false] + Zeros(n);
    assert Zeros(n + 2) == [false] + Zeros(n + 1);
    assert Zeros(n + 3) == [false] + Zeros(n + 2);
  }

  /** All lengths are zero exactly if their bits are. */
  lemma EmptyIff(z: seq<bool>, nl: nat, nd: nat, nb: nat, cl: seq<nat>, rest: seq<bool>)
    requires nl <= 286 && nd <= 30 && nb <= 19 && ClOk(BORDER, cl, nb)
    requires CountsAre(z, nl, nd, nb, ClBits(BORDER, cl, nb, 0) + rest)
    ensures NoCodes(cl) <==> EmptyCode(z)
    ensures EmptyCode(z) ==> LitCount(z) == nl && DistCount(z) == nd && z[14 + 3 * ClCount(z)..] == rest
  {
    hide ClBits, Once, CountsAre, LitCount, DistCount, ClCount, NoCodes;
    var bits := ClBits(BORDER, cl, nb, 0);
    CountsRead(z, nl, nd, nb, bits + rest);
    ClLength(cl, nb);
    Parts(bits, rest, z[14..]);
    assert z[14..14 + 3 * nb] == z[14..][..3 * nb] && z[14 + 3 * nb..] == z[14..][3 * nb..];
    if NoCodes(cl) {
      NoClBits(BORDER, cl, nb, 0);
    } else if EmptyCode(z) {
      ZeroBits(cl, nb, rest);
    }
  }

  lemma ClLength(cl: seq<nat>, nb: nat)
    requires ClOk(BORDER, cl, nb)
    ensures |ClBits(BORDER, cl, nb, 0)| == 3 * nb
  {
    hide ClBits;
    ClLong(BORDER, cl, nb, 0);
  }

  lemma ZeroBits(cl: seq<nat>, nb: nat, rest: seq<bool>)
    requires ClOk(BORDER, cl, nb) && ClBits(BORDER, cl, nb, 0) == Zeros(3 * nb)
    ensures NoCodes(cl)
  {
    hide ClBits;
    var none := Repeated(0, 19);
    NoClBits(BORDER, none, nb, 0);
    ClUnique(BORDER, nb, cl, rest, none, rest);
  }

  /** Such bits are no header. */
  lemma EmptyIsNone(h: Header, rest: seq<bool>)
    requires h.Ok()
    ensures !EmptyCode(h.Bits() + rest)
  {
    hide Once, Overfull, Partial, ClBits, LensBits, AllOk, EmptyCode, SpreadAll, CountsAre;
    TwoParts(h, rest);
    HeaderCounts(h, rest);
    EmptyIff(h.Bits() + rest, h.nl, h.nd, h.nb, h.cl, LensBits(h.cl, h.its) + rest);
    SomeCode(h);
  }

  lemma HeaderCounts(h: Header, rest: seq<bool>)
    requires h.Ok()
    ensures CountsAre(h.Bits() + rest, h.nl, h.nd, h.nb, h.LengthBits() + rest)
  {
    hide ToBits, ClOk, AllOk, Overfull, Partial, Header.LengthBits;
    HeaderParts(ToBits(h.nl - 257, 5), ToBits(h.nd - 1, 5), ToBits(h.nb - 4, 4), h.LengthBits(), rest);
  }

  lemma SomeCode(h: Header)
    requires h.Ok()
    ensures !NoCodes(h.cl)
  {
    if h.its == [] {
      NoLens();
    } else {
      assert h.its[0].Ok(h.cl);
    }
  }

  lemma HeaderLong(h: Header)
    requires h.Ok()
    ensures |h.Bits()| >= 14
  {
    hide ToBits, ClOk, AllOk, Overfull, Partial, Header.LengthBits;
  }

  /** Reads a header: the numbers of literal/length and distance codes, and the lengths of both. */
  method ReadHeader(r: Reader, junk: Junk, ghost h: Header, ghost rest: seq<bool>)
    returns (res: Result, nl: nat, nd: nat, lens: seq<nat>, ghost h': Header)
    requires r.Valid()
    modifies r
    ensures r.Valid() && |r.Stream()| <= |old(r.Stream())|
    ensures res == Code(0) ==>
      257 <= nl <= 286 && 1 <= nd <= 30 && |lens| == nl + nd && forall i :: 0 <= i < |lens| ==> lens[i] < 16
    ensures h.Ok() && |rest| >= LOOKAHEAD && old(r.Stream()) == h.Bits() + rest ==>
      res == Code(0) && h' == h && r.Stream() == rest && nl == h.nl && nd == h.nd && lens == h.Lengths()
    ensures EmptyCode(old(r.Stream())) ==>
      && nl == LitCount(old(r.Stream())) && nd == DistCount(old(r.Stream()))
      && Agrees(res, lens, r.Stream(), GuessAt(old(r.Stream()), junk))
    ensures res == Code(0) && !EmptyCode(old(r.Stream())) ==>
      || Flat(lens)
      || (h'.Ok() && old(r.Stream()) == h'.Bits() + r.Stream() && nl == h'.nl && nd == h'.nd && lens == h'.Lengths())
  {
    hide Reader.Valid, Reader.Stream, Header.Bits, Header.LengthBits, ClBits, LensBits, SpreadAll, Once, Overfull,
         Partial, Tree.Reads, Longest, Shortest, LensStops, Flat, Fair, CountsAre, EmptyCode, Guess, NoCodes;
    lens, h' := [], h;
    var ok, nb;
    ghost var s0 := r.Stream();
    ghost var given := h.Ok() && |rest| >= LOOKAHEAD && s0 == h.Bits() + rest;
    if given {
      HeaderLong(h);
      EmptyIsNone(h, rest);
    }
    ok, nl, nd, nb := ReadCounts(r);
    EmptyNeeds(s0);
    if ok {
      CountsRead(s0, nl, nd, nb, r.Stream());
    }
    if !ok {
      return EndOfFile, nl, nd, lens, h';
    }
    ghost var s1 := r.Stream();
    if given {
      CountsUnique(h, rest, nl, nd, nb, s1);
      EnoughBits(h, rest);
    }
    if nl > 286 || nd > 30 {
      return Code(1), nl, nd, lens, h';
    }
    BorderOnce();
    var cl;
    ok, cl := ReadClLengths(r, BORDER, nb);
    if !ok {
      return EndOfFile, nl, nd, lens, h';
    }
    if given {
      TwoParts(h, rest);
      ClUnique(BORDER, nb, h.cl, LensBits(h.cl, h.its) + rest, cl, r.Stream());
    }
    ShortLengths(cl);
    EmptyIff(s0, nl, nd, nb, cl, r.Stream());
    EmptyBuilds(cl);
    var i, tl, bl := BuildTree(cl, 19, [], [], 7, junk);
    if i != 0 {
      return Code(i), nl, nd, lens, h';
    }
    ghost var got, left, why;
    res, lens, got, left, why := ReadLengths(r, tl, bl, nl + nd, cl, junk);
    ReadsFair(Tree(cl, 19, [], []), tl, bl);
    if given {
      LensUnique(cl, Span(cl), nl + nd, h.its, rest, got, left, why);
    }
    if !NoCodes(cl) && why == AllThere {
      h' := Header(nl, nd, nb, cl, got);
      TwoParts(h', r.Stream());
      HeaderRead(h', s0, s1, r.Stream());
    }
  }

  lemma {:induction false} ClLong(order: seq<nat>, cl: seq<nat>, nb: nat, j: nat)
    requires Once(order) && |cl| == 19 && j <= nb <= 19
    ensures |ClBits(order, cl, nb, j)| == 3 * (nb - j)
    decreases nb - j
  {
    if j < nb {
      ClLong(order, cl, nb, j + 1);
    }
  }

  lemma EnoughBits(h: Header, rest: seq<bool>)
    requires h.Ok()
    ensures |h.LengthBits() + rest| >= 3 * h.nb
  {
    hide Overfull, Partial, LensBits, ClBits;
    ClLong(BORDER, h.cl, h.nb, 0);
  }

  lemma ReadsFair(tree: Tree, tables: Pool, bits: nat)
    requires tree.Reads(tables, bits)
    ensures Fair(tree.b, Span(tree.b))
  {
  }

  lemma TwoParts(h: Header, rest: seq<bool>)
    requires h.Ok()
    ensures h.LengthBits() + rest == ClBits(BORDER, h.cl, h.nb, 0) + (LensBits(h.cl, h.its) + rest)
  {
    hide Once, Overfull, Partial, ClBits, LensBits, AllOk;
    Associative(ClBits(BORDER, h.cl, h.nb, 0), LensBits(h.cl, h.its), rest);
  }

  lemma HeaderRead(h: Header, x: seq<bool>, y: seq<bool>, rest: seq<bool>)
    requires h.Ok() && CountsAre(x, h.nl, h.nd, h.nb, y) && y == h.LengthBits() + rest
    ensures x == h.Bits() + rest
  {
    hide ToBits, Overfull, Partial, ClBits, LensBits, AllOk, ClOk, Header.LengthBits;
    HeaderParts(ToBits(h.nl - 257, 5), ToBits(h.nd - 1, 5), ToBits(h.nb - 4, 4), h.LengthBits(), rest);
  }

  lemma ShortLengths(cl: seq<nat>)
    requires |cl| == 19 && forall i :: 0 <= i < 19 ==> cl[i] < 8
    ensures Longest(cl) <= 7
  {
  }
}
