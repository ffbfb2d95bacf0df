/** What deflate emits, inflate restores: the tokens of deflate.c as items of fixed blocks. */
module GzipRoundTrip {
  import opened BitIo
  import opened BitReader
  import opened BitWriter
  import opened Huffman
  import opened HuftFront
  import opened Lz77
  import opened InflateSpec
  import opened InflateWindow
  import opened Inflate
  import opened InflateTrees
  import opened InflateBlocks
  import opened InflateStream
  import Deflate

  /** The last of the first n + 1 base values that is not above v. */
  function Pick(base: seq<nat>, n: nat, v: nat): (i: nat)
    requires n < |base| && base[0] <= v
    ensures i <= n && base[i] <= v && (i < n ==> v < base[i + 1])
  {
    if base[n] <= v then n else Pick(base, n - 1, v)
  }

  function LengthCode(len: nat): (nat, nat)
    requires len >= MIN_MATCH
  {
    var i := Pick(CPLENS, 28, len);
    (257 + i, len - CPLENS[i])
  }

  function DistanceCode(dist: nat): (nat, nat)
    requires dist >= 1
  {
    var i := Pick(CPDIST, 29, dist);
    (i, dist - CPDIST[i])
  }

  /** Every match length has a symbol, and 258 has one of its own. */
  lemma LengthSymbol(len: nat)
    requires MIN_MATCH <= len <= MAX_MATCH
    ensures
      var (lsym, lx) := LengthCode(len);
      && 257 <= lsym < 286 && lx < Pow2(CPLEXT[lsym - 257]) && Length(lsym, lx) == len
      && (lsym == 285 <==> len == 258)
  {
    hide Pow2;
    LengthTable();
    SmallPowers();
  }

  /** Every distance up to the window size has a symbol. */
  lemma DistanceSymbol(dist: nat)
    requires 1 <= dist <= WSIZE
    ensures
      var (dsym, dx) := DistanceCode(dist);
      dsym < 30 && dx < Pow2(CPDEXT[dsym]) && Distance(dsym, dx) == dist
  {
    hide Pow2;
    DistanceTable();
  }

  // ----- tokens over bv8 and over bytes

  function AsByte(b: bv8): Byte { b as nat }

  function AsBytes(s: seq<bv8>): (r: seq<Byte>)
    ensures |r| == |s|
  {
    seq(|s|, i requires 0 <= i < |s| => AsByte(s[i]))
  }

  function AsToken(t: Token<bv8>): Token<Byte> {
    match t case Literal(b) => Literal(AsByte(b)) case Match(d, n) => Match(d, n)
  }

  ghost predicate Stands(t: Token<bv8>, it: Item) {
    ItemOk(FixedTrees().lit.b, FixedTrees().dist.b, it) && TokenOf(it) == AsToken(t)
  }

  /** The fixed codes have all symbols. */
  lemma FixedHasAll(s: nat)
    ensures s < 288 ==> HasCode(FixedTrees().lit.b, s)
    ensures s < 30 ==> HasCode(FixedTrees().dist.b, s)
  {
  }

  predicate Bounded(t: Token<bv8>) {
    t.Match? ==> 1 <= t.dist <= WSIZE && MIN_MATCH <= t.len <= MAX_MATCH
  }

  function ItemOf(t: Token<bv8>): Item
    requires Bounded(t)
  {
    match t
    case Literal(b) => Lit(AsByte(b))
    case Match(d, n) => Copy(LengthCode(n).0, LengthCode(n).1, DistanceCode(d).0, DistanceCode(d).1)
  }

  lemma ItemStands(t: Token<bv8>)
    requires Bounded(t)
    ensures Stands(t, ItemOf(t))
  {
    hide Pow2, FixedLengths, Repeated, LengthCode, DistanceCode, HasCode;
    match t
    case Literal(b) =>
      FixedHasAll(AsByte(b));
    case Match(d, n) =>
      LengthSymbol(n);
      DistanceSymbol(d);
      FixedHasAll(LengthCode(n).0);
      FixedHasAll(DistanceCode(d).0);
  }

  ghost predicate StandAll(ts: seq<Token<bv8>>, its: seq<Item>) {
    |its| == |ts| && forall i :: 0 <= i < |ts| ==> Stands(ts[i], its[i])
  }

  predicate AllBounded(ts: seq<Token<bv8>>) { forall i :: 0 <= i < |ts| ==> Bounded(ts[i]) }

  function ItemsOf(ts: seq<Token<bv8>>): seq<Item>
    requires AllBounded(ts)
  {
    seq(|ts|, i requires 0 <= i < |ts| => ItemOf(ts[i]))
  }

  lemma {:induction false} CopyAsBytes(out: seq<bv8>, d: nat, n: nat)
    requires 1 <= d <= |out|
    ensures AsBytes(CopyBack(out, d, n)) == CopyBack(AsBytes(out), d, n)
    decreases n
  {
    if n > 0 {
      var b := out[|out| - d];
      assert AsBytes(out + [b]) == AsBytes(out) + [AsByte(b)];
      CopyAsBytes(out + [b], d, n - 1);
    }
  }

  lemma {:induction false} LegalPrefix<T>(ts: seq<Token<T>>, n: nat)
    requires Legal(ts) && n <= |ts|
    ensures Legal(ts[..n])
  {
    if n < |ts| {
      LegalPrefix(ts[..|ts| - 1], n);
      assert ts[..|ts| - 1][..n] == ts[..n];
    } else {
      assert ts[..n] == ts;
    }
  }

  /** Feeding the items of the tokens from n on to a window that holds the expansion of those before. */
  lemma {:induction false} FeedTokens(before: seq<Byte>, ts: seq<Token<bv8>>, n: nat, its: seq<Item>)
    requires |before| == WSIZE && Legal(ts) && n <= |ts| && Legal(ts[..n]) && StandAll(ts[n..], its)
    ensures ItemsOk(FixedTrees().lit.b, FixedTrees().dist.b, its)
    ensures Feed(FixedTrees().lit.b, FixedTrees().dist.b, before + AsBytes(Expand(ts[..n])), its)
      == before + AsBytes(Expand(ts))
    decreases |ts|
  {
    hide FixedTrees, ItemOk;
    if n == |ts| {
      assert ts[..n] == ts;
    } else {
      var fst, last := ts[..|ts| - 1], ts[|ts| - 1];
      assert fst[..n] == ts[..n] && fst[n..] == ts[n..][..|its| - 1];
      FeedTokens(before, fst, n, its[..|its| - 1]);
      assert Stands(ts[n..][|its| - 1], its[|its| - 1]);
      TokenFits(FixedTrees().lit.b, FixedTrees().dist.b, its[|its| - 1], before + AsBytes(Expand(fst)));
      FeedToken(before, Expand(fst), last);
    }
  }

  lemma FeedToken(before: seq<Byte>, out: seq<bv8>, t: Token<bv8>)
    requires |before| == WSIZE && Applies(out, t) && Applies(before + AsBytes(out), AsToken(t))
    ensures Apply(before + AsBytes(out), AsToken(t)) == before + AsBytes(Apply(out, t))
  {
    match t
    case Literal(b) =>
      assert AsBytes(out + [b]) == AsBytes(out) + [AsByte(b)];
    case Match(d, n) =>
      CopyAsBytes(out, d, n);
      CopyAfter(before, AsBytes(out), d, n);
  }

  lemma {:induction false} LegalMatches(ts: seq<Token<bv8>>)
    requires Legal(ts)
    ensures AllBounded(ts)
  {
    if ts != [] {
      LegalMatches(ts[..|ts| - 1]);
      assert forall i :: 0 <= i < |ts| - 1 ==> ts[..|ts| - 1][i] == ts[i];
    }
  }

  /** Each block sends the tokens of one block of deflate, with the fixed codes. */
  ghost predicate Encodes(bs: seq<Deflate.Block>, blocks: seq<Block>) {
    |blocks| == |bs| && forall i :: 0 <= i < |bs| ==> blocks[i].Fixed? && StandAll(bs[i].tokens, blocks[i].its)
  }

  predicate BlocksBounded(bs: seq<Deflate.Block>) { forall i :: 0 <= i < |bs| ==> AllBounded(bs[i].tokens) }

  /** The blocks that are sent for the tokens. */
  function BlocksOf(bs: seq<Deflate.Block>): seq<Block>
    requires BlocksBounded(bs)
  {
    seq(|bs|, i requires 0 <= i < |bs| => Fixed(ItemsOf(bs[i].tokens)))
  }

  /** Legal tokens can all be sent. */
  lemma BlocksEncode(bs: seq<Deflate.Block>)
    requires Legal(Deflate.Tokens(bs))
    ensures BlocksBounded(bs) && Encodes(bs, BlocksOf(bs))
  {
    hide Legal, Stands, ItemOf, Bounded;
    LegalMatches(Deflate.Tokens(bs));
    BoundedParts(bs);
    forall i, k | 0 <= i < |bs| && 0 <= k < |bs[i].tokens|
      ensures Stands(bs[i].tokens[k], BlocksOf(bs)[i].its[k])
    {
      ItemStands(bs[i].tokens[k]);
    }
  }

  lemma {:induction false} BoundedParts(bs: seq<Deflate.Block>)
    requires AllBounded(Deflate.Tokens(bs))
    ensures BlocksBounded(bs)
  {
    hide Bounded;
    if bs != [] {
      var n := |bs| - 1;
      var front, more := Deflate.Tokens(bs[..n]), bs[n].tokens;
      assert forall i :: 0 <= i < |front| ==> front[i] == (front + more)[i];
      assert forall i :: 0 <= i < |more| ==> more[i] == (front + more)[|front| + i];
      BoundedParts(bs[..n]);
    }
  }

  lemma BlockItems(before: seq<Byte>, front: seq<Token<bv8>>, more: seq<Token<bv8>>, its: seq<Item>)
    requires |before| == WSIZE && Legal(front) && Legal(front + more) && StandAll(more, its)
    ensures ItemsOk(FixedTrees().lit.b, FixedTrees().dist.b, its)
    ensures Feed(FixedTrees().lit.b, FixedTrees().dist.b, before + AsBytes(Expand(front)), its)
      == before + AsBytes(Expand(front + more))
  {
    hide *;
    var ts := front + more;
    assert ts[..|front|] == front && ts[|front|..] == more;
    FeedTokens(before, ts, |front|, its);
  }

  lemma OneMoreBlock(before: seq<Byte>, blocks: seq<Block>, its: seq<Item>)
    requires AllBlocksOk(blocks) && ItemsOk(FixedTrees().lit.b, FixedTrees().dist.b, its) && |before| == WSIZE
    ensures AllBlocksOk(blocks + [Fixed(its)])
    ensures FeedAll(before, blocks + [Fixed(its)])
      == Feed(FixedTrees().lit.b, FixedTrees().dist.b, FeedAll(before, blocks), its)
  {
    hide Feed, FixedTrees, ItemsOk;
    assert (blocks + [Fixed(its)])[..|blocks|] == blocks;
  }

  /** For all input: the blocks of tokens that deflate emits, sent with the fixed codes, stand for the input. */
  lemma {:induction false} DeflateInflates(bs: seq<Deflate.Block>, blocks: seq<Block>, before: seq<Byte>)
    requires Legal(Deflate.Tokens(bs)) && Encodes(bs, blocks) && |before| == WSIZE
    ensures AllBlocksOk(blocks) && FeedAll(before, blocks) == before + AsBytes(Expand(Deflate.Tokens(bs)))
  {
    hide Legal, StandAll, Feed, FixedTrees, ItemsOk, Expand, AsBytes;
    if bs == [] {
      NothingSpelt();
    } else {
      hide AllBlocksOk, FeedAll;
      var n := |bs| - 1;
      var front, more := Deflate.Tokens(bs[..n]), bs[n].tokens;
      assert (front + more)[..|front|] == front;
      LegalPrefix(front + more, |front|);
      DeflateInflates(bs[..n], blocks[..n], before);
      BlockItems(before, front, more, blocks[n].its);
      OneMoreBlock(before, blocks[..n], blocks[n].its);
      assert blocks[..n] + [Fixed(blocks[n].its)] == blocks;
    }
  }

  // ----- the bits

  ghost predicate AllFixed(blocks: seq<Block>) {
    forall i :: 0 <= i < |blocks| ==>
      blocks[i].Fixed? && ItemsOk(FixedTrees().lit.b, FixedTrees().dist.b, blocks[i].its)
  }

  /** The bits of the blocks from the i-th on, the last one marked, and then the tail. */
  ghost function Sent(blocks: seq<Block>, i: nat, tail: seq<bool>): seq<bool>
    requires AllFixed(blocks) && i <= |blocks|
    decreases |blocks| - i
  {
    if i == |blocks| then tail else BlockBits(blocks[i].its, i == |blocks| - 1) + Sent(blocks, i + 1, tail)
  }

  ghost function BlockBits(its: seq<Item>, last: bool): seq<bool>
    requires ItemsOk(FixedTrees().lit.b, FixedTrees().dist.b, its)
  {
    var trees := FixedTrees();
    [last, true, false] + (ItemsBits(trees.lit.b, trees.dist.b, its) + CodeBits(trees.lit.b, END_BLOCK))
  }

  lemma SentBlock(blocks: seq<Block>, i: nat, tail: seq<bool>)
    requires AllFixed(blocks) && i < |blocks|
    ensures BlockAt(Sent(blocks, i, tail), blocks[i], i == |blocks| - 1, Sent(blocks, i + 1, tail))
  {
    hide FixedTrees, ItemsBits, CodeBits, HasCode, ItemsOk;
    FixedHasAll(END_BLOCK);
    var x := Sent(blocks, i, tail);
    assert x[1..3] == [true, false];
    TypeOne();
    Grouped([i == |blocks| - 1, true, false], ItemsBits(FixedTrees().lit.b, FixedTrees().dist.b, blocks[i].its),
            CodeBits(FixedTrees().lit.b, END_BLOCK), Sent(blocks, i + 1, tail));
    var items := ItemsBits(FixedTrees().lit.b, FixedTrees().dist.b, blocks[i].its);
    assert x[3..] == items + (CodeBits(FixedTrees().lit.b, END_BLOCK) + Sent(blocks, i + 1, tail));
  }

  lemma TypeOne()
    ensures FromBits([true, false]) == 1
  {
    assert [true, false][1..] == [false] && [false][1..] == [];
  }

  lemma SentChain(blocks: seq<Block>, tail: seq<bool>) returns (xs: seq<seq<bool>>)
    requires AllFixed(blocks) && |blocks| >= 1
    ensures Chain(xs, blocks) && xs[0] == Sent(blocks, 0, tail) && xs[|blocks|] == tail
  {
    hide BlockAt, AllFixed;
    xs := seq(|blocks| + 1, i requires 0 <= i <= |blocks| => Sent(blocks, i, tail));
    forall i | 0 <= i < |blocks|
      ensures BlockAt(xs[i], blocks[i], i == |blocks| - 1, xs[i + 1])
    {
      SentBlock(blocks, i, tail);
    }
  }

  lemma EncodesFixed(bs: seq<Deflate.Block>, blocks: seq<Block>)
    requires Encodes(bs, blocks)
    ensures AllFixed(blocks)
  {
    hide FixedTrees, ItemOk;
    forall i, k | 0 <= i < |blocks| && 0 <= k < |blocks[i].its|
      ensures ItemOk(FixedTrees().lit.b, FixedTrees().dist.b, blocks[i].its[k])
    {
      assert Stands(bs[i].tokens[k], blocks[i].its[k]);
    }
  }

  /** A file is compressed; the bits of its blocks, sent in any way that stands for their tokens, are decompressed. */
  method Restore(c: Deflate.Compressor, f: Inflater, memory: nat -> Junk, ghost blocks: seq<Block>,
                 ghost tail: seq<bool>)
    returns (res: Result)
    requires c.Finished() && Encodes(c.blocks, blocks) && |tail| >= LOOKAHEAD
    requires f.Valid() && f.window.wp == 0 && f.window.flushed == []
    requires AllFixed(blocks) && f.reader.Stream() == Sent(blocks, 0, tail)
    modifies f.reader, f.window, f.window.slide
    ensures res == Code(0) && f.window.flushed == AsBytes(c.input) && LeftAt(f.reader, tail)
  {
    hide Chain, AllFixed, Encodes, FeedAll, AllBlocksOk, Legal, Expand, AsBytes, Sent, LeftAt, AllRemember;
    ghost var past, bs := f.window.past, c.blocks;
    assert |blocks| == |bs| by { EncodesLength(bs, blocks); }
    ghost var xs := SentChain(blocks, tail);
    FixedRemember(blocks, memory);
    DeflateInflates(bs, blocks, past);
    assert c.input[..|c.input|] == c.input;
    assert (past + AsBytes(c.input))[Lz77.WSIZE..] == AsBytes(c.input);
    ghost var xs', blocks';
    res, xs', blocks' := InflateAll(f, memory, xs, blocks);
  }

  lemma FixedRemember(blocks: seq<Block>, memory: nat -> Junk)
    requires AllFixed(blocks)
    ensures AllRemember(blocks, memory)
  {
  }

  // ----- sending the blocks

  method SendCode(w: Writer, b: seq<nat>, sym: nat)
    requires w.Valid() && HasCode(b, sym) && b[sym] <= BUF_SIZE
    modifies w
    ensures w.Valid() && w.Sent() == old(w.Sent()) + CodeBits(b, sym)
  {
    hide CodeBits, FromBits, Writer.Sent, Writer.Valid;
    ToFrom(CodeBits(b, sym));
    w.SendBits(FromBits(CodeBits(b, sym)), b[sym]);
  }

  method SendItem(w: Writer, it: Item)
    requires w.Valid() && ItemOk(FixedTrees().lit.b, FixedTrees().dist.b, it)
    modifies w
    ensures w.Valid() && w.Sent() == old(w.Sent()) + ItemBits(FixedTrees().lit.b, FixedTrees().dist.b, it)
  {
    hide CodeBits, FromBits, ToBits, Pow2, Writer.Sent, Writer.Valid, FixedLengths;
    FixedShort();
    ghost var s := w.Sent();
    match it
    case Lit(sym) =>
      SendCode(w, FixedTrees().lit.b, sym);
    case Copy(lsym, lx, dsym, dx) =>
      SmallTables(lsym, dsym);
      SendCode(w, FixedTrees().lit.b, lsym);
      w.SendBits(lx, CPLEXT[lsym - 257]);
      SendCode(w, FixedTrees().dist.b, dsym);
      w.SendBits(dx, CPDEXT[dsym]);
      FourParts(s, CodeBits(FixedTrees().lit.b, lsym), ToBits(lx, CPLEXT[lsym - 257]),
        CodeBits(FixedTrees().dist.b, dsym),
                ToBits(dx, CPDEXT[dsym]));
  }

  lemma FourParts(s: seq<bool>, a: seq<bool>, b: seq<bool>, c: seq<bool>, d: seq<bool>)
    ensures s + a + b + c + d == s + ((a + b) + (c + d))
  {
  }

  lemma FixedShort()
    ensures forall i :: 0 <= i < |FixedTrees().lit.b| ==> FixedTrees().lit.b[i] <= 9
    ensures forall i :: 0 <= i < |FixedTrees().dist.b| ==> FixedTrees().dist.b[i] <= 9
  {
  }

  method SendBlock(w: Writer, its: seq<Item>, last: bool)
    requires w.Valid() && ItemsOk(FixedTrees().lit.b, FixedTrees().dist.b, its)
    modifies w
    ensures w.Valid() && w.Sent() == old(w.Sent()) + BlockBits(its, last)
  {
    hide CodeBits, FromBits, ToBits, Pow2, Writer.Sent, Writer.Valid, FixedLengths, ItemBits, ItemOk, ItemsBits;
    ghost var ll, dl, s := FixedTrees().lit.b, FixedTrees().dist.b, w.Sent();
    ghost var head := [last, true, false];
    ThreeBits(last);
    w.SendBits((if last then 1 else 0) + 2, 3);
    var i := 0;
    NothingMore(ll, dl, s + head, its);
    while i < |its|
      invariant i <= |its| && w.Valid() && ItemsOk(ll, dl, its[..i])
      invariant w.Sent() == (s + head) + ItemsBits(ll, dl, its[..i])
    {
      ghost var now := w.Sent();
      SendItem(w, its[i]);
      NextItem(ll, dl, s + head, its, i);
      i := i + 1;
    }
    assert its[..i] == its;
    FixedHasAll(END_BLOCK);
    FixedShort();
    SendCode(w, FixedTrees().lit.b, END_BLOCK);
    Grouped(s, head, ItemsBits(ll, dl, its), CodeBits(ll, END_BLOCK));
  }

  lemma ThreeBits(last: bool)
    ensures var v := (if last then 1 else 0) + 2; v < Pow2(3) && ToBits(v, 3) == [last, true, false]
  {
    assert Pow2(3) == 8;
    assert ToBits(1, 2) == [true, false] && ToBits(0, 1) == [false];
  }

  lemma NothingMore(ll: seq<nat>, dl: seq<nat>, s: seq<bool>, its: seq<Item>)
    ensures ItemsOk(ll, dl, its[..0]) && s + ItemsBits(ll, dl, its[..0]) == s
  {
  }

  lemma NextItem(ll: seq<nat>, dl: seq<nat>, s: seq<bool>, its: seq<Item>, i: nat)
    requires i < |its| && ItemsOk(ll, dl, its) && ItemsOk(ll, dl, its[..i])
    ensures ItemsOk(ll, dl, its[..i + 1])
    ensures (s + ItemsBits(ll, dl, its[..i])) + ItemBits(ll, dl, its[i]) == s + ItemsBits(ll, dl, its[..i + 1])
  {
    hide ItemOk, ItemBits;
    assert its[..i + 1] == its[..i] + [its[i]];
    ItemsAppend(ll, dl, its[..i], its[i]);
    Associative(s, ItemsBits(ll, dl, its[..i]), ItemBits(ll, dl, its[i]));
  }

  lemma Grouped(s: seq<bool>, a: seq<bool>, b: seq<bool>, c: seq<bool>)
    ensures ((s + a) + b) + c == s + (a + (b + c))
  {
  }

  /** Sends all blocks. */
  method SendBlocks(w: Writer, blocks: seq<Block>)
    requires w.Valid() && AllFixed(blocks) && w.Sent() == []
    modifies w
    ensures w.Valid() && w.Sent() == Sent(blocks, 0, [])
  {
    hide Writer.Sent, Writer.Valid, ItemsOk, FixedTrees, BlockBits, AllFixed, Sent;
    var i := 0;
    assert [] + Sent(blocks, 0, []) == Sent(blocks, 0, []);
    while i < |blocks|
      invariant i <= |blocks| && w.Valid() && w.Sent() + Sent(blocks, i, []) == Sent(blocks, 0, [])
    {
      SentStep(blocks, i, []);
      Associative(w.Sent(), BlockBits(blocks[i].its, i == |blocks| - 1), Sent(blocks, i + 1, []));
      SendBlock(w, blocks[i].its, i == |blocks| - 1);
      i := i + 1;
    }
    SentStep(blocks, i, []);
    assert w.Sent() + [] == w.Sent();
  }

  lemma SentStep(blocks: seq<Block>, i: nat, tail: seq<bool>)
    requires AllFixed(blocks) && i <= |blocks|
    ensures i == |blocks| ==> Sent(blocks, i, tail) == tail
    ensures i < |blocks| ==>
      && blocks[i].Fixed? && ItemsOk(FixedTrees().lit.b, FixedTrees().dist.b, blocks[i].its)
      && Sent(blocks, i, tail) == BlockBits(blocks[i].its, i == |blocks| - 1) + Sent(blocks, i + 1, tail)
  {
    hide ItemsBits, CodeBits, FixedTrees, ItemsOk;
  }

  /** More bits behind the blocks. */
  lemma {:induction false} SentTail(blocks: seq<Block>, i: nat, tail: seq<bool>)
    requires AllFixed(blocks) && i <= |blocks|
    ensures Sent(blocks, i, []) + tail == Sent(blocks, i, tail)
    decreases |blocks| - i
  {
    hide BlockBits, Sent, AllFixed;
    SentStep(blocks, i, []);
    SentStep(blocks, i, tail);
    if i == |blocks| {
      assert [] + tail == tail;
    } else {
      SentTail(blocks, i + 1, tail);
      Associative(BlockBits(blocks[i].its, i == |blocks| - 1), Sent(blocks, i + 1, []), tail);
    }
  }

  /** Sends the blocks of a compressed file with the fixed codes, and then a trailer. */
  method Pack(c: Deflate.Compressor, trailer: seq<Byte>)
    returns (bytes: seq<Byte>, ghost blocks: seq<Block>, ghost tail: seq<bool>)
    requires c.Finished()
    ensures Encodes(c.blocks, blocks) && AllFixed(blocks) && ByteBits(bytes) == Sent(blocks, 0, tail)
    ensures IsTail(tail, trailer)
  {
    hide Legal, Encodes, AllFixed, Sent, ByteBits, Writer.Sent;
    BlocksEncode(c.blocks);
    var bs := BlocksOf(c.blocks);
    blocks := bs;
    EncodesFixed(c.blocks, bs);
    var w := new Writer();
    SendBlocks(w, bs);
    w.Windup();
    bytes := w.out + trailer;
    ghost var sent := Sent(blocks, 0, []);
    tail := Zeros(Padding(|sent|)) + ByteBits(trailer);
    PaddingSmall(|sent|);
    ByteBitsAppend(w.out, trailer);
    Associative(sent, Zeros(Padding(|sent|)), ByteBits(trailer));
    SentTail(blocks, 0, tail);
  }

  /** Some bits up to a byte boundary, and then the trailer. */
  ghost predicate IsTail(tail: seq<bool>, trailer: seq<Byte>) {
    |tail| >= 8 * |trailer| && tail[|tail| % 8..] == ByteBits(trailer)
  }

  /** Decompresses what Pack has made of a compressed file. */
  method Unpack(c: Deflate.Compressor, bytes: seq<Byte>, slide: array<Byte>, memory: nat -> Junk,
                ghost blocks: seq<Block>, ghost tail: seq<bool>, ghost trailer: seq<Byte>)
    returns (res: Result, out: seq<Byte>, rest: seq<Byte>)
    requires c.Finished() && Encodes(c.blocks, blocks) && AllFixed(blocks) && ByteBits(bytes) == Sent(blocks, 0, tail)
    requires IsTail(tail, trailer) && |trailer| >= 2 && slide.Length == Lz77.WSIZE
    modifies slide
    ensures res == Code(0) && out == AsBytes(c.input) && rest == trailer
  {
    hide Deflate.Compressor.Finished, Encodes, AllFixed, Sent, AsBytes, ByteBits, Reader.Valid;
    var reader := new Reader(bytes);
    var window := new Window(slide);
    var f := new Inflater(reader, window);
    res := Restore(c, f, memory, blocks, tail);
    out, rest := window.flushed, bytes[reader.inptr..];
    SameByteBits(rest, trailer);
  }

  lemma SameByteBits(a: seq<Byte>, b: seq<Byte>)
    requires ByteBits(a) == ByteBits(b)
    ensures a == b
  {
    hide ByteBits;
    assert ByteBits(b) == ByteBits(a) + [];
    SameBytes(a, b, []);
  }

  /** Every file comes back: it is compressed, its blocks are sent with the fixed codes, a trailer follows, and the
      bytes are decompressed. What is left of the input is the trailer. */
  method RoundTrip(c: Deflate.Compressor, packLevel: int, trailer: seq<Byte>, slide: array<Byte>, memory: nat -> Junk)
    returns (ok: bool, res: Result, out: seq<Byte>, rest: seq<Byte>)
    requires c.Layout() && c.inPos == 0 && c.blocks == [] && c.tally == []
    requires |trailer| >= 2 && slide.Length == Lz77.WSIZE
    modifies c, c.window, c.head, c.prev, slide
    ensures ok <==> 1 <= packLevel <= 9
    ensures ok ==> res == Code(0) && out == AsBytes(c.input) && rest == trailer
  {
    hide Legal, Deflate.Compressor.Finished, Encodes, AllFixed, Sent, AsBytes, ByteBits, Expand, IsTail;
    res, out, rest := EndOfFile, [], [];
    ok := c.Compress(packLevel);
    if ok {
      ghost var blocks, tail;
      var bytes;
      bytes, blocks, tail := Pack(c, trailer);
      res, out, rest := Unpack(c, bytes, slide, memory, blocks, tail, trailer);
    }
  }

  lemma EncodesLength(bs: seq<Deflate.Block>, blocks: seq<Block>)
    requires Encodes(bs, blocks)
    ensures |blocks| == |bs|
  {
  }

  lemma NothingSpelt()
    ensures Legal<bv8>([]) && Expand<bv8>([]) == [] && AsBytes([]) == []
  {
  }
}
