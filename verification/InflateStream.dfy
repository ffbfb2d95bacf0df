/** inflate of inflate.c: whole streams of blocks. */
module InflateStream {
  import opened BitIo
  import opened BitReader
  import opened BitWriter
  import opened Huffman
  import opened HuftFront
  import opened Lz77
  import opened InflateWindow
  import opened InflateSpec
  import opened InflateItems
  import opened PrefixCode
  import opened Inflate
  import opened InflateTrees
  import opened InflateHeader
  import opened InflateBlocks

  /** The blocks follow one another in front of the bit strings xs, and the last one is marked. */
  ghost predicate Chain(xs: seq<seq<bool>>, blocks: seq<Block>) {
    && |blocks| >= 1 && |xs| == |blocks| + 1
    && forall i :: 0 <= i < |blocks| ==> BlockAt(xs[i], blocks[i], i == |blocks| - 1, xs[i + 1])
  }

  // ----- which streams are well-formed

  /** All blocks are blocks of RFC 1951. */
  ghost predicate Regular(blocks: seq<Block>) { forall i :: 0 <= i < |blocks| ==> !blocks[i].Wild? }

  /** The bits start with a stream of RFC 1951. */
  ghost predicate WellFormed(x: seq<bool>) {
    exists xs: seq<seq<bool>>, blocks: seq<Block> :: IsStream(x, xs, blocks)
  }

  ghost predicate IsStream(x: seq<bool>, xs: seq<seq<bool>>, blocks: seq<Block>) {
    Chain(xs, blocks) && Regular(blocks) && xs[0] == x
  }

  /** The bits go on with a dynamic block that has no code for its lengths. */
  ghost predicate NoLengthCode(x: seq<bool>) { |x| >= 3 && FromBits(x[1..3]) == 2 && EmptyCode(x[3..]) }

  lemma SameItems(z: seq<bool>, trees: Trees, its: seq<Item>, y: seq<bool>, its': seq<Item>, y': seq<bool>)
    requires ItemsAt(z, trees, its, y) && ItemsAt(z, trees, its', y')
    requires Fair(trees.lit.b, Span(trees.lit.b)) && Fair(trees.dist.b, Span(trees.dist.b))
    ensures its == its' && y == y'
  {
    hide ItemsBits, CodeBits, Fair, ItemsOk;
    var ll, dl := trees.lit.b, trees.dist.b;
    CodeStarts(ll, END_BLOCK, y');
    BlockUnique(ll, dl, Span(ll), Span(dl), its, y, its', CodeBits(ll, END_BLOCK) + y', End);
    SameRest(CodeBits(ll, END_BLOCK), y, y');
  }

  /** Bits are those of one header only. */
  lemma SameHeader(h: Header, rest: seq<bool>, h': Header, rest': seq<bool>)
    requires h.Ok() && h'.Ok() && h.Bits() + rest == h'.Bits() + rest'
    ensures h == h' && rest == rest'
  {
    hide Header.Bits, Header.LengthBits, ClBits, LensBits, SpreadAll, Once, Overfull, Partial, AllOk, Fair, CountsAre;
    HeaderCounts(h', rest');
    CountsUnique(h, rest, h'.nl, h'.nd, h'.nb, h'.LengthBits() + rest');
    TwoParts(h, rest);
    TwoParts(h', rest');
    ClUnique(BORDER, h.nb, h.cl, LensBits(h.cl, h.its) + rest, h'.cl, LensBits(h'.cl, h'.its) + rest');
    SpanOk(h.cl);
    LensUnique(h.cl, Span(h.cl), h.nl + h.nd, h.its, rest, h'.its, rest', AllThere);
  }

  lemma SamePlain(z: seq<bool>, b: Block, y: seq<bool>, b': Block, y': seq<bool>)
    requires b.Plain? && b'.Plain? && BodyAt(z, b, y) && BodyAt(z, b', y')
    ensures b == b' && y == y'
  {
    hide BodyAt, ByteBits, FromBits;
    PlainAt(z, b, y);
    PlainAt(z, b', y');
    PlainRead(b, y, b'.bytes, y');
  }

  lemma SameFixed(z: seq<bool>, b: Block, y: seq<bool>, b': Block, y': seq<bool>)
    requires b.Fixed? && b'.Fixed? && BodyAt(z, b, y) && BodyAt(z, b', y')
    ensures b == b' && y == y'
  {
    hide ItemsAt, FixedLengths, Fair, Span, Tree.Marks;
    FixedOk();
    SameItems(z, FixedTrees(), b.its, y, b'.its, y');
  }

  lemma SameDynamic(z: seq<bool>, b: Block, y: seq<bool>, b': Block, y': seq<bool>)
    requires b.Dynamic? && b'.Dynamic? && BodyAt(z, b, y) && BodyAt(z, b', y')
    ensures b == b' && y == y'
  {
    hide BodyAt, ItemsAt, Fair, Span, Full, EmptyCode, Header.Ok, Header.Bits, Header.Lengths, Tree.Marks;
    GivenDynamic(z, b, y);
    GivenDynamic(z, b', y');
    var h := b.header;
    SameHeader(h, z[|h.Bits()|..], b'.header, z[|b'.header.Bits()|..]);
    LengthsOk(h);
    BuiltOk(h.Lengths()[..h.nl], h.Lengths()[h.nl..]);
    SameItems(z[|h.Bits()|..], TreesOf(h.Lengths()[..h.nl], h.Lengths()[h.nl..]), b.its, y, b'.its, y');
  }

  lemma LengthsOk(h: Header)
    requires h.Ok()
    ensures h.nl <= 286 && h.nd <= 30 && |h.Lengths()| == h.nl + h.nd
    ensures forall i :: 0 <= i < |h.Lengths()| ==> h.Lengths()[i] < 16
  {
    hide ClOk, Overfull, Partial, AllOk, SpreadAll;
    SpreadSmall(h.cl, h.its);
  }

  lemma WildIff(x: seq<bool>, b: Block, last: bool, y: seq<bool>)
    requires BlockAt(x, b, last, y)
    ensures b.Wild? <==> NoLengthCode(x)
  {
    hide BodyAt, EmptyCode, FromBits, ItemsAt, Header.Ok, Header.Bits, Header.Lengths, Full;
    match b
    case Plain(_) =>
    case Fixed(_) =>
    case Dynamic(_, _) => GivenDynamic(x[3..], b, y);
    case Wild(_, _, _, _) => GivenWild(x[3..], b, y);
  }

  /** Bits are those of one block of RFC 1951 only, and not those of a block without a code for its lengths as well. */
  lemma SameBlock(x: seq<bool>, b: Block, last: bool, y: seq<bool>, b': Block, last': bool, y': seq<bool>)
    requires BlockAt(x, b, last, y) && BlockAt(x, b', last', y') && !b.Wild?
    ensures b == b' && last == last' && y == y'
  {
    hide BodyAt, NoLengthCode, FromBits;
    WildIff(x, b, last, y);
    WildIff(x, b', last', y');
    match b
    case Plain(_) => SamePlain(x[3..], b, y, b', y');
    case Fixed(_) => SameFixed(x[3..], b, y, b', y');
    case Dynamic(_, _) => SameDynamic(x[3..], b, y, b', y');
  }

  /** Bits are those of one stream only. */
  lemma {:induction false} SameChain(xs: seq<seq<bool>>, blocks: seq<Block>, xs': seq<seq<bool>>, blocks': seq<Block>,
                                     k: nat)
    requires Chain(xs, blocks) && Chain(xs', blocks') && Regular(blocks) && xs[0] == xs'[0] && k <= |blocks|
    ensures k <= |blocks'| && (k == |blocks'| <==> k == |blocks|)
    ensures xs[k] == xs'[k] && blocks[..k] == blocks'[..k]
  {
    hide BlockAt;
    if k > 0 {
      SameChain(xs, blocks, xs', blocks', k - 1);
      SameBlock(xs[k - 1], blocks[k - 1], k == |blocks|, xs[k], blocks'[k - 1], k == |blocks'|, xs'[k]);
    }
  }

  /** Blocks that follow one another are a stream of RFC 1951 if and only if none of them lacks a code for its
      lengths. */
  lemma WellFormedIff(xs: seq<seq<bool>>, blocks: seq<Block>)
    requires Chain(xs, blocks)
    ensures Regular(blocks) <==> WellFormed(xs[0])
    ensures Regular(blocks) <==> forall i :: 0 <= i < |blocks| ==> !NoLengthCode(xs[i])
  {
    hide BlockAt, NoLengthCode;
    forall i | 0 <= i < |blocks|
      ensures blocks[i].Wild? <==> NoLengthCode(xs[i])
    {
      WildIff(xs[i], blocks[i], i == |blocks| - 1, xs[i + 1]);
    }
    if Regular(blocks) {
      assert IsStream(xs[0], xs, blocks);
    }
    if WellFormed(xs[0]) {
      var ys: seq<seq<bool>>, bs: seq<Block> :| IsStream(xs[0], ys, bs);
      SameChain(ys, bs, xs, blocks, |bs|);
      assert bs[..|bs|] == bs && blocks[..|bs|] == blocks;
    }
  }

  // ----- reading them

  ghost predicate AllBlocksOk(blocks: seq<Block>) { forall i :: 0 <= i < |blocks| ==> BlockOk(blocks[i]) }

  ghost function FeedAll(past: seq<Byte>, blocks: seq<Block>): (now: seq<Byte>)
    requires |past| >= WSIZE && AllBlocksOk(blocks)
    ensures |now| >= |past|
  {
    if blocks == [] then past else FeedBlock(FeedAll(past, blocks[..|blocks| - 1]), blocks[|blocks| - 1])
  }

  lemma {:induction false} ChainLong(xs: seq<seq<bool>>, blocks: seq<Block>, i: nat)
    requires Chain(xs, blocks) && i <= |blocks| && |xs[|blocks|]| >= LOOKAHEAD
    ensures |xs[i]| >= LOOKAHEAD
    decreases |blocks| - i
  {
    hide BlockAt;
    if i < |blocks| {
      ChainLong(xs, blocks, i + 1);
      BlockLong(xs[i], blocks[i], i == |blocks| - 1, xs[i + 1]);
    }
  }

  lemma BlockLong(x: seq<bool>, b: Block, last: bool, y: seq<bool>)
    requires BlockAt(x, b, last, y)
    ensures |x| >= |y|
  {
    hide StoredHeader, ByteBits, FromBits;
    match b
    case Plain(_) =>
    case Fixed(its) => ItemsLong(x[3..], FixedTrees(), its, y);
    case Dynamic(h, its) => ItemsLong(x[3..][|h.Bits()|..], HeaderTrees(h), its, y);
    case Wild(junk, nl, lens, its) =>
      ItemsLong(GuessAt(x[3..], junk).rest, TreesOf(lens[..nl], lens[nl..]), its, y);
  }

  /** The blocks read so far. */
  ghost predicate Trail(xs: seq<seq<bool>>, blocks: seq<Block>, last: bool) {
    && |xs| == |blocks| + 1 && (last ==> blocks != [])
    && forall i :: 0 <= i < |blocks| ==> BlockAt(xs[i], blocks[i], last && i == |blocks| - 1, xs[i + 1])
  }

  lemma LongerTrail(xs: seq<seq<bool>>, blocks: seq<Block>, b: Block, last: bool, y: seq<bool>)
    requires Trail(xs, blocks, false) && BlockAt(xs[|blocks|], b, last, y)
    ensures Trail(xs + [y], blocks + [b], last)
  {
    hide BlockAt;
  }

  lemma FeedMore(past: seq<Byte>, blocks: seq<Block>, b: Block)
    requires |past| >= WSIZE && AllBlocksOk(blocks) && BlockOk(b)
    ensures AllBlocksOk(blocks + [b]) && FeedAll(past, blocks + [b]) == FeedBlock(FeedAll(past, blocks), b)
  {
    hide FeedBlock, BlockOk;
    assert (blocks + [b])[..|blocks|] == blocks;
  }

  /** memory(i) is what memory holds where huft_build sets no value, when block i is read. */
  ghost predicate AllRemember(blocks: seq<Block>, memory: nat -> Junk) {
    forall i :: 0 <= i < |blocks| ==> Remembers(blocks[i], memory(i))
  }

  /** The bits x are a stream of blocks, with enough bits behind it for every look-up. */
  ghost predicate StreamAt(x: seq<bool>, memory: nat -> Junk, xs: seq<seq<bool>>, blocks: seq<Block>) {
    Chain(xs, blocks) && AllRemember(blocks, memory) && xs[0] == x && |xs[|blocks|]| >= LOOKAHEAD
  }

  /** inflate: a stream of blocks is read as what it is. If inflate succeeds, what it has read, xs' and blocks', is
      such a stream; it has put out what the blocks stand for, and the input is left behind their last byte. */
  method InflateAll(f: Inflater, memory: nat -> Junk, ghost xs: seq<seq<bool>>, ghost blocks: seq<Block>)
    returns (res: Result, ghost xs': seq<seq<bool>>, ghost blocks': seq<Block>)
    requires f.Valid() && f.window.wp == 0
    modifies f.reader, f.window, f.window.slide
    ensures StreamAt(old(f.reader.Stream()), memory, xs, blocks) ==> res == Code(0) && xs' == xs && blocks' == blocks
    ensures res == Code(0) ==>
      && Chain(xs', blocks') && AllRemember(blocks', memory) && xs'[0] == old(f.reader.Stream())
      && AllBlocksOk(blocks') && |old(f.window.past)| >= WSIZE
      && f.window.flushed == FeedAll(old(f.window.past), blocks')[WSIZE..] && LeftAt(f.reader, xs'[|blocks'|])
      && (WellFormed(old(f.reader.Stream())) <==> forall i :: 0 <= i < |blocks'| ==> !NoLengthCode(xs'[i]))
  {
    hide Reader.Valid, Reader.Stream, Window.Valid, FeedAll, BlockAt, BlockOk, Trail, Remembers, WellFormed,
         NoLengthCode;
    ghost var past := f.window.past;
    WindowPast(f.window);
    ghost var given := StreamAt(f.reader.Stream(), memory, xs, blocks);
    xs', blocks' := [f.reader.Stream()], [];
    NoTrail(xs', past);
    var i, last := 0, false;
    while !last
      invariant f.Valid() && i == |blocks'|
      invariant given ==> i <= |blocks| && (last <==> i == |blocks|) && blocks' == blocks[..i] && xs' == xs[..i + 1]
      invariant |xs'| == |blocks'| + 1 && xs'[0] == old(f.reader.Stream()) && f.reader.Stream() == xs'[|blocks'|]
      invariant Trail(xs', blocks', last) && AllBlocksOk(blocks') && f.window.past == FeedAll(past, blocks')
      invariant AllRemember(blocks', memory)
      decreases |f.reader.Stream()|
    {
      ghost var b, e, y := Plain([]), false, [];
      if given {
        ChainLong(xs, blocks, i + 1);
        b, e, y := blocks[i], i == |blocks| - 1, xs[i + 1];
      }
      ghost var b';
      res, last, b' := InflateBlock(f, memory(i), b, e, y);
      if res != Code(0) {
        return;
      }
      LongerTrail(xs', blocks', b', last, f.reader.Stream());
      FeedMore(past, blocks', b');
      xs', blocks' := xs' + [f.reader.Stream()], blocks' + [b'];
      i := i + 1;
    }
    TrailEnds(xs', blocks');
    WellFormedIff(xs', blocks');
    WindowPast(f.window);
    f.reader.GiveBack();
    f.window.FlushRest();
    res := Code(0);
  }

  /** The input is left at the first whole byte of the bits y. */
  ghost predicate LeftAt(r: Reader, y: seq<bool>)
    reads r
  {
    r.inptr <= |r.input| && ByteBits(r.input[r.inptr..]) == y[|y| % 8..]
  }

  lemma NoTrail(xs: seq<seq<bool>>, past: seq<Byte>)
    requires |xs| == 1 && |past| >= WSIZE
    ensures Trail(xs, [], false) && AllBlocksOk([]) && FeedAll(past, []) == past
  {
  }

  lemma TrailEnds(xs: seq<seq<bool>>, blocks: seq<Block>)
    requires Trail(xs, blocks, true)
    ensures Chain(xs, blocks)
  {
  }

  // ----- bits that are no stream, and are read nevertheless

  /** The run of 30 zeros, for a memory that holds 8 and 18. */
  function ThirtyZeros(): seq<bool> { [true] + ToBits(19, 7) }

  function ExampleLengths(): (lens: seq<nat>)
    ensures |lens| == 316
  {
    Repeated(0, 30) + Repeated(8, 256) + Repeated(0, 30)
  }

  lemma ZeroRun(x: seq<bool>, lens: seq<nat>)
    requires |lens| + 30 <= 316
    ensures Guess(ThirtyZeros() + x, 316, lens, Junk(8, 18)) == Guess(x, 316, lens + Repeated(0, 30), Junk(8, 18))
  {
    hide ToBits, FromBits;
    var s := ThirtyZeros() + x;
    assert s[1..][..7] == ToBits(19, 7) && s[1..][7..] == x;
    assert Pow2(7) == 128 by { assert Pow2(5) == 32; }
    FromTo(19, 7);
  }

  lemma {:induction false} Eights(k: nat, x: seq<bool>, lens: seq<nat>)
    requires |lens| + k <= 316
    ensures Guess(Zeros(k) + x, 316, lens, Junk(8, 18)) == Guess(x, 316, lens + Repeated(8, k), Junk(8, 18))
  {
    if k == 0 {
      assert Zeros(k) + x == x && lens + Repeated(8, k) == lens;
    } else {
      var s := Zeros(k) + x;
      assert s[1..] == Zeros(k - 1) + x && s[1..][..0] == [] && s[1..][0..] == s[1..];
      assert lens + Len(8).Spread(Last(lens)) + Repeated(8, k - 1) == lens + Repeated(8, k);
      Eights(k - 1, x, lens + Len(8).Spread(Last(lens)));
    }
  }

  /** The lengths come out as if they were sent. */
  lemma ExampleGuess(x: seq<bool>)
    ensures
      var bits := ThirtyZeros() + (Zeros(256) + (ThirtyZeros() + x));
      Guess(bits, 316, [], Junk(8, 18)) == Lengths(ExampleLengths(), x)
  {
    hide Guess, ThirtyZeros, Zeros;
    ZeroRun(Zeros(256) + (ThirtyZeros() + x), []);
    assert [] + Repeated(0, 30) == Repeated(0, 30);
    Eights(256, ThirtyZeros() + x, Repeated(0, 30));
    ZeroRun(x, Repeated(0, 30) + Repeated(8, 256));
    GuessEnd(x);
  }

  lemma GuessEnd(x: seq<bool>)
    ensures Guess(x, 316, ExampleLengths(), Junk(8, 18)) == Lengths(ExampleLengths(), x)
  {
  }

  /** The lengths make a complete code with an end of block, and no distance code. */
  lemma ExampleCodes()
    ensures
      var ll, dl := ExampleLengths()[..286], ExampleLengths()[286..];
      Full(ll) && Full(dl) && HasCode(ll, END_BLOCK)
  {
    hide Kraft, Pow2, Longest, ExampleLengths;
    ExampleParts();
    ExampleKraft(8);
    Pow2Values();
  }

  lemma ExampleParts()
    ensures ExampleLengths()[..286] == Repeated(0, 30) + Repeated(8, 256) && NoCodes(ExampleLengths()[286..])
    ensures var ll := ExampleLengths()[..286]; ll[256] == 8 && !NoCodes(ll) && Longest(ll) == 8
  {
    hide Longest;
    var ll := Repeated(0, 30) + Repeated(8, 256);
    assert ExampleLengths()[..286] == ll && ExampleLengths()[286..] == Repeated(0, 30);
    assert ll[256] == 8;
  }

  lemma {:induction false} ExampleKraft(k: nat)
    requires k <= 8
    ensures Kraft(Repeated(0, 30) + Repeated(8, 256), k) == if k == 8 then 256 else 0
  {
    hide Count;
    if k > 0 {
      ExampleKraft(k - 1);
      CountJoined(Repeated(0, 30), Repeated(8, 256), k);
      CountRepeated(0, 30, k);
      CountRepeated(8, 256, k);
    }
  }

  /** The header of the block: 286 and 30 codes, and four lengths of the code for the lengths, all of them zero. */
  ghost function ExampleBits(x: seq<bool>): seq<bool> {
    var lengths := ThirtyZeros() + (Zeros(256) + (ThirtyZeros() + x));
    ToBits(29, 5) + (ToBits(29, 5) + (ToBits(0, 4) + (Zeros(12) + lengths)))
  }

  lemma ExampleEmpty(x: seq<bool>)
    ensures EmptyCode(ExampleBits(x)) && LitCount(ExampleBits(x)) == 286
    ensures GuessAt(ExampleBits(x), Junk(8, 18)) == Lengths(ExampleLengths(), x)
  {
    hide ToBits, FromBits, Guess, ThirtyZeros, Zeros, LitCount, DistCount, ClCount, ExampleLengths;
    var body := ThirtyZeros() + (Zeros(256) + (ThirtyZeros() + x));
    var z := ExampleBits(x);
    CountsRead(z, 286, 30, 4, Zeros(12) + body);
    Parts(Zeros(12), body, z[14..]);
    assert z[14..26] == z[14..][..12] && z[26..] == z[14..][12..];
    ExampleGuess(x);
  }

  /** The bits of a last block with this header and no items. */
  ghost function ExampleBlock(y: seq<bool>): seq<bool> {
    [true, false, true] + ExampleBits(CodeBits(ExampleLengths()[..286], END_BLOCK) + y)
  }

  /** Where memory holds 8 and 18, inflate takes these bits for a block that ends the stream; but they are no stream. */
  lemma ExampleAccepted(y: seq<bool>, memory: nat -> Junk)
    requires memory(0) == Junk(8, 18) && |y| >= LOOKAHEAD
    ensures
      StreamAt(ExampleBlock(y), memory, [ExampleBlock(y), y], [Wild(Junk(8, 18), 286, ExampleLengths(), [])])
    ensures !WellFormed(ExampleBlock(y))
  {
    hide EmptyCode, ExampleBits, ExampleLengths, Full, CodeBits, WellFormed, GuessAt, Regular;
    var x, ll, dl := ExampleBlock(y), ExampleLengths()[..286], ExampleLengths()[286..];
    var b := Wild(Junk(8, 18), 286, ExampleLengths(), []);
    var code := CodeBits(ll, END_BLOCK) + y;
    ExampleCodes();
    ExampleEmpty(code);
    assert x[3..] == ExampleBits(code);
    assert x[1..3] == [false, true];
    assert FromBits([false, true]) == 2 by { assert [false, true][1..] == [true] && [true][1..] == []; }
    assert ItemsAt(code, TreesOf(ll, dl), [], y) by { assert [] + code == code; }
    WellFormedIff([x, y], [b]);
    NotRegular(b);
  }

  lemma NotRegular(b: Block)
    requires b.Wild?
    ensures !Regular([b])
  {
    assert [b][0].Wild?;
  }
}
