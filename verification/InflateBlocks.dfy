/** The blocks of inflate.c. */
module InflateBlocks {
  import opened BitIo
  import opened BitReader
  import opened BitWriter
  import opened Huffman
  import opened HuftTable
  import opened HuftFront
  import opened Lz77
  import opened InflateWindow
  import opened InflateSpec
  import opened InflateItems
  import opened PrefixCode
  import opened Inflate
  import opened InflateTrees
  import opened InflateHeader

  // ----- what blocks stand for

  /** Wild is what inflate makes of a dynamic block without a code for the lengths, which has lengths from memory; the
      other blocks are those of RFC 1951. */
  datatype Block =
    | Plain(bytes: seq<Byte>)
    | Fixed(its: seq<Item>)
    | Dynamic(header: Header, its: seq<Item>)
    | Wild(junk: Junk, nl: nat, lens: seq<nat>, its: seq<Item>)
  {
    function Type(): nat {
      match this case Plain(_) => 0 case Fixed(_) => 1 case Dynamic(_, _) => 2 case Wild(_, _, _, _) => 2
    }
  }

  ghost function HeaderTrees(h: Header): Trees
    requires h.Ok()
  {
    TreesOf(h.Lengths()[..h.nl], h.Lengths()[h.nl..])
  }

  ghost predicate Full(b: seq<nat>) { !Overfull(b) && !Partial(b) }

  ghost predicate HeaderOk(h: Header) {
    && h.Ok()
    && var trees := HeaderTrees(h);
    && Full(trees.lit.b) && Full(trees.dist.b)
  }

  /** The items of a block, and then the end of the block and y. */
  ghost predicate ItemsAt(z: seq<bool>, trees: Trees, its: seq<Item>, y: seq<bool>) {
    && HasCode(trees.lit.b, END_BLOCK) && ItemsOk(trees.lit.b, trees.dist.b, its)
    && z == ItemsBits(trees.lit.b, trees.dist.b, its) + (CodeBits(trees.lit.b, END_BLOCK) + y)
  }

  /** z holds the contents of the block b, and then y. */
  ghost predicate BodyAt(z: seq<bool>, b: Block, y: seq<bool>) {
    match b
    case Plain(bytes) => |bytes| < 0x10000 && z[|z| % 8..] == StoredHeader(|bytes|) + (ByteBits(bytes) + y)
    case Fixed(its) => ItemsAt(z, FixedTrees(), its, y)
    case Dynamic(h, its) =>
      && HeaderOk(h) && |h.Bits()| <= |z| && h.Bits() == z[..|h.Bits()|]
      && ItemsAt(z[|h.Bits()|..], HeaderTrees(h), its, y)
    case Wild(junk, nl, lens, its) => WildAt(z, junk, nl, lens, its, y)
  }

  ghost predicate WildAt(z: seq<bool>, junk: Junk, nl: nat, lens: seq<nat>, its: seq<Item>, y: seq<bool>) {
    && EmptyCode(z) && nl == LitCount(z) && GuessAt(z, junk).Lengths? && lens == GuessAt(z, junk).lens
    && Full(lens[..nl]) && Full(lens[nl..])
    && ItemsAt(GuessAt(z, junk).rest, TreesOf(lens[..nl], lens[nl..]), its, y)
  }

  /** x holds the block b, and then y. */
  ghost predicate BlockAt(x: seq<bool>, b: Block, last: bool, y: seq<bool>) {
    |x| >= 3 && x[0] == last && FromBits(x[1..3]) == b.Type() && BodyAt(x[3..], b, y)
  }

  /** The items of the block are items of its codes. */
  ghost predicate BlockOk(b: Block) {
    match b
    case Plain(_) => true
    case Fixed(its) => ItemsOk(FixedTrees().lit.b, FixedTrees().dist.b, its)
    case Dynamic(h, its) => HeaderOk(h) && ItemsOk(HeaderTrees(h).lit.b, HeaderTrees(h).dist.b, its)
    case Wild(_, nl, lens, its) => nl <= |lens| && ItemsOk(lens[..nl], lens[nl..], its)
  }

  ghost function FeedBlock(past: seq<Byte>, b: Block): (now: seq<Byte>)
    requires |past| >= WSIZE && BlockOk(b)
    ensures |now| >= |past|
  {
    match b
    case Plain(bytes) => past + bytes
    case Fixed(its) => Feed(FixedTrees().lit.b, FixedTrees().dist.b, past, its)
    case Dynamic(h, its) => Feed(HeaderTrees(h).lit.b, HeaderTrees(h).dist.b, past, its)
    case Wild(_, nl, lens, its) => Feed(lens[..nl], lens[nl..], past, its)
  }

  // ----- coded blocks

  /** What InflateCodes promises, for bits that are the items of a block. */
  method Codes(f: Inflater, tl: Pool, td: Pool, bl: nat, bd: nat, ghost trees: Trees, ghost its: seq<Item>,
               ghost y: seq<bool>)
    returns (res: Result, ghost got: seq<Item>)
    requires f.Valid() && trees.Ok() && trees.lit.Reads(tl, bl) && trees.dist.Reads(td, bd)
    modifies f.reader, f.window, f.window.slide
    ensures f.Valid() && (res == Code(0) ==> |f.reader.Stream()| < |old(f.reader.Stream())|)
    ensures res == Code(0) ==>
      && ItemsAt(old(f.reader.Stream()), trees, got, f.reader.Stream())
      && f.window.past == Feed(trees.lit.b, trees.dist.b, old(f.window.past), got)
    ensures |y| >= LOOKAHEAD && ItemsAt(old(f.reader.Stream()), trees, its, y) ==>
      res == Code(0) && f.reader.Stream() == y && got == its
  {
    hide Reader.Valid, Reader.Stream, Window.Valid, Feed, ItemsBits, CodeBits, Fair, Tree.Reads, Invalid, RunsOut;
    ghost var rest;
    ghost var stream := f.reader.Stream();
    res, got, rest := f.InflateCodes(tl, td, bl, bd, trees);
    if res == Code(0) {
      CodeLong(trees.lit.b, END_BLOCK);
    }
    if |y| >= LOOKAHEAD && ItemsAt(stream, trees, its, y) {
      ghost var ll, dl := trees.lit.b, trees.dist.b;
      ghost var why := if res == EndOfFile then TooShort else if res == Code(0) then End else BadCode;
      if res == Code(0) {
        CodeStarts(ll, END_BLOCK, f.reader.Stream());
      }
      BlockUnique(ll, dl, Span(ll), Span(dl), its, y, got, rest, why);
      SameRest(CodeBits(ll, END_BLOCK), y, f.reader.Stream());
    }
  }

  lemma CodeLong(b: seq<nat>, s: nat)
    requires HasCode(b, s)
    ensures |CodeBits(b, s)| > 0
  {
  }

  lemma WindowPast(w: Window)
    requires w.Valid()
    ensures |w.past| >= WSIZE
  {
  }

  lemma SameRest(c: seq<bool>, y: seq<bool>, y': seq<bool>)
    ensures c + y == c + y' ==> y == y'
  {
    if c + y == c + y' {
      Parts(c, y, c + y);
      Parts(c, y', c + y');
    }
  }

  method InflateFixed(f: Inflater, junk: Junk, ghost its: seq<Item>, ghost y: seq<bool>)
    returns (res: Result, ghost got: seq<Item>)
    requires f.Valid()
    modifies f.reader, f.window, f.window.slide
    ensures f.Valid() && (res == Code(0) ==> |f.reader.Stream()| < |old(f.reader.Stream())|)
    ensures res == Code(0) ==>
      && ItemsAt(old(f.reader.Stream()), FixedTrees(), got, f.reader.Stream())
      && f.window.past == Feed(FixedTrees().lit.b, FixedTrees().dist.b, old(f.window.past), got)
    ensures |y| >= LOOKAHEAD && ItemsAt(old(f.reader.Stream()), FixedTrees(), its, y) ==>
      res == Code(0) && f.reader.Stream() == y && got == its
  {
    hide Reader.Valid, Reader.Stream, Window.Valid, Feed, ItemsAt, FixedLengths, Overfull, Partial, Tree.Reads,
         Longest, Shortest, Pow2, Trees.Ok;
    got := [];
    FixedComplete();
    FixedDistances();
    FixedOk();
    MarksOk([]);
    var lengths := FixedLengths();
    LengthsSmall(lengths, 9);
    var r, tl, bl := BuildTree(lengths, 257, CPLENS, CPLEXT, 7, junk);
    if r != 0 {
      return Code(r), got;
    }
    var dists := Repeated(5, 30);
    var td, bd;
    r, td, bd := BuildTree(dists, 0, CPDIST, CPDEXT, 5, junk);
    if r > 1 {
      return Code(r), got;
    }
    res, got := Codes(f, tl, td, bl, bd, FixedTrees(), its, y);
    if res != EndOfFile && res != Code(0) {
      res := Code(1);
    }
  }

  lemma LengthsSmall(b: seq<nat>, g: nat)
    requires Longest(b) <= g
    ensures forall i :: 0 <= i < |b| ==> b[i] <= g
  {
  }

  lemma SpanOk(b: seq<nat>)
    requires Full(b) && forall i :: 0 <= i < |b| ==> b[i] < 16
    ensures Span(b) <= 15 && Fair(b, Span(b))
  {
    if NoCodes(b) {
      EmptyFair(b);
    } else {
      FairLongest(b);
    }
  }

  lemma {:induction false} SpreadSmall(cl: seq<nat>, its: seq<LenItem>)
    requires AllOk(cl, its)
    ensures forall i :: 0 <= i < |SpreadAll(its)| ==> SpreadAll(its)[i] < 16
  {
    hide Pow2, HasCode;
    if its != [] {
      SpreadSmall(cl, its[..|its| - 1]);
    }
  }

  lemma GivenHeader(z: seq<bool>, h: Header, rest: seq<bool>)
    requires h.Ok() && |h.Bits()| <= |z| && h.Bits() == z[..|h.Bits()|] && rest == z[|h.Bits()|..]
    ensures z == h.Bits() + rest
  {
    hide Header.Ok, Header.Bits;
  }

  lemma ItemsLong(z: seq<bool>, trees: Trees, its: seq<Item>, y: seq<bool>)
    requires ItemsAt(z, trees, its, y)
    ensures |z| >= |y|
  {
  }

  ghost function TreesOf(ll: seq<nat>, dl: seq<nat>): Trees {
    Trees(Tree(ll, 257, CPLENS, CPLEXT), Tree(dl, 0, CPDIST, CPDEXT))
  }

  /** inflate_dynamic, behind the header. What memory has held makes no difference here. */
  method InflateLengths(f: Inflater, ll: seq<nat>, dl: seq<nat>, junk: Junk, ghost its: seq<Item>, ghost y: seq<bool>)
    returns (res: Result, ghost got: seq<Item>)
    requires f.Valid() && 257 <= |ll| <= 286 && 1 <= |dl| <= 30
    requires (forall i :: 0 <= i < |ll| ==> ll[i] < 16) && forall i :: 0 <= i < |dl| ==> dl[i] < 16
    modifies f.reader, f.window, f.window.slide
    ensures f.Valid() && (res == Code(0) ==> |f.reader.Stream()| < |old(f.reader.Stream())|)
    ensures Full(ll) && Full(dl) && |y| >= LOOKAHEAD && ItemsAt(old(f.reader.Stream()), TreesOf(ll, dl), its, y) ==>
      res == Code(0) && f.reader.Stream() == y && got == its
    ensures res == Code(0) ==>
      && Full(ll) && Full(dl) && ItemsAt(old(f.reader.Stream()), TreesOf(ll, dl), got, f.reader.Stream())
      && f.window.past == Feed(ll, dl, old(f.window.past), got)
  {
    hide Reader.Valid, Reader.Stream, Window.Valid, Feed, ItemsAt, Overfull, Partial, Tree.Reads, Longest, Shortest,
         Trees.Ok;
    got := [];
    MarksOk([]);
    LongestBelow(ll);
    var i, tl, bl := BuildTree(ll, 257, CPLENS, CPLEXT, 9, junk);
    if i != 0 {
      return Code(i), got;
    }
    SmallPower();
    var td, bd;
    i, td, bd := BuildTree(dl, 0, CPDIST, CPDEXT, 6, junk);
    if i != 0 {
      return Code(i), got;
    }
    BuiltOk(ll, dl);
    res, got := Codes(f, tl, td, bl, bd, TreesOf(ll, dl), its, y);
    if res != EndOfFile && res != Code(0) {
      res := Code(1);
    }
  }

  /** The block is a dynamic one, and lengths from memory are those that are there. */
  ghost predicate Remembers(b: Block, junk: Junk) { b.Wild? ==> b.junk == junk }

  /** inflate_dynamic: junk is what memory holds where no value is set. */
  method InflateDynamic(f: Inflater, junk: Junk, ghost b: Block, ghost y: seq<bool>)
    returns (res: Result, ghost b': Block)
    requires f.Valid()
    modifies f.reader, f.window, f.window.slide
    ensures f.Valid() && (res == Code(0) ==> |f.reader.Stream()| < |old(f.reader.Stream())|)
    ensures |y| >= LOOKAHEAD && b.Type() == 2 && Remembers(b, junk) && BodyAt(old(f.reader.Stream()), b, y) ==>
      res == Code(0) && f.reader.Stream() == y && b' == b
    ensures res == Code(0) ==>
      && b'.Type() == 2 && Remembers(b', junk) && BodyAt(old(f.reader.Stream()), b', f.reader.Stream()) && BlockOk(b')
      && f.window.past == FeedBlock(old(f.window.past), b')
  {
    hide Reader.Valid, Reader.Stream, Window.Valid, Feed, ItemsAt, Header.Ok, Header.Bits, Header.Lengths, Flat, Full,
         EmptyCode, GuessAt, BodyAt, FeedBlock, BlockOk;
    WindowPast(f.window);
    ghost var z := f.reader.Stream();
    ghost var given := |y| >= LOOKAHEAD && b.Type() == 2 && Remembers(b, junk) && BodyAt(z, b, y);
    ghost var h, rest := Header(0, 0, 0, [], []), [];
    if given && b.Dynamic? {
      GivenDynamic(z, b, y);
      h, rest := b.header, z[|b.header.Bits()|..];
    } else if given {
      GivenWild(z, b, y);
    }
    b' := Plain([]);
    var nl, nd, lens;
    ghost var h';
    res, nl, nd, lens, h' := ReadHeader(f.reader, junk, h, rest);
    if res == Code(0) {
      ghost var z1, got := f.reader.Stream(), [];
      res, got := InflateLengths(f, lens[..nl], lens[nl..], junk, if b.Type() == 2 then b.its else [], y);
      if res == Code(0) {
        HasEnd(z1, TreesOf(lens[..nl], lens[nl..]), got, f.reader.Stream());
        if EmptyCode(z) {
          b' := Wild(junk, nl, lens, got);
          WildRead(z, b', z1, f.reader.Stream(), old(f.window.past));
        } else {
          if Flat(lens) {
            FlatFails(lens, nl);
          }
          b' := Dynamic(h', got);
          DynamicRead(z, h', z1, got, f.reader.Stream(), old(f.window.past));
        }
      }
    }
  }

  /** What a dynamic block in the bits means for the header and what follows it. */
  lemma GivenDynamic(z: seq<bool>, b: Block, y: seq<bool>)
    requires b.Dynamic? && BodyAt(z, b, y)
    ensures
      var h := b.header;
      && h.Ok() && |h.Bits()| <= |z| && var rest := z[|h.Bits()|..];
      && z == h.Bits() + rest && |rest| >= |y| && Full(h.Lengths()[..h.nl]) && Full(h.Lengths()[h.nl..])
      && ItemsAt(rest, TreesOf(h.Lengths()[..h.nl], h.Lengths()[h.nl..]), b.its, y) && !EmptyCode(z)
  {
    hide Header.Ok, Header.Bits, Header.Lengths, ItemsAt, Full, EmptyCode;
    var h := b.header;
    var rest := z[|h.Bits()|..];
    GivenHeader(z, h, rest);
    ItemsLong(rest, HeaderTrees(h), b.its, y);
    EmptyIsNone(h, rest);
  }

  lemma GivenWild(z: seq<bool>, b: Block, y: seq<bool>)
    requires b.Wild? && BodyAt(z, b, y)
    ensures EmptyCode(z) && b.nl == LitCount(z) && GuessAt(z, b.junk).Lengths? && b.lens == GuessAt(z, b.junk).lens
    ensures b.nl <= |b.lens| && Full(b.lens[..b.nl]) && Full(b.lens[b.nl..])
    ensures ItemsAt(GuessAt(z, b.junk).rest, TreesOf(b.lens[..b.nl], b.lens[b.nl..]), b.its, y)
  {
    hide EmptyCode, Guess, ItemsAt, Full;
  }

  lemma WildRead(z: seq<bool>, b: Block, z1: seq<bool>, y: seq<bool>, past: seq<Byte>)
    requires b.Wild? && EmptyCode(z) && b.nl == LitCount(z) && GuessAt(z, b.junk) == Lengths(b.lens, z1)
    requires Full(b.lens[..b.nl]) && Full(b.lens[b.nl..]) && |past| >= WSIZE
    requires ItemsAt(z1, TreesOf(b.lens[..b.nl], b.lens[b.nl..]), b.its, y)
    ensures BodyAt(z, b, y) && BlockOk(b)
    ensures FeedBlock(past, b) == Feed(b.lens[..b.nl], b.lens[b.nl..], past, b.its)
  {
    hide EmptyCode, Guess, Full, ItemsBits, CodeBits, Feed;
  }

  lemma HasEnd(z: seq<bool>, trees: Trees, its: seq<Item>, y: seq<bool>)
    requires ItemsAt(z, trees, its, y)
    ensures HasCode(trees.lit.b, END_BLOCK)
  {
  }

  /** Lengths that are all the same make no complete literal/length code. */
  lemma FlatFails(lens: seq<nat>, nl: nat)
    requires 257 <= nl <= 286 && nl <= |lens| && Flat(lens) && (forall i :: 0 <= i < |lens| ==> lens[i] < 16)
    ensures !HasCode(lens[..nl], END_BLOCK) || !Full(lens[..nl])
  {
    hide Kraft, Pow2, Longest;
    var b, k := lens[..nl], lens[0];
    if k > 0 {
      assert b == Repeated(k, nl);
      assert Longest(b) == k by { LongestFlat(b, k); }
      KraftFlat(k, nl, k);
      if k <= 8 {
        Pow2Grows(k, 8);
        Pow2Values();
      } else {
        Pow2Grows(9, k);
        Nine();
      }
    }
  }

  lemma Nine()
    ensures Pow2(9) == 512
  {
    assert Pow2(5) == 32;
  }

  lemma LongestFlat(b: seq<nat>, k: nat)
    requires |b| > 0 && k > 0 && forall i :: 0 <= i < |b| ==> b[i] == k
    ensures Longest(b) == k && !NoCodes(b)
  {
    assert b[0] == k;
  }

  lemma {:induction false} KraftFlat(v: nat, n: nat, k: nat)
    requires k <= v
    ensures Kraft(Repeated(v, n), k) == if k == v && k > 0 then n else 0
    decreases k
  {
    hide Count;
    if k > 0 {
      KraftFlat(v, n, k - 1);
      CountRepeated(v, n, k);
    }
  }

  lemma DynamicRead(z: seq<bool>, h: Header, z1: seq<bool>, its: seq<Item>, y: seq<bool>, past: seq<Byte>)
    requires h.Ok() && z == h.Bits() + z1 && ItemsAt(z1, HeaderTrees(h), its, y) && |past| >= WSIZE
    requires Full(HeaderTrees(h).lit.b) && Full(HeaderTrees(h).dist.b)
    ensures BodyAt(z, Dynamic(h, its), y) && BlockOk(Dynamic(h, its))
    ensures FeedBlock(past, Dynamic(h, its)) == Feed(HeaderTrees(h).lit.b, HeaderTrees(h).dist.b, past, its)
  {
    hide Header.Ok, Header.Bits, Header.Lengths, ItemsBits, CodeBits, Overfull, Partial, Feed;
    assert z[|h.Bits()|..] == z1 && z[..|h.Bits()|] == h.Bits();
  }

  lemma LongestBelow(b: seq<nat>)
    requires forall i :: 0 <= i < |b| ==> b[i] < 16
    ensures Longest(b) <= 18
  {
  }

  lemma SmallPower()
    ensures Pow2(6) == 64
  {
  }

  lemma BuiltOk(ll: seq<nat>, dl: seq<nat>)
    requires |ll| <= 286 && |dl| <= 30 && (forall i :: 0 <= i < |ll| ==> ll[i] < 16)
    requires forall i :: 0 <= i < |dl| ==> dl[i] < 16
    requires Full(ll) && Full(dl)
    ensures TreesOf(ll, dl).Ok()
  {
    hide Overfull, Partial, Tree.Marks, Fair, Span;
    MarksOk(ll);
    MarksOk(dl);
    SpanOk(ll);
    SpanOk(dl);
  }

  /** inflate_stored, for bits that are the contents of a stored block. */
  method InflatePlain(f: Inflater, ghost b: Block, ghost y: seq<bool>) returns (res: Result, ghost b': Block)
    requires f.Valid()
    modifies f.reader, f.window, f.window.slide
    ensures f.Valid() && (res == Code(0) ==> |f.reader.Stream()| < |old(f.reader.Stream())|)
    ensures b.Plain? && BodyAt(old(f.reader.Stream()), b, y) ==> res == Code(0) && f.reader.Stream() == y && b' == b
    ensures res == Code(0) ==>
      && b'.Plain? && BodyAt(old(f.reader.Stream()), b', f.reader.Stream())
      && f.window.past == old(f.window.past) + b'.bytes
  {
    hide Reader.Valid, Reader.Stream, Window.Valid, BodyAt, ByteBits, FromBits;
    ghost var z := f.reader.Stream();
    ghost var given := b.Plain? && BodyAt(z, b, y);
    if given {
      PlainAt(z, b, y);
    }
    ghost var bytes;
    res, bytes := f.InflateStored();
    if given {
      PlainRead(b, y, bytes, f.reader.Stream());
    }
    b' := Plain(bytes);
    if res == Code(0) {
      PlainIs(z, bytes, f.reader.Stream());
    }
  }

  /** What inflate_stored has read is a stored block. */
  lemma PlainIs(z: seq<bool>, bytes: seq<Byte>, y: seq<bool>)
    requires
      var s := z[|z| % 8..];
      && |s| >= 32 && FromBits(s[..16]) == |bytes| == 0xFFFF - FromBits(s[16..32]) && s[32..] == ByteBits(bytes) + y
    ensures BodyAt(z, Plain(bytes), y)
  {
    hide FromBits, ByteBits, StoredHeader, ItemsAt, HeaderOk, HeaderTrees, FixedTrees, WildAt;
    StoredHeaderIs(z[|z| % 8..], |bytes|);
  }

  lemma StoredHeaderIs(s: seq<bool>, n: nat)
    requires |s| >= 32 && FromBits(s[..16]) == n == 0xFFFF - FromBits(s[16..32])
    ensures n < 0x10000 && s == StoredHeader(n) + s[32..]
  {
    hide FromBits, StoredHeader;
    Below16(s[..16]);
    StoredHeaderRead(n, s[32..]);
    SameHalves(s, StoredHeader(n) + s[32..]);
  }

  lemma Below16(s: seq<bool>)
    requires |s| == 16
    ensures FromBits(s) < 0x10000
  {
    Pow2Values();
  }

  lemma SameHalves(s: seq<bool>, t: seq<bool>)
    requires |s| == |t| >= 32 && FromBits(s[..16]) == FromBits(t[..16]) && FromBits(s[16..32]) == FromBits(t[16..32])
    requires s[32..] == t[32..]
    ensures s == t
  {
    hide FromBits;
    FromBitsUnique(s[..16], t[..16]);
    FromBitsUnique(s[16..32], t[16..32]);
    assert s == s[..16] + s[16..32] + s[32..] && t == t[..16] + t[16..32] + t[32..];
  }

  /** inflate_block: last says whether the block is marked as the last one. A block that follows is read, and what is
      read is a block. */
  method InflateBlock(f: Inflater, junk: Junk, ghost b: Block, ghost e: bool, ghost y: seq<bool>)
    returns (res: Result, last: bool, ghost b': Block)
    requires f.Valid()
    modifies f.reader, f.window, f.window.slide
    ensures f.Valid() && (res == Code(0) ==> |f.reader.Stream()| < |old(f.reader.Stream())|)
    ensures |y| >= LOOKAHEAD && Remembers(b, junk) && BlockAt(old(f.reader.Stream()), b, e, y) ==>
      res == Code(0) && last == e && f.reader.Stream() == y && b' == b
    ensures res == Code(0) ==>
      && Remembers(b', junk) && BlockAt(old(f.reader.Stream()), b', last, f.reader.Stream()) && BlockOk(b')
      && f.window.past == FeedBlock(old(f.window.past), b')
  {
    hide Reader.Valid, Reader.Stream, Window.Valid, Feed, ItemsAt, FeedBlock, BodyAt, BlockOk;
    last, b' := false, Plain([]);
    WindowPast(f.window);
    ghost var x := f.reader.Stream();
    ghost var given := |y| >= LOOKAHEAD && Remembers(b, junk) && BlockAt(x, b, e, y);
    var ok, v := f.reader.GetBits(1);
    if !ok {
      return EndOfFile, last, b';
    }
    last := v == 1;
    ok, v := f.reader.GetBits(2);
    if !ok {
      return EndOfFile, last, b';
    }
    HeadBits(x);
    if v == 2 {
      res, b' := InflateDynamic(f, junk, b, y);
    } else if v == 0 {
      res, b' := InflatePlain(f, b, y);
      if res == Code(0) {
        FeedPlain(old(f.window.past), b');
      }
    } else if v == 1 {
      ghost var got;
      if given {
        FixedAt(x[3..], b, y, old(f.window.past));
      }
      res, got := InflateFixed(f, junk, if b.Fixed? then b.its else [], y);
      b' := Fixed(got);
      if res == Code(0) {
        FixedIs(x[3..], got, f.reader.Stream());
        FixedAt(x[3..], b', f.reader.Stream(), old(f.window.past));
      }
    } else {
      res := Code(2);
    }
  }

  lemma HeadBits(x: seq<bool>)
    requires |x| >= 3
    ensures FromBits(x[..1]) == (if x[0] then 1 else 0) && FromBits(x[1..][..2]) == FromBits(x[1..3])
    ensures x[1..][2..] == x[3..]
  {
    assert x[..1][1..] == [];
    assert x[1..][..2] == x[1..3];
  }

  lemma FixedIs(z: seq<bool>, its: seq<Item>, y: seq<bool>)
    requires ItemsAt(z, FixedTrees(), its, y)
    ensures BodyAt(z, Fixed(its), y)
  {
  }

  lemma PlainAt(z: seq<bool>, b: Block, y: seq<bool>)
    requires b.Plain? && BodyAt(z, b, y)
    ensures
      var s := z[|z| % 8..];
      && |s| >= 32 + 8 * |b.bytes| && FromBits(s[..16]) == |b.bytes| == 0xFFFF - FromBits(s[16..32])
      && s[32..] == ByteBits(b.bytes) + y
  {
    hide FromBits, ByteBits, StoredHeader;
    StoredHeaderRead(|b.bytes|, ByteBits(b.bytes) + y);
  }

  lemma PlainRead(b: Block, y: seq<bool>, bytes: seq<Byte>, y': seq<bool>)
    requires b.Plain? && |bytes| == |b.bytes| && ByteBits(b.bytes) + y == ByteBits(bytes) + y'
    ensures bytes == b.bytes && y' == y
  {
    hide ByteBits;
    var s := ByteBits(b.bytes) + y;
    Parts(ByteBits(b.bytes), y, s);
    Parts(ByteBits(bytes), y', s);
    assert ByteBits(b.bytes) == ByteBits(bytes) + [];
    SameBytes(bytes, b.bytes, []);
  }

  lemma FeedPlain(past: seq<Byte>, b: Block)
    requires b.Plain? && |past| >= WSIZE
    ensures BlockOk(b) && FeedBlock(past, b) == past + b.bytes
  {
  }

  lemma FixedAt(z: seq<bool>, b: Block, y: seq<bool>, past: seq<Byte>)
    requires b.Fixed? && BodyAt(z, b, y) && |past| >= WSIZE
    ensures ItemsAt(z, FixedTrees(), b.its, y) && BlockOk(b)
    ensures FeedBlock(past, b) == Feed(FixedTrees().lit.b, FixedTrees().dist.b, past, b.its)
  {
  }
}
