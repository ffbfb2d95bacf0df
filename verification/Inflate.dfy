/** inflate.c: reading compressed blocks. */
module Inflate {
  import opened BitIo
  import opened BitReader
  import opened BitWriter
  import opened Huffman
  import opened HuftTable
  import opened HuftFront
  import opened InflateWindow
  import opened InflateSpec
  import opened InflateItems
  import opened PrefixCode
  import opened Lz77

  /** The return code of the C function; EndOfFile where it does not return, because the input ends too early. */
  datatype Result = Code(r: nat) | EndOfFile

  /** The number of bits that decide a code. */
  function Span(b: seq<nat>): nat { if NoCodes(b) then 1 else Longest(b) }

  class Inflater {
    const reader: Reader
    const window: Window

    ghost predicate Valid()
      reads this, reader, window, window.slide
    {
      reader.Valid() && window.Valid()
    }

    constructor (reader: Reader, window: Window)
      ensures this.reader == reader && this.window == window
    {
      this.reader, this.window := reader, window;
    }

    /** The entry of the table t for the bits to come. */
    method Select(tables: Pool, t: nat, ghost stream: seq<bool>, ghost g: nat, ghost w: nat)
      returns (ok: bool, r: Entry)
      requires reader.Valid() && Shaped(tables) && t < |tables| && g <= 16 && w <= |stream|
      requires reader.Stream() == stream[w..] && Walk(tables, t, w, Padded(stream, g)).Got?
      modifies reader
      ensures reader.Valid() && reader.Stream() == stream[w..]
      ensures !ok ==> |stream| < g
      ensures ok && r.Leaf? ==> Enough(tables, t, stream[w..])
      ensures ok && r.Link? && r.to < |tables| && w + r.b <= |stream| ==>
        (Enough(tables, t, stream[w..]) <==> Enough(tables, r.to, stream[w + r.b..]))
      ensures !ok ==> !Enough(tables, t, stream[w..])
      ensures ok && r.Leaf? ==>
        r.b <= reader.bk && Walk(tables, t, w, Padded(stream, g)) == Got(r.e, r.n, w + r.b)
      ensures ok && r.Link? ==>
        && r.b <= reader.bk && t < r.to < |tables| && r.bits == tables[r.to].bits
        && Walk(tables, t, w, Padded(stream, g)) == Walk(tables, r.to, w + r.b, Padded(stream, g))
      ensures r != Unset
    {
      hide Reader.Valid, Reader.Stream, ToBits, FromBits, ByteBits, Pow2, Padded, Walk, Shaped;
      WalkStep(tables, t, w, Padded(stream, g));
      ok := reader.NeedBits(tables[t].bits);
      if !ok {
        return false, Leaf(0, 0, 0);
      }
      var i := reader.Peek(tables[t].bits);
      PaddedPart(stream, g, w, tables[t].bits);
      r := tables[t].entries[i];
      if r.Link? {
        DropTwice(stream, w, r.b);
      }
    }

    /** Looks up a code by way of the tables; e == 99 stands for an invalid code. */
    method Lookup(tables: Pool, bits: nat, ghost g: nat) returns (ok: bool, e: nat, n: nat, ghost used: nat)
      requires reader.Valid() && |tables| > 0 && tables[0].bits == bits && Shaped(tables) && g <= 16
      requires forall x: seq<bool> :: |x| == g ==> Walk(tables, 0, 0, x).Got?
      modifies reader
      ensures reader.Valid()
      ensures !ok ==> |old(reader.Stream())| < g
      ensures ok <==> Enough(tables, 0, old(reader.Stream()))
      ensures ok ==> Walk(tables, 0, 0, Padded(old(reader.Stream()), g)) == Got(e, n, used)
      ensures ok && e != 99 ==> used <= |old(reader.Stream())| && reader.Stream() == old(reader.Stream())[used..]
    {
      hide Reader.Valid, Reader.Stream, ToBits, FromBits, ByteBits, Pow2, Padded, Walk, Shaped, Enough;
      ghost var stream := reader.Stream();
      assert stream[0..] == stream;
      ghost var x := Padded(stream, g);
      ghost var w := 0;
      var t, b := 0, bits;
      while true
        invariant reader.Valid() && t < |tables| && tables[t].bits == b && w <= |stream|
        invariant reader.Stream() == stream[w..]
        invariant Walk(tables, t, w, x) == Walk(tables, 0, 0, x)
        invariant Enough(tables, t, stream[w..]) <==> Enough(tables, 0, stream)
        decreases |tables| - t
      {
        var r;
        ok, r := Select(tables, t, stream, g, w);
        if !ok {
          e, n, used := 0, 0, 0;
          return;
        }
        match r
        case Leaf(e', b', n') =>
          e, n, used := e', n', w + b';
          if e != 99 {
            reader.DumpBits(b');
            DropTwice(stream, w, b');
          }
          return;
        case Link(b', bits', to) =>
          reader.DumpBits(b');
          DropTwice(stream, w, b');
          t, b, w := to, bits', w + b';
      }
    }

    /** The next symbol of the code with lengths b. */
    method NextSymbol(tables: Pool, bits: nat, ghost tree: Tree, ghost limit: nat) returns (f: Found, ghost sym: nat)
      requires reader.Valid() && tree.Reads(tables, bits) && tree.Marks(limit)
      modifies reader
      ensures reader.Valid()
      ensures f.TooFew? <==> !Enough(tables, 0, old(reader.Stream()))
      ensures match f
        case TooFew => |old(reader.Stream())| < Span(tree.b)
        case NoCode => NoSuch(tree.b, Span(tree.b), limit, old(reader.Stream()))
        case Symbol(e, n) =>
          && HasCode(tree.b, sym) && old(reader.Stream()) == CodeBits(tree.b, sym) + reader.Stream()
          && e == Operation(tree.s, tree.e, sym) && n == Value(tree.s, tree.d, sym) && e != 99
    {
      hide Reader.Valid, Reader.Stream, ToBits, FromBits, ByteBits, Pow2, Padded, Walk, Shaped, Decoded, CodeBits,
           NoSuch, Fair, Enough;
      ghost var stream := reader.Stream();
      FairBound(tree.b, Span(tree.b));
      var ok, e, n;
      ghost var used;
      sym := 0;
      ok, e, n, used := Lookup(tables, bits, Span(tree.b));
      if !ok {
        f := TooFew;
      } else if e == 99 {
        f := NoCode;
        NoneMeant(tables, bits, tree, limit, stream, n, used);
      } else {
        f := Symbol(e, n);
        sym := SymbolMeant(tables, bits, tree, stream, e, n, used);
      }
    }

    /** Reads a distance symbol and its extra bits. */
    method ReadDistance(td: Pool, bd: nat, ghost trees: Trees)
      returns (f: Found, dist: nat, ghost dsym: nat, ghost dx: nat)
      requires reader.Valid() && trees.Ok() && trees.dist.Reads(td, bd)
      modifies reader
      ensures reader.Valid()
      ensures f.TooFew? <==> DistCut(td, trees.dist.b, old(reader.Stream()))
      ensures f.TooFew? ==> NoDist(trees.dist.b, Span(trees.dist.b), old(reader.Stream()))
      ensures f.NoCode? ==> NoSuch(trees.dist.b, Span(trees.dist.b), 30, old(reader.Stream()))
      ensures f.Symbol? ==>
        && dsym < 30 && HasCode(trees.dist.b, dsym) && dx < Pow2(CPDEXT[dsym]) && dist == Distance(dsym, dx)
        && old(reader.Stream()) == DistBits(trees.dist.b, dsym, dx) + reader.Stream()
    {
      hide Reader.Valid, Reader.Stream, ToBits, FromBits, ByteBits, Pow2, CodeBits, Fair, NoSuch, Enough;
      ghost var s1 := reader.Stream();
      dist, dx := 0, 0;
      f, dsym := NextSymbol(td, bd, trees.dist, 30);
      if f.NoCode? {
        DistNone(td, trees.dist.b, Span(trees.dist.b), s1);
      }
      if f.Symbol? {
        ghost var s2 := reader.Stream();
        SmallTables(257, dsym);
        var ok, x := reader.GetBits(f.e);
        if !ok {
          assert ShortExtra(trees.dist.b, s1, dsym, s2);
          f := TooFew;
          return;
        }
        dist, dx := f.n + x, x;
        DistWhole(td, trees.dist.b, Span(trees.dist.b), s1, dsym, s2);
        Halves(CodeBits(trees.dist.b, dsym), s2, CPDEXT[dsym]);
      }
    }

    /** Reads the rest of a length and a distance, after the length symbol has been read. */
    method ReadCopy(base: nat, extra: nat, td: Pool, bd: nat, ghost trees: Trees, ghost lsym: nat,
                    ghost before: seq<bool>)
      returns (f: Found, len: nat, dist: nat, ghost it: Item)
      requires reader.Valid() && trees.Ok() && trees.dist.Reads(td, bd)
      requires 257 <= lsym < 286 && HasCode(trees.lit.b, lsym) && extra == CPLEXT[lsym - 257]
      requires base == CPLENS[lsym - 257]
      requires before == CodeBits(trees.lit.b, lsym) + reader.Stream()
      modifies reader
      ensures reader.Valid()
      ensures f.TooFew? <==>
        |old(reader.Stream())| < extra || DistCut(td, trees.dist.b, old(reader.Stream())[extra..])
      ensures f.TooFew? ==> trees.EndsIn(before)
      ensures f.NoCode? ==> trees.IsInvalid(before)
      ensures f.Symbol? ==>
        ItemOk(trees.lit.b, trees.dist.b, it) && before == ItemBits(trees.lit.b, trees.dist.b, it) + reader.Stream()
      ensures f.Symbol? ==> it.Copy? && TokenOf(it) == Match(dist, len)
    {
      hide Reader.Valid, Reader.Stream, Trees.Ok, Tree.Reads, ToBits, FromBits, ByteBits, Pow2, CodeBits, NoSuch,
           Invalid, NoDist, RunsOut, LengthBits, DistBits, DistCut;
      it, len, dist := Lit(0), 0, 0;
      ghost var ll, dl := trees.lit.b, trees.dist.b;
      ghost var s0 := reader.Stream();
      SmallTables(lsym, 0);
      var ok, lx := reader.GetBits(extra);
      if !ok {
        EndsInLength(ll, dl, Span(ll), Span(dl), before, lsym, s0);
        f := TooFew;
        return;
      }
      ghost var s1 := reader.Stream();
      LengthRead(ll, lsym, lx, s0, s1);
      len := base + lx;
      ghost var dsym, dx;
      f, dist, dsym, dx := ReadDistance(td, bd, trees);
      if f.TooFew? {
        EndsInDist(ll, dl, Span(ll), Span(dl), before, lsym, lx, s1);
      }
      if f.NoCode? {
        InvalidFrom(ll, dl, Span(ll), Span(dl), before, lsym, lx, s1);
      }
      if f.Symbol? {
        it := Copy(lsym, lx, dsym, dx);
        Associative(LengthBits(ll, lsym, lx), DistBits(dl, dsym, dx), reader.Stream());
      }
    }

    /** One round of the loop of inflate_codes, up to what it does to the window. */
    method NextItem(tl: Pool, td: Pool, bl: nat, bd: nat, ghost trees: Trees) returns (n: Next, ghost it: Item)
      requires reader.Valid() && trees.Ok() && trees.lit.Reads(tl, bl) && trees.dist.Reads(td, bd)
      modifies reader
      ensures reader.Valid()
      ensures n.EndOfInput? <==> Cut(tl, td, trees.lit.b, trees.dist.b, old(reader.Stream()))
      ensures n.InvalidCode? <==> !n.EndOfInput? && trees.IsInvalid(old(reader.Stream()))
      ensures n.EndOfBlock? <==> !n.EndOfInput? && Starts(trees.lit.b, END_BLOCK, old(reader.Stream()))
      ensures match n
        case EndOfBlock =>
          HasCode(trees.lit.b, END_BLOCK) && old(reader.Stream()) == CodeBits(trees.lit.b, END_BLOCK) + reader.Stream()
        case InvalidCode => trees.IsInvalid(old(reader.Stream()))
        case EndOfInput => trees.EndsIn(old(reader.Stream()))
        case Give(t) =>
          && ItemOk(trees.lit.b, trees.dist.b, it) && t == TokenOf(it)
          && old(reader.Stream()) == ItemBits(trees.lit.b, trees.dist.b, it) + reader.Stream()
    {
      hide Reader.Valid, Reader.Stream, ToBits, FromBits, ByteBits, Pow2, CodeBits, Fair, NoSuch, Invalid, RunsOut,
           ItemBits, Tree.Reads, Cut, DistCut, Enough, Starts;
      ghost var ll, dl, rest := trees.lit.b, trees.dist.b, reader.Stream();
      ghost var sym;
      it := Lit(0);
      HasTables(trees.lit, tl, bl);
      HasTables(trees.dist, td, bd);
      var f;
      f, sym := NextSymbol(tl, bl, trees.lit, 286);
      match f
      case TooFew =>
        EndsInCode(ll, dl, Span(ll), Span(dl), rest);
        CutAtOnce(tl, td, ll, dl, rest);
        n := EndOfInput;
      case NoCode =>
        InvalidLit(ll, dl, Span(ll), Span(dl), rest);
        CutNone(tl, td, ll, dl, Span(ll), rest);
        n := InvalidCode;
      case Symbol(e, v) =>
        LitSymbol(sym);
        CutAfter(tl, td, ll, dl, Span(ll), rest, sym, reader.Stream());
        EndIs(ll, Span(ll), sym, reader.Stream());
        if sym <= END_BLOCK {
          GoesOnLit(ll, dl, Span(ll), Span(dl), sym, reader.Stream());
        }
        if e == 15 {
          n := EndOfBlock;
        } else if e == 16 {
          it := Lit(sym);
          LitItem(ll, dl, sym);
          n := Give(Literal(v));
        } else {
          var len, dist;
          f, len, dist, it := ReadCopy(v, e, td, bd, trees, sym, rest);
          if f.Symbol? {
            GoesOnCopy(ll, dl, Span(ll), Span(dl), it, reader.Stream());
          }
          n := match f case TooFew => EndOfInput case NoCode => InvalidCode case Symbol(_, _) => Give(Match(dist, len));
        }
    }

    /** inflate_codes: reads items until the end of the block, until a code that is not valid, or until the input
        ends. */
    method InflateCodes(tl: Pool, td: Pool, bl: nat, bd: nat, ghost trees: Trees)
      returns (res: Result, ghost its: seq<Item>, ghost rest: seq<bool>)
      requires Valid() && trees.Ok() && trees.lit.Reads(tl, bl) && trees.dist.Reads(td, bd)
      modifies reader, window, window.slide
      ensures Valid() && ItemsOk(trees.lit.b, trees.dist.b, its)
      ensures old(reader.Stream()) == ItemsBits(trees.lit.b, trees.dist.b, its) + rest
      ensures window.past == Feed(trees.lit.b, trees.dist.b, old(window.past), its)
      ensures match res
        case Code(r) =>
          if r == 0 then HasCode(trees.lit.b, END_BLOCK) && rest == CodeBits(trees.lit.b, END_BLOCK) + reader.Stream()
          else r == 1 && trees.IsInvalid(rest)
        case EndOfFile => trees.EndsIn(rest)
      ensures res.EndOfFile? <==> Cut(tl, td, trees.lit.b, trees.dist.b, rest)
      ensures res == Code(1) <==> !res.EndOfFile? && trees.IsInvalid(rest)
      ensures res == Code(0) <==> !res.EndOfFile? && Starts(trees.lit.b, END_BLOCK, rest)
    {
      hide Reader.Valid, Reader.Stream, CodeBits, Fair, Holds, CopyBack, Invalid, RunsOut, Feed, ItemsBits, ItemBits,
           ItemsOk, Trees.Ok, Tree.Reads, ItemOk, Cut, Starts;
      ghost var ll, dl := trees.lit.b, trees.dist.b;
      its, rest := [], reader.Stream();
      NoItems(ll, dl, rest, window.past);
      while true
        invariant Valid() && ItemsOk(ll, dl, its) && rest == reader.Stream()
        invariant old(reader.Stream()) == ItemsBits(ll, dl, its) + rest
        invariant window.past == Feed(ll, dl, old(window.past), its)
        decreases |rest|
      {
        ghost var it;
        var n;
        n, it := NextItem(tl, td, bl, bd, trees);
        match n
        case EndOfBlock =>
          res := Code(0);
          return;
        case InvalidCode =>
          res := Code(1);
          return;
        case EndOfInput =>
          res := EndOfFile;
          return;
        case Give(t) =>
          OneItem(ll, dl, old(window.past), its, it, rest, reader.Stream());
          match t {
            case Literal(b) => window.Put(b);
            case Match(dist, len) => window.Copy(dist, len);
          }
          its, rest := its + [it], reader.Stream();
      }
    }

    /** Skips to a byte boundary and reads a length and its complement. */
    method StoredLength() returns (res: Result, n: nat)
      requires reader.Valid()
      modifies reader
      ensures reader.Valid()
      ensures
        var s := old(reader.Stream())[|old(reader.Stream())| % 8..];
        if |s| < 32 then res == EndOfFile
        else if FromBits(s[..16]) != 0xFFFF - FromBits(s[16..32]) then res == Code(1)
        else res == Code(0) && n == FromBits(s[..16]) && reader.Stream() == s[32..]
    {
      hide Reader.Valid, Reader.Stream, ToBits, FromBits, ByteBits, Pow2;
      n := 0;
      StreamOdd(reader);
      reader.DumpBits(reader.bk % 8);
      ghost var s := reader.Stream();
      var ok;
      ok, n := reader.GetBits(16);
      if !ok {
        return EndOfFile, n;
      }
      ghost var t := reader.Stream();
      ok := reader.NeedBits(16);
      if !ok {
        return EndOfFile, n;
      }
      var m := reader.Peek(16);
      assert t[..16] == s[16..32] && t[16..] == s[32..];
      if n + m != 0xFFFF {
        return Code(1), n;
      }
      reader.DumpBits(16);
      res := Code(0);
    }

    /** Reads n bytes into the window. */
    method StoredBytes(n: nat) returns (ok: bool, ghost bytes: seq<Byte>)
      requires Valid()
      modifies reader, window, window.slide
      ensures Valid() && (ok <==> 8 * n <= |old(reader.Stream())|)
      ensures ok ==> |bytes| == n && old(reader.Stream()) == ByteBits(bytes) + reader.Stream()
      ensures ok ==> window.past == old(window.past) + bytes
    {
      hide Reader.Valid, Reader.Stream, ToBits, FromBits, ByteBits, Pow2, Holds;
      bytes := [];
      var i := 0;
      NoByteBits(reader.Stream());
      while i < n
        invariant Valid() && i <= n && |bytes| == i && old(reader.Stream()) == ByteBits(bytes) + reader.Stream()
        invariant window.past == old(window.past) + bytes
      {
        ghost var v := reader.Stream();
        ok := reader.NeedBits(8);
        if !ok {
          return;
        }
        var b := reader.Peek(8);
        ByteRead(bytes, b, v);
        window.Put(b);
        reader.DumpBits(8);
        bytes := bytes + [b];
        i := i + 1;
      }
      ok := true;
    }

    /** inflate_stored: copies the bytes of a stored block, if its length fits its complement. */
    method InflateStored() returns (res: Result, ghost bytes: seq<Byte>)
      requires Valid()
      modifies reader, window, window.slide
      ensures Valid()
      ensures
        var s := old(reader.Stream())[|old(reader.Stream())| % 8..];
        if |s| < 32 then res == EndOfFile
        else if FromBits(s[..16]) != 0xFFFF - FromBits(s[16..32]) then res == Code(1)
        else if |s| < 32 + 8 * FromBits(s[..16]) then res == EndOfFile
        else
          && res == Code(0) && |bytes| == FromBits(s[..16]) && s[32..] == ByteBits(bytes) + reader.Stream()
          && window.past == old(window.past) + bytes
    {
      hide Reader.Valid, Reader.Stream, ToBits, FromBits, ByteBits, Pow2, Holds;
      bytes := [];
      var n;
      res, n := StoredLength();
      if res == Code(0) {
        var ok;
        ok, bytes := StoredBytes(n);
        if !ok {
          res := EndOfFile;
        }
      }
    }
  }

  lemma StreamOdd(r: Reader)
    requires r.Valid()
    ensures |r.Stream()| % 8 == r.bk % 8
  {
  }

  lemma NoByteBits(s: seq<bool>)
    ensures ByteBits([]) + s == s
  {
  }

  /** A byte read from the front of v. */
  lemma ByteRead(bytes: seq<Byte>, b: nat, v: seq<bool>)
    requires |v| >= 8 && b == FromBits(v[..8])
    ensures b < 256 && ByteBits(bytes) + v == ByteBits(bytes + [b]) + v[8..]
  {
    hide ByteBits, ToBits;
    Pow2Values();
    ToFrom(v[..8]);
    ByteBitsAppend(bytes, [b]);
    OneByte(b);
    Halves(ByteBits(bytes), v, 8);
  }

  lemma OneByte(b: Byte)
    ensures ByteBits([b]) == ToBits(b, 8)
  {
    assert [b][1..] == [];
  }

  /** The literal/length and the distance code of a block. */
  datatype Trees = Trees(lit: Tree, dist: Tree) {
    ghost predicate Ok() {
      && lit.s == 257 && lit.d == CPLENS && lit.e == CPLEXT && |lit.b| <= 288 && Span(lit.b) <= 15
      && Fair(lit.b, Span(lit.b))
      && dist.s == 0 && dist.d == CPDIST && dist.e == CPDEXT && |dist.b| <= 30 && Span(dist.b) <= 15
      && Fair(dist.b, Span(dist.b))
      && dist.Marks(30) && lit.Marks(286)
    }

    ghost predicate IsInvalid(x: seq<bool>) {
      Invalid(lit.b, dist.b, Span(lit.b), Span(dist.b), x)
    }

    ghost predicate EndsIn(x: seq<bool>) {
      RunsOut(lit.b, dist.b, Span(lit.b), Span(dist.b), x)
    }
  }

  // ----- when the bits are too few

  /** x ends within a distance: the bits are too few for the look-ups in td, or for the extra bits of the symbol. */
  ghost predicate DistCut(td: Pool, dl: seq<nat>, x: seq<bool>)
    requires |td| > 0
  {
    !Enough(td, 0, x) || exists dsym: nat, r: seq<bool> :: ShortExtra(dl, x, dsym, r)
  }

  ghost predicate CutDist(td: Pool, ll: seq<nat>, dl: seq<nat>, x: seq<bool>, lsym: nat, lx: nat, r: seq<bool>)
    requires |td| > 0
  {
    && 257 <= lsym < 286 && HasCode(ll, lsym) && lx < Pow2(CPLEXT[lsym - 257])
    && x == LengthBits(ll, lsym, lx) + r && DistCut(td, dl, r)
  }

  /** x ends within an item: the bits are too few for the look-ups in tl, for the extra bits of a length, or for the
      distance behind it. */
  ghost predicate Cut(tl: Pool, td: Pool, ll: seq<nat>, dl: seq<nat>, x: seq<bool>)
    requires |tl| > 0 && |td| > 0
  {
    || !Enough(tl, 0, x)
    || (exists lsym: nat, r: seq<bool> :: ShortLength(ll, x, lsym, r))
    || (exists lsym: nat, lx: nat, r: seq<bool> :: CutDist(td, ll, dl, x, lsym, lx, r))
  }

  lemma NoneStarts(b: seq<nat>, g: nat, limit: nat, x: seq<bool>, s: nat)
    requires Fair(b, g) && NoSuch(b, g, limit, x) && Starts(b, s, x)
    ensures s >= limit
  {
    hide Starts;
    StartsPadded(b, g, s, x);
  }

  lemma DistNone(td: Pool, dl: seq<nat>, h: nat, x: seq<bool>)
    requires |td| > 0 && Fair(dl, h) && Enough(td, 0, x) && NoSuch(dl, h, 30, x)
    ensures !DistCut(td, dl, x)
  {
    hide Fair, NoSuch, Enough, CodeBits;
    forall dsym: nat, r: seq<bool> | ShortExtra(dl, x, dsym, r)
      ensures false
    {
      CodeStarts(dl, dsym, r);
      NoneStarts(dl, h, 30, x, dsym);
    }
  }

  lemma DistWhole(td: Pool, dl: seq<nat>, h: nat, x: seq<bool>, s: nat, r: seq<bool>)
    requires |td| > 0 && Fair(dl, h) && Enough(td, 0, x)
    requires s < 30 && HasCode(dl, s) && x == CodeBits(dl, s) + r && |r| >= CPDEXT[s]
    ensures !DistCut(td, dl, x)
  {
    hide Fair, Enough, CodeBits;
    forall dsym: nat, r': seq<bool> | ShortExtra(dl, x, dsym, r')
      ensures false
    {
      SameCode(dl, h, s, dsym, r, r');
    }
  }

  lemma CutAtOnce(tl: Pool, td: Pool, ll: seq<nat>, dl: seq<nat>, x: seq<bool>)
    requires |tl| > 0 && |td| > 0 && !Enough(tl, 0, x)
    ensures Cut(tl, td, ll, dl, x)
  {
  }

  lemma LengthStarts(ll: seq<nat>, lsym: nat, lx: nat, r: seq<bool>)
    requires 257 <= lsym < 286 && HasCode(ll, lsym)
    ensures LengthBits(ll, lsym, lx) + r == CodeBits(ll, lsym) + (ToBits(lx, CPLEXT[lsym - 257]) + r)
    ensures Starts(ll, lsym, LengthBits(ll, lsym, lx) + r)
  {
    hide CodeBits, ToBits;
    Associative(CodeBits(ll, lsym), ToBits(lx, CPLEXT[lsym - 257]), r);
  }

  lemma CutNone(tl: Pool, td: Pool, ll: seq<nat>, dl: seq<nat>, g: nat, x: seq<bool>)
    requires |tl| > 0 && |td| > 0 && Fair(ll, g) && Enough(tl, 0, x) && NoSuch(ll, g, 286, x)
    ensures !Cut(tl, td, ll, dl, x) && !Starts(ll, END_BLOCK, x)
  {
    hide Fair, NoSuch, Enough, CodeBits, DistCut, LengthBits, Pow2, Starts;
    forall lsym: nat | Starts(ll, lsym, x)
      ensures lsym >= 286
    {
      NoneStarts(ll, g, 286, x, lsym);
    }
    forall lsym: nat, r: seq<bool> | ShortLength(ll, x, lsym, r)
      ensures false
    {
      CodeStarts(ll, lsym, r);
    }
    forall lsym: nat, lx: nat, r: seq<bool> | CutDist(td, ll, dl, x, lsym, lx, r)
      ensures false
    {
      LengthStarts(ll, lsym, lx, r);
    }
  }

  lemma EndIs(ll: seq<nat>, g: nat, sym: nat, r: seq<bool>)
    requires Fair(ll, g) && HasCode(ll, sym)
    ensures Starts(ll, END_BLOCK, CodeBits(ll, sym) + r) <==> sym == END_BLOCK
  {
    hide Fair, CodeBits, Starts;
    CodeStarts(ll, sym, r);
    if Starts(ll, END_BLOCK, CodeBits(ll, sym) + r) {
      StartsUnique(ll, g, END_BLOCK, sym, CodeBits(ll, sym) + r);
    }
  }

  /** Behind the symbol of a length come its extra bits and the distance. */
  lemma CutAfter(tl: Pool, td: Pool, ll: seq<nat>, dl: seq<nat>, g: nat, x: seq<bool>, sym: nat, r: seq<bool>)
    requires |tl| > 0 && |td| > 0 && Fair(ll, g) && Enough(tl, 0, x) && HasCode(ll, sym) && x == CodeBits(ll, sym) + r
    ensures Cut(tl, td, ll, dl, x) <==>
      257 <= sym < 286 && (|r| < CPLEXT[sym - 257] || DistCut(td, dl, r[CPLEXT[sym - 257]..]))
  {
    hide Fair, Enough, CodeBits, DistCut, LengthBits, Pow2, ToBits, Starts;
    forall lsym: nat, r': seq<bool> | ShortLength(ll, x, lsym, r')
      ensures lsym == sym && r' == r
    {
      SameCode(ll, g, sym, lsym, r, r');
    }
    forall lsym: nat, lx: nat, r': seq<bool> | CutDist(td, ll, dl, x, lsym, lx, r')
      ensures lsym == sym && |r| >= CPLEXT[sym - 257] && r' == r[CPLEXT[sym - 257]..]
    {
      LengthStarts(ll, lsym, lx, r');
      SameCode(ll, g, sym, lsym, r, ToBits(lx, CPLEXT[lsym - 257]) + r');
    }
    if 257 <= sym < 286 {
      var n := CPLEXT[sym - 257];
      if |r| < n {
        assert ShortLength(ll, x, sym, r);
      } else if DistCut(td, dl, r[n..]) {
        LengthAt(ll, x, sym, r);
        assert CutDist(td, ll, dl, x, sym, FromBits(r[..n]), r[n..]);
      }
    }
  }

  lemma LengthAt(ll: seq<nat>, x: seq<bool>, sym: nat, r: seq<bool>)
    requires 257 <= sym < 286 && HasCode(ll, sym) && x == CodeBits(ll, sym) + r && |r| >= CPLEXT[sym - 257]
    ensures
      var n := CPLEXT[sym - 257];
      FromBits(r[..n]) < Pow2(n) && x == LengthBits(ll, sym, FromBits(r[..n])) + r[n..]
  {
    hide CodeBits, ToBits, FromBits, Pow2;
    var n := CPLEXT[sym - 257];
    ToFrom(r[..n]);
    LengthRead(ll, sym, FromBits(r[..n]), r, r[n..]);
  }

  lemma EndsInCode(ll: seq<nat>, dl: seq<nat>, g: nat, h: nat, x: seq<bool>)
    requires |x| < g
    ensures RunsOut(ll, dl, g, h, x)
  {
  }

  lemma EndsInLength(ll: seq<nat>, dl: seq<nat>, g: nat, h: nat, x: seq<bool>, lsym: nat, r: seq<bool>)
    requires ShortLength(ll, x, lsym, r)
    ensures RunsOut(ll, dl, g, h, x)
  {
  }

  lemma EndsInDist(ll: seq<nat>, dl: seq<nat>, g: nat, h: nat, x: seq<bool>, lsym: nat, lx: nat, r: seq<bool>)
    requires ShortDist(ll, dl, h, x, lsym, lx, r)
    ensures RunsOut(ll, dl, g, h, x)
  {
  }

  lemma SmallTables(lsym: nat, dsym: nat)
    requires 257 <= lsym < 286 && dsym < 30
    ensures CPLEXT[lsym - 257] <= 5 && CPDEXT[dsym] <= 13
    ensures Operation(0, CPDEXT, dsym) == CPDEXT[dsym] && Value(0, CPDIST, dsym) == CPDIST[dsym]
  {
  }

  lemma LengthRead(ll: seq<nat>, lsym: nat, lx: nat, s0: seq<bool>, s1: seq<bool>)
    requires 257 <= lsym < 286 && HasCode(ll, lsym)
    requires var n := CPLEXT[lsym - 257]; n <= |s0| && s1 == s0[n..] && ToBits(lx, n) == s0[..n]
    ensures CodeBits(ll, lsym) + s0 == LengthBits(ll, lsym, lx) + s1
  {
    hide CodeBits, ToBits;
    var n := CPLEXT[lsym - 257];
    Halves(CodeBits(ll, lsym), s0, n);
  }

  lemma NoItems(ll: seq<nat>, dl: seq<nat>, rest: seq<bool>, past: seq<Byte>)
    requires |past| >= WSIZE
    ensures ItemsOk(ll, dl, []) && ItemsBits(ll, dl, []) + rest == rest && Feed(ll, dl, past, []) == past
  {
  }

  lemma InvalidLit(ll: seq<nat>, dl: seq<nat>, g: nat, h: nat, x: seq<bool>)
    requires NoSuch(ll, g, 286, x)
    ensures Invalid(ll, dl, g, h, x)
  {
  }

  lemma LitItem(ll: seq<nat>, dl: seq<nat>, sym: nat)
    requires sym < 256 && HasCode(ll, sym)
    ensures ItemOk(ll, dl, Lit(sym)) && ItemBits(ll, dl, Lit(sym)) == CodeBits(ll, sym)
  {
  }

  /** The operations of literal and length symbols. */
  lemma LitSymbol(sym: nat)
    ensures Operation(257, CPLEXT, sym) == 16 <==> sym < 256
    ensures Operation(257, CPLEXT, sym) == 15 <==> sym == END_BLOCK
    ensures sym < 256 ==> Value(257, CPLENS, sym) == sym
    ensures 257 <= sym < 286 ==>
      Operation(257, CPLEXT, sym) == CPLEXT[sym - 257] && Value(257, CPLENS, sym) == CPLENS[sym - 257]
    ensures 286 <= sym < 288 ==> Operation(257, CPLEXT, sym) == 99
  {
  }

  lemma OneItem(ll: seq<nat>, dl: seq<nat>, past: seq<Byte>, its: seq<Item>, it: Item, rest: seq<bool>, more: seq<bool>)
    requires |past| >= WSIZE && ItemsOk(ll, dl, its) && ItemOk(ll, dl, it) && rest == ItemBits(ll, dl, it) + more
    ensures ItemsOk(ll, dl, its + [it]) && ItemsBits(ll, dl, its) + rest == ItemsBits(ll, dl, its + [it]) + more
    ensures
      var now := Feed(ll, dl, past, its);
      Applies(now, TokenOf(it)) && Feed(ll, dl, past, its + [it]) == Apply(now, TokenOf(it))
    ensures |more| < |rest|
  {
    hide ItemOk, ItemBits, TokenOf;
    ItemsAppend(ll, dl, its, it);
    Associative(ItemsBits(ll, dl, its), ItemBits(ll, dl, it), more);
    assert (its + [it])[..|its|] == its;
    TokenFits(ll, dl, it, Feed(ll, dl, past, its));
    ItemNotEmpty(ll, dl, it);
  }

  lemma ItemNotEmpty(ll: seq<nat>, dl: seq<nat>, it: Item)
    requires ItemOk(ll, dl, it)
    ensures |ItemBits(ll, dl, it)| > 0
  {
  }

  lemma InvalidFrom(ll: seq<nat>, dl: seq<nat>, g: nat, h: nat, x: seq<bool>, lsym: nat, lx: nat, r: seq<bool>)
    requires 257 <= lsym < 286 && HasCode(ll, lsym) && lx < Pow2(CPLEXT[lsym - 257])
    requires x == LengthBits(ll, lsym, lx) + r && NoSuch(dl, h, 30, r)
    ensures Invalid(ll, dl, g, h, x)
  {
    assert InvalidDist(ll, dl, h, x, lsym, lx, r);
  }

  datatype Found = TooFew | NoCode | Symbol(e: nat, n: nat)

  /** What is next in a block: its end, a token, or a reason to stop. */
  datatype Next = EndOfBlock | InvalidCode | EndOfInput | Give(t: Token<Byte>)

  /** Code lengths, and what the symbols stand for. */
  datatype Tree = Tree(b: seq<nat>, s: nat, d: seq<nat>, e: seq<nat>) {
    /** The tables decode this code, and the root table has `bits` bits. */
    ghost predicate Reads(tables: Pool, bits: nat) {
      && |tables| > 0 && tables[0].bits == bits && Shaped(tables) && Fair(b, Span(b))
      && forall x: seq<bool> :: |x| == Span(b) ==> Decoded(tables, b, s, d, e, x) && Walk(tables, 0, 0, x).Got?
    }

    /** Only symbols from `limit` on are marked as invalid. */
    ghost predicate Marks(limit: nat) {
      forall sym: nat :: sym < limit ==> Operation(s, e, sym) != 99
    }
  }

  lemma HasTables(tree: Tree, tables: Pool, bits: nat)
    requires tree.Reads(tables, bits)
    ensures |tables| > 0
  {
  }

  lemma NoneMeant(tables: Pool, bits: nat, tree: Tree, limit: nat, x: seq<bool>, n: nat, used: nat)
    requires tree.Reads(tables, bits) && tree.Marks(limit)
    requires Walk(tables, 0, 0, Padded(x, Span(tree.b))) == Got(99, n, used)
    ensures NoSuch(tree.b, Span(tree.b), limit, x)
  {
    hide Walk, Padded, Starts, Shaped, Fair;
    var y := Padded(x, Span(tree.b));
    assert Decoded(tables, tree.b, tree.s, tree.d, tree.e, y);
  }

  lemma SymbolMeant(tables: Pool, bits: nat, tree: Tree, x: seq<bool>, e: nat, n: nat, used: nat) returns (sym: nat)
    requires tree.Reads(tables, bits) && Walk(tables, 0, 0, Padded(x, Span(tree.b))) == Got(e, n, used) && e != 99
    requires used <= |x|
    ensures HasCode(tree.b, sym) && x == CodeBits(tree.b, sym) + x[used..]
    ensures e == Operation(tree.s, tree.e, sym) && n == Value(tree.s, tree.d, sym)
  {
    hide Walk, Padded, CodeBits, Shaped, Fair;
    var y := Padded(x, Span(tree.b));
    assert Decoded(tables, tree.b, tree.s, tree.d, tree.e, y);
    sym :| Starts(tree.b, sym, y);
    PaddedStarts(x, Span(tree.b), CodeBits(tree.b, sym));
  }

  lemma PaddedStarts(x: seq<bool>, g: nat, c: seq<bool>)
    requires c <= Padded(x, g) && |c| <= |x|
    ensures x == c + x[|c|..]
  {
  }

  lemma WalkStep(p: Pool, t: nat, w: nat, x: seq<bool>)
    requires Shaped(p) && t < |p| && Walk(p, t, w, x).Got?
    ensures
      && w + p[t].bits <= |x|
      && var i := FromBits(x[w..w + p[t].bits]);
      && i < |p[t].entries|
      && match p[t].entries[i]
         case Unset => false
         case Leaf(e, b, n) => b <= p[t].bits && Walk(p, t, w, x) == Got(e, n, w + b)
         case Link(b, bits, to) =>
           && b == p[t].bits && t < to < |p| && 1 <= bits == p[to].bits
           && Walk(p, t, w, x) == Walk(p, to, w + b, x)
  {
    hide FromBits;
    var i := FromBits(x[w..w + p[t].bits]);
    assert EntryShaped(p, t, p[t].entries[i]);
  }

  lemma DropTwice(s: seq<bool>, w: nat, b: nat)
    requires w <= |s| && b <= |s[w..]|
    ensures s[w..][b..] == s[w + b..]
  {
  }

  lemma PaddedPart(s: seq<bool>, g: nat, w: nat, b: nat)
    requires w + b <= g && w + b <= |s|
    ensures Padded(s, g)[w..w + b] == s[w..][..b]
  {
  }

  // ----- a stored block reads back

  lemma StoredHeaderRead(len: nat, r: seq<bool>)
    requires len < 0x10000
    ensures
      var s := StoredHeader(len) + r;
      |s| == 32 + |r| && FromBits(s[..16]) == len && FromBits(s[16..32]) == 0xFFFF - len && s[32..] == r
  {
    hide ToBits, FromBits, Pow2;
    AndMask(len, 16);
    Pow2Values();
    FromTo(len, 16);
    FromTo(0xFFFF - len, 16);
    var a, b := ToBits(len, 16), ToBits(0xFFFF - len, 16);
    var s := (a + b) + r;
    assert s[..16] == a && s[16..32] == b;
  }

  lemma StoredStream(sent: seq<bool>, zeros: seq<bool>, header: seq<bool>, bytes: seq<bool>)
    ensures sent + zeros + header + bytes == sent + (zeros + (header + bytes))
  {
  }

  lemma PaddingSmall(n: nat)
    ensures Padding(n) < 8
  {
  }

  lemma {:induction false} SameBytes(a: seq<Byte>, b: seq<Byte>, rest: seq<bool>)
    requires |a| == |b| && ByteBits(b) == ByteBits(a) + rest
    ensures a == b
  {
    if a != [] {
      hide ToBits;
      var x, y := ToBits(a[0], 8), ToBits(b[0], 8);
      Associative(x, ByteBits(a[1..]), rest);
      Parts(x, ByteBits(a[1..]) + rest, ByteBits(b));
      Parts(y, ByteBits(b[1..]), ByteBits(b));
      Pow2Values();
      FromTo(a[0], 8);
      FromTo(b[0], 8);
      SameBytes(a[1..], b[1..], rest);
    }
  }

  /** Fields, and then a stored block. */
  method WriteStored(fields: seq<Field>, buf: seq<Byte>) returns (bytes: seq<Byte>)
    requires forall f :: f in fields ==> f.Fits()
    ensures ByteBits(bytes)
         == FieldBits(fields) + (Zeros(Padding(|FieldBits(fields)|)) + (StoredHeader(|buf|) + ByteBits(buf)))
  {
    hide ToBits, ByteBits, Pow2, FieldBits, Padding, Zeros, StoredHeader;
    var w := new Writer();
    w.SendAll(fields);
    assert w.Sent() == FieldBits(fields);
    w.CopyBlock(buf, true);
    BitWriter.NoBits(ByteBits(w.out));
    ghost var sent := FieldBits(fields);
    StoredStream(sent, Zeros(Padding(|sent|)), StoredHeader(|buf|), ByteBits(buf));
    bytes := w.out;
  }

  /** After any fields, what copy_block stores is what inflate_stored recovers. */
  method StoredRoundTrip(fields: seq<Field>, lengths: seq<nat>, buf: seq<Byte>, slide: array<Byte>)
    returns (res: Result, out: seq<Byte>)
    requires |lengths| == |fields| && |buf| < 0x10000 && slide.Length == WSIZE
    requires forall i :: 0 <= i < |fields| ==> fields[i].Fits() && lengths[i] == fields[i].length
    modifies slide
    ensures res == Code(0) && out == buf
  {
    hide ToBits, FromBits, ByteBits, Pow2, FieldBits, Padding, Zeros, StoredHeader;
    var bytes := WriteStored(fields, buf);
    var r := new Reader(bytes);
    ghost var n := |FieldBits(fields)|;
    ghost var rest := Zeros(Padding(n)) + (StoredHeader(|buf|) + ByteBits(buf));
    var values := ReadAll(r, lengths, fields, rest);
    PaddingSmall(n);
    res, out := Recover(r, Zeros(Padding(n)), buf, slide);
  }

  lemma AfterPad(pad: seq<bool>, block: seq<bool>, n: nat)
    requires |pad| < 8 && |block| == 8 * n
    ensures (pad + block)[|pad + block| % 8..] == block
  {
  }

  method Recover(r: Reader, ghost pad: seq<bool>, ghost buf: seq<Byte>, slide: array<Byte>)
    returns (res: Result, out: seq<Byte>)
    requires r.Valid() && |buf| < 0x10000 && slide.Length == WSIZE
    requires |pad| < 8 && r.Stream() == pad + (StoredHeader(|buf|) + ByteBits(buf))
    modifies slide, r
    ensures res == Code(0) && out == buf
  {
    hide Reader.Valid, Reader.Stream, ToBits, FromBits, ByteBits, Pow2, StoredHeader, Holds;
    ghost var block := StoredHeader(|buf|) + ByteBits(buf);
    StoredHeaderRead(|buf|, ByteBits(buf));
    AfterPad(pad, block, 4 + |buf|);
    var win := new Window(slide);
    var f := new Inflater(r, win);
    ghost var got;
    res, got := f.InflateStored();
    SameBytes(got, buf, r.Stream());
    win.FlushRest();
    out := win.flushed;
  }
}
