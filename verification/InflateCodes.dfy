/** Reading codes bit by bit: no code is the start of another one. */
module PrefixCode {
  import opened BitIo
  import opened Huffman
  import opened HuftCode
  import opened HuftFront

  /** The lengths are at most g and not oversubscribed. */
  ghost predicate Fair(b: seq<nat>, g: nat) {
    1 <= g <= BMAX && (forall i :: 0 <= i < |b| ==> b[i] <= g) && Kraft(b, g) <= Pow2(g)
  }

  lemma StartsAt(b: seq<nat>, g: nat, s: nat, x: seq<bool>)
    requires Fair(b, g) && Starts(b, s, x)
    ensures b[s] <= |x| && Msb(x[..b[s]]) == CodeOf(b, s) < FirstCode(b, b[s]) + Count(b, b[s])
  {
    hide Msb, Count, FirstCode, Kraft, Pow2;
    assert x[..b[s]] == CodeBits(b, s);
    KraftExceeds(b, b[s], g);
    CodeFits(b, s);
    CountBefore(b, s, |b|);
    assert b[..|b|] == b;
  }

  lemma NotShorter(b: seq<nat>, g: nat, s: nat, s': nat, x: seq<bool>)
    requires Fair(b, g) && Starts(b, s, x) && Starts(b, s', x)
    ensures b[s] >= b[s']
  {
    hide Msb, Count, FirstCode, Kraft, Pow2;
    StartsAt(b, g, s, x);
    StartsAt(b, g, s', x);
    if b[s] < b[s'] {
      var c := seq(g + 1, (k: nat) => Count(b, k));
      FirstIs(b, c, g, b[s]);
      FirstIs(b, c, g, b[s']);
      PastShorter(c, x, b[s], b[s']);
    }
  }

  /** No code is the start of another one. */
  lemma StartsUnique(b: seq<nat>, g: nat, s: nat, s': nat, x: seq<bool>)
    requires Fair(b, g) && Starts(b, s, x) && Starts(b, s', x)
    ensures s == s'
  {
    hide Msb, Count, FirstCode, Kraft, Pow2;
    NotShorter(b, g, s, s', x);
    NotShorter(b, g, s', s, x);
    StartsAt(b, g, s, x);
    StartsAt(b, g, s', x);
    NthUnique(b, b[s], Count(b[..s], b[s]), s, s');
  }
}

/** The codes of a block, item by item. */
module InflateItems {
  import opened BitIo
  import opened Huffman
  import opened HuftFront
  import opened InflateSpec
  import opened PrefixCode

  /** s starts with a and goes on with b. */
  lemma Parts(a: seq<bool>, b: seq<bool>, s: seq<bool>)
    requires s == a + b
    ensures a <= s && s[|a|..] == b && s[..|a|] == a
  {
  }

  /** Two bit strings that start with codes: the same code, and then the same rest. */
  lemma SameCode(b: seq<nat>, g: nat, s: nat, s': nat, r: seq<bool>, r': seq<bool>)
    requires Fair(b, g) && HasCode(b, s) && HasCode(b, s') && CodeBits(b, s) + r == CodeBits(b, s') + r'
    ensures s == s' && r == r'
  {
    hide CodeBits;
    var x := CodeBits(b, s) + r;
    Parts(CodeBits(b, s), r, x);
    Parts(CodeBits(b, s'), r', x);
    StartsUnique(b, g, s, s', x);
  }

  lemma SameExtra(n: nat, v: nat, v': nat, r: seq<bool>, r': seq<bool>)
    requires v < Pow2(n) && v' < Pow2(n) && ToBits(v, n) + r == ToBits(v', n) + r'
    ensures v == v' && r == r'
  {
    hide ToBits, Pow2;
    var x := ToBits(v, n) + r;
    Parts(ToBits(v, n), r, x);
    Parts(ToBits(v', n), r', x);
    FromTo(v, n);
    FromTo(v', n);
  }

  /** The symbol with which an item starts. */
  function Head(it: Item): nat { if it.Lit? then it.sym else it.lsym }

  /** The bits of an item behind its first code. */
  function Rest(dl: seq<nat>, it: Item): seq<bool>
    requires it.Copy? ==> 257 <= it.lsym < 286 && it.dsym < 30 && HasCode(dl, it.dsym)
  {
    if it.Lit? then [] else ToBits(it.lx, CPLEXT[it.lsym - 257]) + DistBits(dl, it.dsym, it.dx)
  }

  lemma HeadRest(ll: seq<nat>, dl: seq<nat>, it: Item, r: seq<bool>)
    requires ItemOk(ll, dl, it)
    ensures ItemBits(ll, dl, it) + r == CodeBits(ll, Head(it)) + (Rest(dl, it) + r)
  {
    hide CodeBits, ToBits, Pow2, DistBits;
    match it
    case Lit(_) => assert [] + r == r;
    case Copy(lsym, lx, dsym, dx) =>
      Regroup(CodeBits(ll, lsym), ToBits(lx, CPLEXT[lsym - 257]), DistBits(dl, dsym, dx), r);
  }

  lemma Regroup(a: seq<bool>, b: seq<bool>, c: seq<bool>, r: seq<bool>)
    ensures ((a + b) + c) + r == a + ((b + c) + r)
  {
  }

  lemma SameItem(ll: seq<nat>, dl: seq<nat>, g: nat, h: nat, it: Item, it': Item, r: seq<bool>, r': seq<bool>)
    requires Fair(ll, g) && Fair(dl, h) && ItemOk(ll, dl, it) && ItemOk(ll, dl, it')
    requires ItemBits(ll, dl, it) + r == ItemBits(ll, dl, it') + r'
    ensures it == it' && r == r'
  {
    hide CodeBits, ToBits, Pow2, Fair, ItemBits, Rest, DistBits;
    HeadRest(ll, dl, it, r);
    HeadRest(ll, dl, it', r');
    SameCode(ll, g, Head(it), Head(it'), Rest(dl, it) + r, Rest(dl, it') + r');
    if it.Copy? {
      CopyRest(dl, it, r);
      CopyRest(dl, it', r');
      SameExtra(CPLEXT[it.lsym - 257], it.lx, it'.lx,
                DistBits(dl, it.dsym, it.dx) + r, DistBits(dl, it'.dsym, it'.dx) + r');
      SameDist(dl, h, it.dsym, it.dx, it'.dsym, it'.dx, r, r');
    } else {
      LitRest(dl, it, r);
      LitRest(dl, it', r');
    }
  }

  lemma SameDist(dl: seq<nat>, h: nat, s: nat, x: nat, s': nat, x': nat, r: seq<bool>, r': seq<bool>)
    requires Fair(dl, h) && s < 30 && s' < 30 && HasCode(dl, s) && HasCode(dl, s') && x < Pow2(CPDEXT[s])
    requires x' < Pow2(CPDEXT[s'])
    requires DistBits(dl, s, x) + r == DistBits(dl, s', x') + r'
    ensures s == s' && x == x' && r == r'
  {
    hide CodeBits, ToBits, Pow2, Fair;
    Associative(CodeBits(dl, s), ToBits(x, CPDEXT[s]), r);
    Associative(CodeBits(dl, s'), ToBits(x', CPDEXT[s']), r');
    SameCode(dl, h, s, s', ToBits(x, CPDEXT[s]) + r, ToBits(x', CPDEXT[s']) + r');
    SameExtra(CPDEXT[s], x, x', r, r');
  }

  lemma LitRest(dl: seq<nat>, it: Item, r: seq<bool>)
    requires it.Lit?
    ensures Rest(dl, it) + r == r
  {
  }

  lemma CopyRest(dl: seq<nat>, it: Item, r: seq<bool>)
    requires it.Copy? && 257 <= it.lsym < 286 && it.dsym < 30 && HasCode(dl, it.dsym)
    ensures Rest(dl, it) + r == ToBits(it.lx, CPLEXT[it.lsym - 257]) + (DistBits(dl, it.dsym, it.dx) + r)
  {
    hide ToBits, DistBits;
  }

  // ----- where reading stops

  /** The next n bits, with zeros behind the end. */
  function Padded(x: seq<bool>, n: nat): (y: seq<bool>)
    ensures |y| == n
  {
    if n <= |x| then x[..n] else x + Zeros(n - |x|)
  }

  /** No symbol below `limit` has a code with which x starts. */
  ghost predicate NoSuch(b: seq<nat>, g: nat, limit: nat, x: seq<bool>) {
    forall s: nat :: Starts(b, s, Padded(x, g)) ==> s >= limit
  }

  /** x starts with no valid code, or with a length and then no valid distance code. */
  ghost predicate Invalid(ll: seq<nat>, dl: seq<nat>, g: nat, h: nat, x: seq<bool>) {
    || NoSuch(ll, g, 286, x)
    || exists lsym: nat, lx: nat, r: seq<bool> :: InvalidDist(ll, dl, h, x, lsym, lx, r)
  }

  ghost predicate InvalidDist(ll: seq<nat>, dl: seq<nat>, h: nat, x: seq<bool>, lsym: nat, lx: nat, r: seq<bool>) {
    && 257 <= lsym < 286 && HasCode(ll, lsym) && lx < Pow2(CPLEXT[lsym - 257])
    && x == LengthBits(ll, lsym, lx) + r && NoSuch(dl, h, 30, r)
  }

  /** x ends within an item: fewer bits than a look-up may need, or fewer extra bits than a symbol has. */
  ghost predicate RunsOut(ll: seq<nat>, dl: seq<nat>, g: nat, h: nat, x: seq<bool>) {
    || |x| < g
    || (exists lsym: nat, r: seq<bool> :: ShortLength(ll, x, lsym, r))
    || (exists lsym: nat, lx: nat, r: seq<bool> :: ShortDist(ll, dl, h, x, lsym, lx, r))
  }

  ghost predicate ShortLength(ll: seq<nat>, x: seq<bool>, lsym: nat, r: seq<bool>) {
    257 <= lsym < 286 && HasCode(ll, lsym) && x == CodeBits(ll, lsym) + r && |r| < CPLEXT[lsym - 257]
  }

  ghost predicate ShortDist(ll: seq<nat>, dl: seq<nat>, h: nat, x: seq<bool>, lsym: nat, lx: nat, r: seq<bool>) {
    && 257 <= lsym < 286 && HasCode(ll, lsym) && lx < Pow2(CPLEXT[lsym - 257])
    && x == LengthBits(ll, lsym, lx) + r && NoDist(dl, h, r)
  }

  ghost predicate NoDist(dl: seq<nat>, h: nat, r: seq<bool>) {
    |r| < h || exists dsym: nat, r': seq<bool> :: ShortExtra(dl, r, dsym, r')
  }

  ghost predicate ShortExtra(dl: seq<nat>, r: seq<bool>, dsym: nat, r': seq<bool>) {
    dsym < 30 && HasCode(dl, dsym) && r == CodeBits(dl, dsym) + r' && |r'| < CPDEXT[dsym]
  }

  datatype Stop = End | BadCode | TooShort

  /** Why reading stops in front of x. */
  ghost predicate StopsAt(ll: seq<nat>, dl: seq<nat>, g: nat, h: nat, x: seq<bool>, why: Stop) {
    match why
    case End => Starts(ll, END_BLOCK, x)
    case BadCode => Invalid(ll, dl, g, h, x)
    case TooShort => RunsOut(ll, dl, g, h, x)
  }

  lemma StartsPadded(b: seq<nat>, g: nat, s: nat, x: seq<bool>)
    requires (forall i :: 0 <= i < |b| ==> b[i] <= g) && Starts(b, s, x)
    ensures Starts(b, s, Padded(x, g))
  {
    hide CodeBits;
  }

  lemma CodeStarts(b: seq<nat>, s: nat, r: seq<bool>)
    requires HasCode(b, s)
    ensures Starts(b, s, CodeBits(b, s) + r)
  {
    hide CodeBits;
  }

  lemma GoesOnLit(ll: seq<nat>, dl: seq<nat>, g: nat, h: nat, s: nat, r: seq<bool>)
    requires Fair(ll, g) && Fair(dl, h) && HasCode(ll, s) && s <= 256
    ensures !Invalid(ll, dl, g, h, CodeBits(ll, s) + r)
    ensures |r| >= g ==> !RunsOut(ll, dl, g, h, CodeBits(ll, s) + r)
  {
    hide CodeBits, ToBits, Pow2, Padded, NoSuch, NoDist;
    var x := CodeBits(ll, s) + r;
    CodeStarts(ll, s, r);
    StartsPadded(ll, g, s, x);
    SuchIs(ll, g, 286, s, x);
    forall lsym: nat, lx: nat, r': seq<bool>
      | 257 <= lsym < 286 && HasCode(ll, lsym) && x == LengthBits(ll, lsym, lx) + r'
      ensures false
    {
      Associative(CodeBits(ll, lsym), ToBits(lx, CPLEXT[lsym - 257]), r');
      SameCode(ll, g, s, lsym, r, ToBits(lx, CPLEXT[lsym - 257]) + r');
    }
    forall lsym: nat, r': seq<bool> | ShortLength(ll, x, lsym, r')
      ensures false
    {
      SameCode(ll, g, s, lsym, r, r');
    }
  }

  lemma SuchIs(b: seq<nat>, g: nat, limit: nat, s: nat, x: seq<bool>)
    requires Starts(b, s, Padded(x, g)) && s < limit
    ensures !NoSuch(b, g, limit, x)
  {
    hide CodeBits, Padded;
  }

  lemma GoesOnCopy(ll: seq<nat>, dl: seq<nat>, g: nat, h: nat, it: Item, r: seq<bool>)
    requires Fair(ll, g) && Fair(dl, h) && ItemOk(ll, dl, it) && it.Copy?
    ensures !Invalid(ll, dl, g, h, ItemBits(ll, dl, it) + r)
    ensures |r| >= g && |r| >= h ==> !RunsOut(ll, dl, g, h, ItemBits(ll, dl, it) + r)
  {
    hide CodeBits, ToBits, Pow2, Padded, DistBits, Fair, Rest, NoSuch, NoDist, LengthBits, ItemBits;
    var x := ItemBits(ll, dl, it) + r;
    var more := DistBits(dl, it.dsym, it.dx) + r;
    HeadRest(ll, dl, it, r);
    CopyRest(dl, it, r);
    CodeStarts(ll, it.lsym, Rest(dl, it) + r);
    FairBound(ll, g);
    StartsPadded(ll, g, it.lsym, x);
    SuchIs(ll, g, 286, it.lsym, x);
    DistGoesOn(dl, h, it.dsym, it.dx, r);
    forall lsym: nat, lx: nat, r': seq<bool>
      | 257 <= lsym < 286 && HasCode(ll, lsym) && lx < Pow2(CPLEXT[lsym - 257]) && x == LengthBits(ll, lsym, lx) + r'
      ensures r' == more
    {
      SameLength(ll, g, it.lsym, it.lx, more, lsym, lx, r');
    }
    forall lsym: nat, r': seq<bool> | ShortLength(ll, x, lsym, r')
      ensures false
    {
      SameCode(ll, g, it.lsym, lsym, Rest(dl, it) + r, r');
    }
  }

  lemma SameLength(ll: seq<nat>, g: nat, s: nat, x: nat, r: seq<bool>, s': nat, x': nat, r': seq<bool>)
    requires Fair(ll, g) && 257 <= s < 286 && 257 <= s' < 286 && HasCode(ll, s) && HasCode(ll, s')
    requires x < Pow2(CPLEXT[s - 257]) && x' < Pow2(CPLEXT[s' - 257])
    requires CodeBits(ll, s) + (ToBits(x, CPLEXT[s - 257]) + r) == LengthBits(ll, s', x') + r'
    ensures r == r'
  {
    hide CodeBits, ToBits, Pow2, Fair;
    Associative(CodeBits(ll, s'), ToBits(x', CPLEXT[s' - 257]), r');
    SameCode(ll, g, s, s', ToBits(x, CPLEXT[s - 257]) + r, ToBits(x', CPLEXT[s' - 257]) + r');
    SameExtra(CPLEXT[s - 257], x, x', r, r');
  }

  lemma FairBound(b: seq<nat>, g: nat)
    requires Fair(b, g)
    ensures g <= 16 && forall i :: 0 <= i < |b| ==> b[i] <= g
  {
  }

  lemma DistGoesOn(dl: seq<nat>, h: nat, s: nat, x: nat, r: seq<bool>)
    requires Fair(dl, h) && s < 30 && HasCode(dl, s)
    ensures !NoSuch(dl, h, 30, DistBits(dl, s, x) + r)
    ensures |r| >= h ==> !NoDist(dl, h, DistBits(dl, s, x) + r)
  {
    hide CodeBits, ToBits, Padded, Fair, NoSuch;
    FairBound(dl, h);
    var more := ToBits(x, CPDEXT[s]) + r;
    Associative(CodeBits(dl, s), ToBits(x, CPDEXT[s]), r);
    CodeStarts(dl, s, more);
    StartsPadded(dl, h, s, DistBits(dl, s, x) + r);
    SuchIs(dl, h, 30, s, DistBits(dl, s, x) + r);
    forall dsym: nat, r': seq<bool> | ShortExtra(dl, DistBits(dl, s, x) + r, dsym, r')
      ensures false
    {
      SameCode(dl, h, s, dsym, more, r');
    }
  }

  lemma ItemIsNoEnd(ll: seq<nat>, dl: seq<nat>, g: nat, it: Item, r: seq<bool>)
    requires Fair(ll, g) && ItemOk(ll, dl, it)
    ensures !Starts(ll, END_BLOCK, ItemBits(ll, dl, it) + r)
  {
    hide CodeBits, ToBits, Pow2, Fair, Rest, ItemOk, ItemBits;
    HeadRest(ll, dl, it, r);
    HeadHasCode(ll, dl, it);
    CodeStarts(ll, Head(it), Rest(dl, it) + r);
    if Starts(ll, END_BLOCK, ItemBits(ll, dl, it) + r) {
      StartsUnique(ll, g, END_BLOCK, Head(it), ItemBits(ll, dl, it) + r);
    }
  }

  /** In front of an item with enough bits behind it, reading does not stop. */
  lemma ItemGoesOn(ll: seq<nat>, dl: seq<nat>, g: nat, h: nat, it: Item, r: seq<bool>, why: Stop)
    requires Fair(ll, g) && Fair(dl, h) && ItemOk(ll, dl, it) && |r| >= g && |r| >= h && HasCode(ll, END_BLOCK)
    ensures !StopsAt(ll, dl, g, h, ItemBits(ll, dl, it) + r, why)
  {
    hide CodeBits, ToBits, Pow2, Fair, Rest, Invalid, RunsOut;
    ItemIsNoEnd(ll, dl, g, it, r);
    if it.Lit? {
      GoesOnLit(ll, dl, g, h, it.sym, r);
    } else {
      GoesOnCopy(ll, dl, g, h, it, r);
    }
  }

  /** What has been read is determined by the bits, if they are a block with enough bits behind it. */
  lemma {:induction false} BlockUnique(ll: seq<nat>, dl: seq<nat>, g: nat, h: nat, its: seq<Item>, tail: seq<bool>,
                                       its': seq<Item>, rest: seq<bool>, why: Stop)
    requires Fair(ll, g) && Fair(dl, h) && HasCode(ll, END_BLOCK) && ItemsOk(ll, dl, its) && ItemsOk(ll, dl, its')
    requires (|tail| >= g && |tail| >= h) || why == End
    requires ItemsBits(ll, dl, its) + (CodeBits(ll, END_BLOCK) + tail) == ItemsBits(ll, dl, its') + rest
    requires StopsAt(ll, dl, g, h, rest, why)
    ensures its == its' && rest == CodeBits(ll, END_BLOCK) + tail && why == End
    decreases |its|
  {
    hide CodeBits, ToBits, Pow2, Fair, Rest, Invalid, RunsOut, ItemOk, ItemBits;
    var end := CodeBits(ll, END_BLOCK) + tail;
    if its == [] {
      assert [] + end == end;
      if its' == [] {
        assert [] + rest == rest;
        if why != End {
          GoesOnLit(ll, dl, g, h, END_BLOCK, tail);
        }
      } else {
        var more := ItemsBits(ll, dl, its'[1..]) + rest;
        Associative(ItemBits(ll, dl, its'[0]), ItemsBits(ll, dl, its'[1..]), rest);
        HeadRest(ll, dl, its'[0], more);
        HeadHasCode(ll, dl, its'[0]);
        SameCode(ll, g, END_BLOCK, Head(its'[0]), tail, Rest(dl, its'[0]) + more);
      }
    } else {
      var more := ItemsBits(ll, dl, its[1..]) + end;
      Associative(ItemBits(ll, dl, its[0]), ItemsBits(ll, dl, its[1..]), end);
      if its' == [] {
        assert [] + rest == rest;
        if why == End {
          ItemIsNoEnd(ll, dl, g, its[0], more);
        } else {
          ItemGoesOn(ll, dl, g, h, its[0], more, why);
        }
      } else {
        var more' := ItemsBits(ll, dl, its'[1..]) + rest;
        Associative(ItemBits(ll, dl, its'[0]), ItemsBits(ll, dl, its'[1..]), rest);
        SameItem(ll, dl, g, h, its[0], its'[0], more, more');
        BlockUnique(ll, dl, g, h, its[1..], tail, its'[1..], rest, why);
      }
    }
  }

  lemma HeadHasCode(ll: seq<nat>, dl: seq<nat>, it: Item)
    requires ItemOk(ll, dl, it)
    ensures HasCode(ll, Head(it)) && Head(it) != END_BLOCK
    ensures it.Copy? ==> 257 <= it.lsym < 286 && it.dsym < 30 && HasCode(dl, it.dsym)
  {
  }
}
