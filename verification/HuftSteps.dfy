/** The steps of the main loop of huft_build, and what they keep. */
module HuftSteps {
  import opened BitIo
  import opened HuftCode
  import opened HuftTable
  import opened HuftBuild

  lemma {:induction false} StackDepth(p: Pool, pre: seq<seq<bool>>, u: seq<nat>, l: nat, n: nat)
    requires Stacked(p, pre, u, l) && n < |u|
    ensures |pre[u[n]]| == Depth(l, n)
  {
    if n > 0 {
      StackDepth(p, pre, u, l, n - 1);
      assert NextOnStack(p, pre, u, l, n - 1);
    }
  }

  /** A block that starts with a code too long for a table of l bits. */
  lemma GapHere(c: seq<nat>, g: nat, l: nat, code: seq<bool>, w: nat, n: nat)
    requires 1 <= |code| <= g < |c| && n >= 1 && l >= 1 && w == Depth(l, n) && w + l < |code|
    requires First(c, |code|) <= Msb(code) && AllZero(code[w..])
    ensures !NoGap(c, g, l)
  {
    hide Msb, Pow2, First, Upto, FromBits, AllZero;
    var k := |code|;
    assert code[..k] == code;
    assert AllZero(code[w..][..l]) by { ZerosPart(code[w..], l); }
    PastShorter(c, code, w + l, k);
    var top := code[..w + l];
    assert top[..w] == code[..w] && top[w..] == code[w..][..l];
    BlockStart(top, w);
    Pow2Add(w, l);
    BlocksLeft(Msb(top[..w]), Pow2(w), Pow2(l), Upto(c, w + l));
    assert !Roomy(c, l, Depth(l, n));
  }

  lemma ZerosPart(s: seq<bool>, n: nat)
    requires AllZero(s) && n <= |s|
    ensures AllZero(s[..n])
  {
  }

  lemma BlocksLeft(b: nat, blocks: nat, size: nat, u: nat)
    requires b < blocks && u <= b * size
    ensures u + size <= blocks * size
  {
    Multiples(size, b + 1, blocks);
    OneMore(b, size);
  }

  /** A block that starts with a code that a table of l bits can hold. */
  lemma EarlyHere(c: seq<nat>, g: nat, l: nat, code: seq<bool>, w: nat)
    requires 1 <= |code| <= g < |c| && l >= 1 && w <= |code| <= w + l
    requires Msb(code) < Upto(c, |code|) && AllZero(code[w..])
    ensures Early(c, g, l, code[..w])
  {
    hide Msb, Pow2, First, FromBits;
    if w + l < g {
      UptoReaches(c, |code|, w + l, Msb(code));
      BlockStart(code, w);
      Pow2Add(|code| - w, w + l - |code|);
      Associate(Msb(code[..w]), Pow2(|code| - w), Pow2(w + l - |code|));
    }
  }

  lemma Associate(a: nat, b: nat, c: nat)
    ensures a * b * c == a * (b * c)
  {
  }

  lemma BlockFrom(code: seq<bool>, w: nat, x: seq<bool>)
    requires w <= |code| <= |x| && AllZero(code[w..]) && code[..w] <= x
    ensures Msb(code) <= Msb(x[..|code|])
  {
    hide Msb, Pow2, FromBits, AllZero;
    BlockStart(code, w);
    InBlock(x, w, |code|);
    assert x[..w] == code[..w];
  }

  /** Opening a table changes nothing for the bit strings before the current code. */
  lemma OpenKeeps(p: Pool, p': Pool, pre: seq<seq<bool>>, l: nat, q: nat, code: seq<bool>, w: nat, x: seq<bool>)
    requires Linked(p, pre, l) && q < |p| <= |p'| && pre[0] == [] && w <= |code| <= |x| && pre[q] <= code[..w]
    requires AllZero(code[w..]) && Msb(x[..|code|]) < Msb(code)
    requires ChangedAt(p, p', q, code[..w][|pre[q]|..])
    ensures Walk(p', 0, 0, x) == Walk(p, 0, 0, x)
  {
    hide Msb, Walk, AllZero, LinkOk, ChangedAt, Pow2;
    if code[..w] <= x {
      BlockFrom(code, w, x);
    } else {
      var tail := code[..w][|pre[q]|..];
      assert pre[q] + tail == code[..w];
      WalkKeeps(p, p', pre, l, q, tail, 0, x);
    }
  }

  // ----- opening a table below another one

  /** st' has a new table of j bits for the first w' bits of the code. */
  ghost predicate Opened(st: State, st': State, pre: seq<seq<bool>>, c: seq<nat>, g: nat, l: nat, code: seq<bool>,
                         j: nat)
    requires g < |c|
  {
    && OnStack(st, pre, c, g, l, code) && |code| > st.w + l && |code| <= g && l >= 1
    && First(c, |code|) <= Msb(code) < Upto(c, |code|)
    && var q, w' := st.u[|st.u| - 1], st.w + l;
    && st.tables[q].bits >= l && |code| - w' <= j && (j > l ==> j == |code| - w')
    && FromBits(code[st.w..w']) < |st.tables[q].entries|
    && st'.tables == Grown(st.tables, q, l, FromBits(code[st.w..w']), j) && st'.u == st.u + [|st.tables|]
  }

  lemma OpenedFacts(st: State, pre: seq<seq<bool>>, c: seq<nat>, g: nat, l: nat, code: seq<bool>)
    requires g < |c| && OnStack(st, pre, c, g, l, code) && |code| > st.w + l
    ensures
      var q := st.u[|st.u| - 1];
      && Linked(st.tables, pre, l) && Stacked(st.tables, pre, st.u, l) && q < |st.tables| == |pre| && pre[0] == []
      && |pre[q]| == st.w && pre[q] <= code && pre[q] <= code[..st.w + l] && AllZero(code[st.w + l..])
  {
  }

  lemma OpenedChange(st: State, st': State, pre: seq<seq<bool>>, c: seq<nat>, g: nat, l: nat, code: seq<bool>, j: nat)
    requires g < |c| && Opened(st, st', pre, c, g, l, code, j)
    ensures Linked(st'.tables, pre + [code[..st.w + l]], l) && Stacked(st'.tables, pre + [code[..st.w + l]], st'.u, l)
    ensures forall x: seq<bool> :: |x| == g && Msb(x[..|code|]) < Msb(code) ==>
      Walk(st'.tables, 0, 0, x) == Walk(st.tables, 0, 0, x)
    ensures AllZero(code[st.w + l..])
  {
    hide Msb, Pow2, FromBits, First, Walk, ChangedAt, AllZero, Linked, Stacked, StackOk, Upto;
    OpenedFacts(st, pre, c, g, l, code);
    var q, w' := st.u[|st.u| - 1], st.w + l;
    var pfx := code[..w'];
    assert pfx[st.w..] == code[st.w..w'];
    GrownLinked(st.tables, pre, l, q, j, pfx);
    GrownStacked(st.tables, pre, st.u, l, j, pfx);
    forall x: seq<bool> | |x| == g && Msb(x[..|code|]) < Msb(code)
      ensures Walk(st'.tables, 0, 0, x) == Walk(st.tables, 0, 0, x)
    {
      OpenKeeps(st.tables, st'.tables, pre, l, q, code, w', x);
    }
  }

  lemma OpenFine(st: State, st': State, pre: seq<seq<bool>>, c: seq<nat>, g: nat, l: nat, book: Book, code: seq<bool>,
                 j: nat)
    returns (mode': Mode)
    requires g < |c| && book.Valid() && Opened(st, st', pre, c, g, l, code, j)
    requires ModeOk(st, pre, c, g, l, book, |code|, Msb(code), Fine)
    ensures ModeOk(st', pre + [code[..st.w + l]], c, g, l, book, |code|, Msb(code), mode')
  {
    hide Msb, Pow2, FromBits, Linked, NextOnStack, First, Walk, Sized, AllZero, Upto, Expected, NoGap, Early;
    var w', k := st.w + l, |code|;
    var pre' := pre + [code[..w']];
    OpenedChange(st, st', pre, c, g, l, code, j);
    if j <= l {
      mode' := Fine;
      EarlyHere(c, g, l, code, w');
    } else {
      mode' := Wide(|st.u|);
      StackDepth(st'.tables, pre', st'.u, l, |st.u|);
      GapHere(c, g, l, code, w', |st.u|);
      SlimStack(st.tables, pre, st.u, l);
    }
  }

  lemma SlimStack(p: Pool, pre: seq<seq<bool>>, u: seq<nat>, l: nat)
    requires Stacked(p, pre, u, l) && forall t :: 0 <= t < |p| ==> p[t].bits <= l
    ensures Slim(p, u, l, |u| - 1)
  {
    hide FromBits, Pow2;
    forall s | 0 <= s < |u| - 1
      ensures p[u[s]].bits == l
    {
      assert NextOnStack(p, pre, u, l, s);
    }
  }

  lemma GrownHigh(p: Pool, q: nat, l: nat, tail: seq<bool>, j: nat, t: nat)
    requires q < |p| && |tail| == l && FromBits(tail) < |p[q].entries| && t < |p| && HighUnset(p[t], l)
    ensures HighUnset(Grown(p, q, l, FromBits(tail), j)[t], l)
  {
    hide FromBits, Pow2;
  }

  lemma GrownSlim(p: Pool, p': Pool, u: seq<nat>, l: nat, n: nat)
    requires Slim(p, u, l, n) && n <= |u| && |p| <= |p'| && forall t :: 0 <= t < |p| ==> p'[t].bits == p[t].bits
    ensures Slim(p', u + [|p|], l, n)
  {
  }

  lemma OpenWide(p: Pool, q: nat, l: nat, tail: seq<bool>, j: nat, st: State, st': State, pre: seq<seq<bool>>,
                 pfx: seq<bool>, k: nat, n: nat)
    requires st.tables == p && q < |p| && |tail| == l && FromBits(tail) < |p[q].entries|
    requires st'.tables == Grown(p, q, l, FromBits(tail), j) && st'.u == st.u + [|p|]
    requires IsWide(st, pre, l, k, n)
    ensures IsWide(st', pre + [pfx], l, k, n)
  {
    hide FromBits, Grown, HighUnset, Slim;
    GrownHigh(p, q, l, tail, j, st.u[n]);
    GrownBits(p, q, l, FromBits(tail), j);
    GrownSlim(p, st'.tables, st.u, l, n);
  }

  lemma OpenMode(st: State, st': State, pre: seq<seq<bool>>, c: seq<nat>, g: nat, l: nat, book: Book, code: seq<bool>,
                 j: nat, mode: Mode)
    returns (mode': Mode)
    requires g < |c| && book.Valid() && Opened(st, st', pre, c, g, l, code, j)
    requires ModeOk(st, pre, c, g, l, book, |code|, Msb(code), mode)
    ensures ModeOk(st', pre + [code[..st.w + l]], c, g, l, book, |code|, Msb(code), mode')
  {
    hide Msb, Pow2, FromBits, Linked, Stacked, First, Walk, Sized, AllZero, Upto, Expected, NoGap, IsWide, Sound;
    match mode
    case Fine =>
      mode' := OpenFine(st, st', pre, c, g, l, book, code, j);
    case Wide(n) =>
      mode' := mode;
      OpenedFacts(st, pre, c, g, l, code);
      OpenWide(st.tables, st.u[|st.u| - 1], l, code[st.w..st.w + l], j, st, st', pre, code[..st.w + l], |code|, n);
    case Bad(x) =>
      mode' := mode;
      OpenedChange(st, st', pre, c, g, l, code, j);
  }

  /** Before the first table. */
  ghost predicate NoTables(st: State, pre: seq<seq<bool>>, l: nat, k: nat, cur: nat, mode: Mode) {
    st.tables == [] && st.u == [] && st.x == [] && pre == [] && st.w + l == 0 && cur == 0 && k <= l && mode == Fine
  }

  lemma OpenedStack(st: State, st': State, pre: seq<seq<bool>>, c: seq<nat>, g: nat, l: nat, code: seq<bool>, j: nat)
    requires g < |c| && Opened(st, st', pre, c, g, l, code, j) && Sized(c, g, l, code[..st.w + l], j)
    requires st.i == FromBits(code)
    requires st'.x == st.x + [st.i] && st'.w == st.w + l && st'.q == |st.tables| && st'.z == Pow2(j)
    ensures OnStack(st', pre + [code[..st.w + l]], c, g, l, code)
  {
    hide Msb, Pow2, FromBits, LinkOk, NextOnStack, First, Upto, Sized, Linked;
    OpenedChange(st, st', pre, c, g, l, code, j);
    ZeroTail(code, st.w + l);
    GrownBits(st.tables, st.u[|st.u| - 1], l, FromBits(code[st.w..st.w + l]), j);
  }

  lemma GrownBits(p: Pool, q: nat, b: nat, i: nat, j: nat)
    requires q < |p| && i < |p[q].entries|
    ensures |Grown(p, q, b, i, j)| == |p| + 1 && Grown(p, q, b, i, j)[|p|] == EmptyTable(j)
    ensures forall t :: 0 <= t < |p| ==> Grown(p, q, b, i, j)[t].bits == p[t].bits
  {
  }

  lemma RootTable(c: seq<nat>, g: nat, l: nat, book: Book, j: nat, code: seq<bool>, st': State)
    requires 1 <= |code| <= l && |code| <= g < |c| && book.Valid() && Msb(code) == 0 && 0 < Upto(c, |code|)
    requires Sized(c, g, l, [], j) && |code| <= j <= l
    requires st'.tables == [EmptyTable(j)] && st'.u == [0] && st'.x == [0] && st'.w == 0 && st'.q == 0
    requires st'.z == Pow2(j)
    ensures OnStack(st', [[]], c, g, l, code) && ModeOk(st', [[]], c, g, l, book, |code|, 0, Fine)
  {
    hide Msb, Pow2, First, Upto, Sized, Walk, Expected;
    var none: seq<bool> := [];
    assert FromBits(none) == 0;
    BitsOfMsb(code);
    ZeroBits(|code|);
    assert code[..0] == none;
    EarlyHere(c, g, l, code, 0);
  }

  lemma {:induction false} ZeroBits(n: nat)
    ensures AllZero(MsbBits(0, n))
  {
    if n > 0 {
      ZeroBits(n - 1);
    }
  }

  /** One round of the loop that makes tables up to the required level. */
  method OpenTable(st: State, c: seq<nat>, g: nat, l: nat, book: Book, k: nat, a: nat,
                   ghost pre: seq<seq<bool>>, ghost code: seq<bool>, ghost mode: Mode)
    returns (st': State, ghost pre': seq<seq<bool>>, ghost mode': Mode)
    requires Complete(c, g) && 1 <= k <= g && l >= 1 && book.Valid()
    requires |code| == k && First(c, k) <= Msb(code) && Upto(c, k) == Msb(code) + a + 1 && st.i == FromBits(code)
    requires k > st.w + l && (NoTables(st, pre, l, k, Msb(code), mode) || OnStack(st, pre, c, g, l, code))
    requires ModeOk(st, pre, c, g, l, book, k, Msb(code), mode)
    ensures OnStack(st', pre', c, g, l, code) && ModeOk(st', pre', c, g, l, book, k, Msb(code), mode')
    ensures st'.w == st.w + l && st'.i == st.i && st'.p == st.p
  {
    hide Msb, Pow2, First, Upto, Sized, Walk, FromBits, LinkOk, NextOnStack, ModeOk, Shr, AllZero;
    var w: nat := st.w + l;
    ghost var pr := code[..w];
    CodeAsBlock(code, w);
    var j := TableBits(c, g, l, k, a, w, pr);
    if st.u == [] {
      st' := State([EmptyTable(j)], [0], [0], w, 0, Pow2(j), st.i, st.p);
      pre', mode' := [[]], Fine;
      assert pr == [];
      RootTable(c, g, l, book, j, code, st');
    } else {
      var q := st.u[|st.u| - 1];
      FitsTable(c, g, l, pre[q], st.tables[q].bits, code);
      ShrFrom(code, st.w);
      IndexOfBlock(code, st.w, w);
      IndexFits(code[st.w..w], st.tables[q]);
      var n := Shr(st.i, st.w);
      st' := State(Grown(st.tables, q, l, n, j), st.u + [|st.tables|], st.x + [st.i], w, |st.tables|, Pow2(j), st.i,
                   st.p);
      pre' := pre + [pr];
      mode' := OpenMode(st, st', pre, c, g, l, book, code, j, mode);
      OpenedStack(st, st', pre, c, g, l, code, j);
    }
  }

  lemma CodeAsBlock(code: seq<bool>, w: nat)
    requires w <= |code| && (AllZero(code[w..]) || (w == 0 && Msb(code) == 0))
    ensures Msb(code) == Msb(code[..w]) * Pow2(|code| - w)
  {
    hide AllZero, Pow2;
    if AllZero(code[w..]) {
      BlockStart(code, w);
    } else {
      assert Msb(code[..0]) == 0;
    }
  }

  lemma IndexOfBlock(code: seq<bool>, v: nat, w: nat)
    requires v <= w <= |code| && AllZero(code[w..])
    ensures FromBits(code[v..]) == FromBits(code[v..w])
  {
    var s := code[v..];
    assert s[w - v..] == code[w..] && s[..w - v] == code[v..w];
    ZeroTail(s, w - v);
  }

  // ----- entering a code

  /** Where the pointer into v stands at the code cur of length k. */
  ghost function Place(c: seq<nat>, book: Book, k: nat, cur: nat): nat
    requires 1 <= k < |c| && First(c, k) <= cur
  {
    var n := Shorter(c, k) + (cur - First(c, k));
    if n < |book.v| then n else |book.v|
  }

  /** p' has the current code entered in the table on top of the stack. */
  ghost predicate Entered(st: State, p': Pool, pre: seq<seq<bool>>, c: seq<nat>, g: nat, l: nat, book: Book,
                          code: seq<bool>, r: Entry)
    requires g < |c| && book.Valid()
  {
    && 1 <= |code| <= g && l >= 1 && OnStack(st, pre, c, g, l, code) && |code| <= st.w + l && |p'| == |st.tables|
    && First(c, |code|) <= Msb(code) < Upto(c, |code|)
    && st.p == Place(c, book, |code|, Msb(code)) && r == book.Entry(st.p, |code| - st.w)
    && |code| - st.w <= st.tables[st.q].bits
    && Filled(st.tables, p', st.q, code[st.w..], r)
  }

  lemma SameMsb(code: seq<bool>, x: seq<bool>)
    requires code <= x
    ensures Msb(x[..|code|]) == Msb(code)
  {
    assert x[..|code|] == code;
  }

  lemma EnteredKeeps(st: State, p': Pool, pre: seq<seq<bool>>, c: seq<nat>, g: nat, l: nat, book: Book,
                     code: seq<bool>, r: Entry, x: seq<bool>)
    requires g < |c| && book.Valid() && Entered(st, p', pre, c, g, l, book, code, r)
    requires |x| == g && Msb(x[..|code|]) != Msb(code)
    ensures Walk(p', 0, 0, x) == Walk(st.tables, 0, 0, x)
  {
    hide Msb, Pow2, FromBits, LinkOk, NextOnStack, First, Upto, Walk, Sized, Sound, AllZero;
    assert pre[st.q] + code[st.w..] == code;
    if code <= x {
      SameMsb(code, x);
    } else {
      WalkKeeps(st.tables, p', pre, l, st.q, code[st.w..], 0, x);
    }
  }

  lemma TableInside(c: seq<nat>, g: nat, l: nat, pr: seq<bool>, j: nat)
    requires g < |c| && Sized(c, g, l, pr, j)
    ensures |pr| + j <= g
  {
  }

  lemma EnteredDecodes(st: State, p': Pool, pre: seq<seq<bool>>, c: seq<nat>, g: nat, l: nat, book: Book,
                       code: seq<bool>, r: Entry, x: seq<bool>)
    requires g < |c| && book.Valid() && Entered(st, p', pre, c, g, l, book, code, r)
    requires Slim(st.tables, st.u, l, |st.u| - 1)
    requires |x| == g && Msb(x[..|code|]) == Msb(code)
    ensures Walk(p', 0, 0, x) == Expected(c, g, book, x)
  {
    hide Msb, Pow2, FromBits, LinkOk, NextOnStack, First, Walk, AllZero, Sized, Filled;
    var k := |code|;
    assert Sized(c, g, l, pre[st.q], st.tables[st.q].bits);
    TableInside(c, g, l, pre[st.q], st.tables[st.q].bits);
    MsbPrefix(x, code);
    assert pre[st.q] + code[st.w..] == code;
    FilledDecodes(st.tables, p', pre, st.u, l, code[st.w..], r, x);
    ScanFinds(c, g, x, 1, k);
  }

  lemma EnteredMode(st: State, st': State, pre: seq<seq<bool>>, c: seq<nat>, g: nat, l: nat, book: Book,
                    code: seq<bool>, r: Entry, mode: Mode)
    requires g < |c| && book.Valid() && Entered(st, st'.tables, pre, c, g, l, book, code, r) && st'.u == st.u
    requires ModeOk(st, pre, c, g, l, book, |code|, Msb(code), mode)
    ensures ModeOk(st', pre, c, g, l, book, |code|, Msb(code) + 1, mode)
  {
    hide Msb, Pow2, FromBits, LinkOk, NextOnStack, First, Upto, Walk, Sized, AllZero, Expected, NoGap, Early;
    match mode
    case Fine =>
      SlimStack(st.tables, pre, st.u, l);
      forall x: seq<bool> | |x| == g && Msb(x[..|code|]) < Msb(code) + 1
        ensures Walk(st'.tables, 0, 0, x) == Expected(c, g, book, x)
      {
        if Msb(x[..|code|]) == Msb(code) {
          EnteredDecodes(st, st'.tables, pre, c, g, l, book, code, r, x);
        } else {
          EnteredKeeps(st, st'.tables, pre, c, g, l, book, code, r, x);
        }
      }
    case Wide(n) =>
      StackRises(st.tables, pre, st.u, l, |st.u| - 1);
    case Bad(x) =>
      EnteredKeeps(st, st'.tables, pre, c, g, l, book, code, r, x);
  }

  // ----- the next code

  lemma HighBit(s: seq<bool>, m: nat)
    requires m < |s|
    ensures FromBits(s[..m + 1]) == FromBits(s[..m]) + if s[m] then Pow2(m) else 0
  {
    assert s[..m + 1] == s[..m] + [s[m]];
    FromBitsAppend(s[..m], [s[m]]);
    assert [s[m]][1..] == [];
  }

  lemma {:induction false} SomeZero(s: seq<bool>, m: nat)
    requires m < |s| && !s[m]
    ensures Msb(s) + 1 < Pow2(|s|)
  {
    if m < |s| - 1 {
      SomeZero(s[..|s| - 1], m);
    }
  }

  /** Counting on from code, whose last zero is at m. */
  lemma Increment(code: seq<bool>, m: nat)
    requires m < |code| && !code[m] && forall i :: m < i < |code| ==> code[i]
    ensures Msb(code) + 1 < Pow2(|code|)
    ensures FromBits(MsbBits(Msb(code) + 1, |code|)) == FromBits(code[..m]) + Pow2(m)
  {
    hide FromBits, Pow2, Msb, MsbBits, AllZero;
    SomeZero(code, m);
    BitsOfMsb(code);
    var n := SuccBits(Msb(code), |code|);
    var next := MsbBits(Msb(code) + 1, |code|);
    assert n == m;
    ZeroTail(next, m + 1);
    HighBit(next, m);
  }

  /** The code itself counts up in the usual order, and i is the code with its bits reversed. */
  method NextCode(i: nat, k: nat, ghost code: seq<bool>) returns (i': nat)
    requires |code| == k >= 1 && i == FromBits(code)
    ensures i' == if Msb(code) + 1 < Pow2(k) then FromBits(MsbBits(Msb(code) + 1, k)) else 0
  {
    hide FromBits, Pow2, Msb, MsbBits, And, Xor;
    i' := i;
    var j := Pow2(k - 1);
    ghost var m: int := k - 1;
    assert code[..k] == code;
    HighBit(code, m);
    TopBit(i', m);
    while And(i', j) != 0
      invariant -1 <= m < k && i' == FromBits(code[..m + 1]) && j == if m < 0 then 0 else Pow2(m)
      invariant forall n :: m < n < k ==> code[n]
      invariant m >= 0 ==>
        And(i', j) == (if code[m] then Pow2(m) else 0) && Xor(i', j) == if code[m] then i' - Pow2(m) else i' + Pow2(m)
      invariant m < 0 ==> And(i', j) == 0 && Xor(i', j) == 0
      decreases m
    {
      HighBit(code, m);
      i' := Xor(i', j);
      HalfPower(m);
      j := j / 2;
      m := m - 1;
      if m >= 0 {
        HighBit(code, m);
        TopBit(i', m);
      } else {
        NoBits(code[..0]);
      }
    }
    if m >= 0 {
      Increment(code, m);
      HighBit(code, m);
    } else {
      AllOnes(code);
    }
    i' := Xor(i', j);
  }

  lemma HalfPower(m: nat)
    ensures Pow2(m) / 2 == if m == 0 then 0 else Pow2(m - 1)
  {
  }

  lemma NoBits(s: seq<bool>)
    requires s == []
    ensures FromBits(s) == 0 && And(0, 0) == 0 && Xor(0, 0) == 0
  {
  }

  lemma AllOnes(code: seq<bool>)
    requires forall n :: 0 <= n < |code| ==> code[n]
    ensures Msb(code) + 1 >= Pow2(|code|)
  {
    if Msb(code) + 1 < Pow2(|code|) {
      BitsOfMsb(code);
      var n := SuccBits(Msb(code), |code|);
    }
  }

  // ----- backing up over finished tables

  /** The first n levels of the stack. */
  function Cut(st: State, l: nat, n: nat): State
    requires 1 <= n <= |st.u| == |st.x|
  {
    st.(u := st.u[..n], x := st.x[..n], w := st.w - Depth(l, |st.u| - n))
  }

  lemma CutOk(st: State, pre: seq<seq<bool>>, c: seq<nat>, g: nat, l: nat, n: nat)
    requires g < |c| && StackOk(st, pre, c, g, l) && 1 <= n <= |st.u|
    ensures StackOk(Cut(st, l, n), pre, c, g, l) && (n == |st.u| ==> Cut(st, l, n) == st)
    decreases |st.u|
  {
    hide Msb, Pow2, FromBits, LinkOk, First, Upto, Sized;
    if n == |st.u| {
      assert Cut(st, l, n) == st;
    } else {
      assert NextOnStack(st.tables, pre, st.u, l, |st.u| - 2);
      var st1 := Cut(st, l, |st.u| - 1);
      assert Depth(l, 1) == l + Depth(l, 0);
      forall t | 0 <= t < |st1.u| - 1
        ensures NextOnStack(st1.tables, pre, st1.u, l, t)
      {
        assert NextOnStack(st.tables, pre, st.u, l, t);
      }
      CutOk(st1, pre, c, g, l, n);
      assert st.u[..|st.u| - 1][..n] == st.u[..n] && st.x[..|st.u| - 1][..n] == st.x[..n];
    }
  }

  /** The low bits of i are those of the prefix at level t. */
  ghost predicate Matches(st: State, pre: seq<seq<bool>>, t: nat) {
    t < |st.u| == |st.x| && st.u[t] < |pre| && And(st.i, Pow2(|pre[st.u[t]]|) - 1) == st.x[t]
  }

  method BackUp(st: State, c: seq<nat>, g: nat, l: nat, ghost pre: seq<seq<bool>>) returns (st': State, ghost n: nat)
    requires g < |c| && StackOk(st, pre, c, g, l)
    ensures 1 <= n <= |st.u| && st' == Cut(st, l, n) && StackOk(st', pre, c, g, l)
    ensures Matches(st, pre, n - 1) && forall t :: n <= t < |st.u| ==> !Matches(st, pre, t)
  {
    hide Msb, Pow2, FromBits, LinkOk, NextOnStack, First, Upto, Sized, And, Linked;
    n := |st.u|;
    st' := st;
    assert st.u[..n] == st.u && st.x[..n] == st.x;
    while And(st'.i, Pow2(st'.w) - 1) != st'.x[|st'.x| - 1]
      invariant 1 <= n <= |st.u| && st' == Cut(st, l, n) && StackOk(st', pre, c, g, l)
      invariant forall t :: n <= t < |st.u| ==> !Matches(st, pre, t)
      decreases n
    {
      if n == 1 {
        RootMatches(st'.i, pre[0]);
      }
      n := n - 1;
      st' := st'.(u := st'.u[..|st'.u| - 1], x := st'.x[..|st'.x| - 1], w := st'.w - l);
      CutOk(st, pre, c, g, l, n);
      assert Depth(l, |st.u| - n) == l + Depth(l, |st.u| - n - 1);
      assert st.u[..n + 1][..n] == st.u[..n] && st.x[..n + 1][..n] == st.x[..n];
    }
  }

  lemma RootMatches(i: nat, s: seq<bool>)
    requires s == []
    ensures And(i, Pow2(|s|) - 1) == FromBits(s)
  {
  }

  lemma MatchesPrefix(st: State, pre: seq<seq<bool>>, c: seq<nat>, g: nat, l: nat, next: seq<bool>, t: nat)
    requires g < |c| && StackOk(st, pre, c, g, l) && t < |st.u| && st.i == FromBits(next) && |pre[st.u[t]]| <= |next|
    ensures Matches(st, pre, t) <==> pre[st.u[t]] <= next
  {
    hide Msb, Pow2, FromBits, LinkOk, NextOnStack, First, Upto, Sized, And, Linked;
    var pr := pre[st.u[t]];
    AndMask(st.i, |pr|);
    IndexTail(next, |pr|);
    if FromBits(next[..|pr|]) == FromBits(pr) {
      FromBitsUnique(next[..|pr|], pr);
    }
    assert pr <= next <==> next[..|pr|] == pr;
  }

  /** The blocks of the tables that are dropped end before the next code. */
  lemma DroppedEnd(st: State, pre: seq<seq<bool>>, c: seq<nat>, g: nat, l: nat, code: seq<bool>, next: seq<bool>,
                   n: nat)
    requires g < |c| && OnStack(st, pre, c, g, l, code) && |next| == |code| && 1 <= n <= |st.u|
    requires st.i == FromBits(next) && forall t :: n <= t < |st.u| ==> !Matches(st, pre, t)
    ensures forall t :: n <= t < |st.u| ==> pre[st.u[t]] <= code && !(pre[st.u[t]] <= next)
  {
    hide Msb, Pow2, FromBits, NextOnStack, First, Upto, Sized, And, Linked, Matches, AllZero;
    StackRises(st.tables, pre, st.u, l, |st.u| - 1);
    forall t | n <= t < |st.u|
      ensures pre[st.u[t]] <= code && !(pre[st.u[t]] <= next)
    {
      MatchesPrefix(st, pre, c, g, l, next, t);
    }
  }

  lemma CutTop(st: State, pre: seq<seq<bool>>, c: seq<nat>, g: nat, l: nat, n: nat)
    requires g < |c| && StackOk(st, pre, c, g, l) && 1 <= n <= |st.u|
    ensures |st.x| == |st.u| && st.u[n - 1] < |pre| && Cut(st, l, n).w == |pre[st.u[n - 1]]| <= st.w
    ensures StackOk(Cut(st, l, n), pre, c, g, l)
    ensures n < |st.u| ==> st.u[n] < |pre| && |pre[st.u[n]]| == |pre[st.u[n - 1]]| + l <= st.w
    ensures n == |st.u| ==> Cut(st, l, n) == st
  {
    hide Msb, Pow2, FromBits, NextOnStack, First, Upto, Sized, Linked, Depth;
    CutOk(st, pre, c, g, l, n);
    StackRises(st.tables, pre, st.u, l, |st.u| - 1);
    if n < |st.u| {
      OneDeeper(st.tables, pre, st.u, l, n - 1);
    }
  }

  /** Where the stack is cut, the next code lies in the block of the top table. */
  lemma CutAtNext(st: State, pre: seq<seq<bool>>, c: seq<nat>, g: nat, l: nat, code: seq<bool>, next: seq<bool>, n: nat)
    requires g < |c| && OnStack(st, pre, c, g, l, code) && |code| <= st.w + l && |next| == |code| && 1 <= n <= |st.u|
    requires Msb(next) == Msb(code) + 1 && st.i == FromBits(next)
    requires Matches(st, pre, n - 1) && forall t :: n <= t < |st.u| ==> !Matches(st, pre, t)
    ensures OnStack(Cut(st, l, n), pre, c, g, l, next)
  {
    hide Msb, Pow2, FromBits, StackOk, Matches, Depth, AllZero;
    CutTop(st, pre, c, g, l, n);
    MatchesPrefix(st, pre, c, g, l, next, n - 1);
    EmptyZero(if st.w + l <= |next| then next[st.w + l..] else []);
    if n < |st.u| {
      DroppedEnd(st, pre, c, g, l, code, next, n);
      ZerosBehind(code, next, pre[st.u[n]]);
    }
  }

  lemma OneDeeper(p: Pool, pre: seq<seq<bool>>, u: seq<nat>, l: nat, n: nat)
    requires Stacked(p, pre, u, l) && n + 1 < |u|
    ensures |pre[u[n + 1]]| == |pre[u[n]]| + l
  {
    assert NextOnStack(p, pre, u, l, n);
  }

  lemma EmptyZero(s: seq<bool>)
    requires s == []
    ensures AllZero(s)
  {
  }

  lemma ZerosBehind(code: seq<bool>, next: seq<bool>, pr: seq<bool>)
    requires |code| == |next| && Msb(next) == Msb(code) + 1 && pr <= code && !(pr <= next)
    ensures AllZero(next[|pr|..])
  {
    hide Msb, Pow2, MsbBits;
    BitsOfMsb(code);
    BitsOfMsb(next);
    var m := SuccBits(Msb(code), |code|);
  }

  lemma BitAbove(s: seq<bool>, l: nat)
    requires l < |s| && s[l]
    ensures Pow2(l) <= FromBits(s)
  {
    assert s == s[..l] + s[l..];
    FromBitsAppend(s[..l], s[l..]);
    Multiples(Pow2(l), 1, FromBits(s[l..]));
  }

  /** A table with more than l bits leaves a bit string undecoded. */
  lemma WideLost(st: State, pre: seq<seq<bool>>, c: seq<nat>, g: nat, l: nat, k: nat, n: nat) returns (x: seq<bool>)
    requires g < |c| && StackOk(st, pre, c, g, l) && IsWide(st, pre, l, k, n)
    ensures |x| == g && n < |st.u| && st.u[n] < |pre| && pre[st.u[n]] <= x && Walk(st.tables, 0, 0, x) == Lost
  {
    hide Msb, Pow2, FromBits, NextOnStack, First, Upto, LinkOk;
    var t := st.u[n];
    var w, bits := |pre[t]|, st.tables[t].bits;
    assert Sized(c, g, l, pre[t], bits);
    x := pre[t] + seq(g - w, i => true);
    var s := x[w..w + bits];
    BitAbove(s, l);
    WalkToStack(st.tables, pre, st.u, l, n, x);
  }

  /** The mode after backing up to level n. */
  lemma CutMode(st: State, pre: seq<seq<bool>>, c: seq<nat>, g: nat, l: nat, book: Book, code: seq<bool>,
                next: seq<bool>, n: nat, mode: Mode)
    returns (mode': Mode)
    requires g < |c| && book.Valid() && OnStack(st, pre, c, g, l, code) && |next| == |code| <= g && 1 <= n <= |st.u|
    requires l >= 1
    requires Msb(next) == Msb(code) + 1 && st.i == FromBits(next)
    requires forall t :: n <= t < |st.u| ==> !Matches(st, pre, t)
    requires ModeOk(st, pre, c, g, l, book, |code|, Msb(next), mode)
    ensures ModeOk(Cut(st, l, n), pre, c, g, l, book, |code|, Msb(next), mode')
  {
    hide Msb, Pow2, FromBits, Linked, Stacked, First, Upto, Sized, Matches, NoGap, Walk, Expected, AllZero, And;
    mode' := mode;
    match mode
    case Wide(v) =>
      if v >= n {
        var x := WideLost(st, pre, c, g, l, |code|, v);
        DroppedEnd(st, pre, c, g, l, code, next, n);
        PastBlock(code, next, pre[st.u[v]], x);
        mode' := Bad(x);
      }
    case _ =>
  }

  // ----- one code

  ghost predicate Ready(st: State, pre: seq<seq<bool>>, c: seq<nat>, g: nat, l: nat, book: Book, k: nat, cur: nat,
                        mode: Mode)
    requires 1 <= k <= g < |c| && l >= 1 && book.Valid()
  {
    && First(c, k) <= cur < Pow2(k) && st.i == FromBits(MsbBits(cur, k)) && st.p == Place(c, book, k, cur)
    && (NoTables(st, pre, l, k, cur, mode) || OnStack(st, pre, c, g, l, MsbBits(cur, k)))
    && ModeOk(st, pre, c, g, l, book, k, cur, mode)
  }

  /** All codes are in the tables. */
  ghost predicate Built(tables: Pool, pre: seq<seq<bool>>, c: seq<nat>, g: nat, l: nat, book: Book, mode: Mode)
    requires g < |c| && l >= 1 && book.Valid()
  {
    |tables| > 0 && match mode
    case Fine =>
      && (forall x: seq<bool> :: |x| == g ==> Walk(tables, 0, 0, x) == Expected(c, g, book, x))
      && Linked(tables, pre, l) && pre[0] == [] && tables[0].bits == l
      && (forall t :: 0 <= t < |pre| ==> 1 <= tables[t].bits <= l && Early(c, g, l, pre[t]))
    case Wide(_) => false
    case Bad(x) => !NoGap(c, g, l) && |x| == g && Walk(tables, 0, 0, x) == Lost
  }

  lemma LastCode(st: State, pre: seq<seq<bool>>, c: seq<nat>, g: nat, l: nat, book: Book, code: seq<bool>, mode: Mode)
    returns (mode': Mode)
    requires Complete(c, g) && book.Valid() && 1 <= l <= g && OnStack(st, pre, c, g, l, code) && |code| == g
    requires ModeOk(st, pre, c, g, l, book, g, Pow2(g), mode)
    ensures Built(st.tables, pre, c, g, l, book, mode')
  {
    hide Msb, Pow2, FromBits, LinkOk, NextOnStack, First, Upto, Sized, NoGap, Walk, Expected, AllZero;
    mode' := mode;
    match mode
    case Wide(v) =>
      var x := WideLost(st, pre, c, g, l, g, v);
      mode' := Bad(x);
    case Fine =>
      assert Sized(c, g, l, pre[st.u[0]], st.tables[st.u[0]].bits);
      RootSize(c, g, l, st.tables[0].bits);
      forall x: seq<bool> | |x| == g
        ensures Walk(st.tables, 0, 0, x) == Expected(c, g, book, x)
      {
        assert x[..g] == x;
        assert Msb(x[..g]) < Pow2(g);
      }
    case Bad(_) =>
  }

  /** Makes tables up to the level of the code. */
  method Descend(st: State, c: seq<nat>, g: nat, l: nat, book: Book, k: nat, a: nat,
                 ghost pre: seq<seq<bool>>, ghost code: seq<bool>, ghost mode: Mode)
    returns (st': State, ghost pre': seq<seq<bool>>, ghost mode': Mode)
    requires Complete(c, g) && 1 <= k <= g && l >= 1 && book.Valid()
    requires |code| == k && First(c, k) <= Msb(code) && Upto(c, k) == Msb(code) + a + 1 && st.i == FromBits(code)
    requires NoTables(st, pre, l, k, Msb(code), mode) || OnStack(st, pre, c, g, l, code)
    requires ModeOk(st, pre, c, g, l, book, k, Msb(code), mode)
    ensures OnStack(st', pre', c, g, l, code) && ModeOk(st', pre', c, g, l, book, k, Msb(code), mode')
    ensures k <= st'.w + l && st'.i == st.i && st'.p == st.p
  {
    hide Msb, Pow2, FromBits, First, Upto, OnStack, ModeOk;
    st', pre', mode' := st, pre, mode;
    while k > st'.w + l
      invariant st'.i == st.i && st'.p == st.p
      invariant NoTables(st', pre', l, k, Msb(code), mode') || OnStack(st', pre', c, g, l, code)
      invariant ModeOk(st', pre', c, g, l, book, k, Msb(code), mode')
      decreases k - st'.w
    {
      st', pre', mode' := OpenTable(st', c, g, l, book, k, a, pre', code, mode');
    }
  }

  /** Enters the code with its symbol. */
  method Enter(st: State, c: seq<nat>, g: nat, l: nat, book: Book, k: nat,
               ghost pre: seq<seq<bool>>, ghost code: seq<bool>, ghost mode: Mode)
    returns (st': State)
    requires 1 <= k <= g < |c| && l >= 1 && book.Valid() && |code| == k && First(c, k) <= Msb(code) < Upto(c, k)
    requires OnStack(st, pre, c, g, l, code) && k <= st.w + l && st.i == FromBits(code)
    requires st.p == Place(c, book, k, Msb(code))
    requires ModeOk(st, pre, c, g, l, book, k, Msb(code), mode)
    ensures OnStack(st', pre, c, g, l, code) && ModeOk(st', pre, c, g, l, book, k, Msb(code) + 1, mode)
    ensures st'.u == st.u && st'.w == st.w && st'.i == st.i && st'.p == Place(c, book, k, Msb(code) + 1)
  {
    hide Msb, Pow2, FromBits, LinkOk, NextOnStack, First, Sized, ModeOk, AllZero, Shr;
    ghost var tail := code[st.w..];
    FitsTable(c, g, l, pre[st.q], st.tables[st.q].bits, code);
    ShrFrom(code, st.w);
    var r := book.Entry(st.p, k - st.w);
    var tables := FillTable(st.tables, st.q, st.z, st.i, st.w, k, r, tail);
    st' := st.(tables := tables, p := if st.p < |book.v| then st.p + 1 else st.p);
    EnteredMode(st, st', pre, c, g, l, book, code, r, mode);
    FilledLinked(st.tables, tables, pre, l, st.q, tail, r);
    FilledStacked(st.tables, tables, pre, st.u, l, tail, r);
  }

  /** The body of the loop over the codes of one length: the code cur, with a more codes of this length to come. */
  method AddCode(st: State, c: seq<nat>, g: nat, l: nat, book: Book, k: nat, a: nat,
                 ghost pre: seq<seq<bool>>, ghost cur: nat, ghost mode: Mode)
    returns (st': State, ghost pre': seq<seq<bool>>, ghost mode': Mode)
    requires Complete(c, g) && 1 <= k <= g && 1 <= l <= g && book.Valid()
    requires Ready(st, pre, c, g, l, book, k, cur, mode) && Upto(c, k) == cur + a + 1
    ensures
      if cur + 1 < Pow2(k) then Ready(st', pre', c, g, l, book, k, cur + 1, mode') && st'.u != []
      else k == g && Built(st'.tables, pre', c, g, l, book, mode')
  {
    hide Msb, MsbBits, Pow2, FromBits, First, Upto, ModeOk, Stacked, Linked, Sized, AllZero, Built;
    ghost var code := MsbBits(cur, k);
    MsbOfBits(cur, k);
    var st1;
    st1, pre', mode' := Descend(st, c, g, l, book, k, a, pre, code, mode);
    st1 := Enter(st1, c, g, l, book, k, pre', code, mode');
    var i := NextCode(st1.i, k, code);
    ghost var n;
    var st2 := st1.(i := i);
    st', n := BackUp(st2, c, g, l, pre');
    UptoFits(c, k, g);
    if cur + 1 < Pow2(k) {
      ghost var next := MsbBits(cur + 1, k);
      MsbOfBits(cur + 1, k);
      SameMode(st1, st2, pre', c, g, l, book, k, cur + 1, mode');
      CutAtNext(st2, pre', c, g, l, code, next, n);
      mode' := CutMode(st2, pre', c, g, l, book, code, next, n, mode');
    } else {
      mode' := LastCode(st1, pre', c, g, l, book, code, mode');
    }
  }

  lemma SameMode(st: State, st': State, pre: seq<seq<bool>>, c: seq<nat>, g: nat, l: nat, book: Book, k: nat, cur: nat,
                 mode: Mode)
    requires k <= g < |c| && l >= 1 && book.Valid() && ModeOk(st, pre, c, g, l, book, k, cur, mode)
    requires st'.tables == st.tables && st'.u == st.u
    ensures ModeOk(st', pre, c, g, l, book, k, cur, mode)
  {
    hide Msb, Pow2, Walk, Expected, NoGap, Early;
  }
}
