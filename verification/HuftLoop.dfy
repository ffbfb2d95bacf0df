/** The main loop of huft_build: which bit strings its tables decode as they should. */
module HuftLoop {
  import opened BitIo
  import opened HuftCode
  import opened HuftTable
  import opened HuftBuild
  import opened HuftSteps

  /** In a complete code every bit string starts with a code. */
  lemma {:induction false} ScanTotal(c: seq<nat>, g: nat, x: seq<bool>, k: nat)
    requires Complete(c, g) && 1 <= k <= g <= |x| && First(c, k) <= Msb(x[..k])
    ensures
      var r := Scan(c, g, x, k);
      r.Code? && k <= r.len <= g && First(c, r.len) + r.rank == Msb(x[..r.len]) < Upto(c, r.len)
    decreases g - k
  {
    hide Msb, Pow2;
    if Msb(x[..k]) >= Upto(c, k) {
      assert Msb(x[..g]) < Pow2(g);
      MsbNext(x, k);
      ScanTotal(c, g, x, k + 1);
    }
  }

  lemma {:induction false} MsbOnes(s: seq<bool>)
    requires forall i :: 0 <= i < |s| ==> s[i]
    ensures Msb(s) == Pow2(|s|) - 1
  {
    if s != [] {
      MsbOnes(s[..|s| - 1]);
    }
  }

  /** When no table is too wide, every level has an early code, also in its last block. */
  lemma FineHasNoGap(tables: Pool, pre: seq<seq<bool>>, c: seq<nat>, g: nat, l: nat, book: Book)
    requires Complete(c, g) && l >= 1 && book.Valid() && Built(tables, pre, c, g, l, book, Fine)
    ensures NoGap(c, g, l)
  {
    hide Msb, Pow2, First, Walk, Expected, Roomy, Depth;
    forall n: nat | n >= 1 && Depth(l, n) + l < g
      ensures Roomy(c, l, Depth(l, n))
    {
      LastBlock(tables, pre, c, g, l, book, n);
    }
  }

  lemma LastBlock(tables: Pool, pre: seq<seq<bool>>, c: seq<nat>, g: nat, l: nat, book: Book, n: nat)
    requires Complete(c, g) && l >= 1 && book.Valid() && Built(tables, pre, c, g, l, book, Fine)
    requires n >= 1 && Depth(l, n) + l < g
    ensures Roomy(c, l, Depth(l, n))
  {
    hide Msb, Pow2, First, Walk, LinkOk, Scan, Expected, Complete;
    var w := Depth(l, n);
    var x := seq(g, i => true);
    var k := OnesCode(c, g, book, x, w);
    var v := WalkVisits(tables, pre, l, 0, x, n);
    assert pre[v] == x[..w];
    MsbOnes(x[..w]);
    Pow2Add(w, l);
    OneMore(Pow2(w) - 1, Pow2(l));
  }

  /** The last code of all, of which the first w bits are not a code. */
  lemma OnesCode(c: seq<nat>, g: nat, book: Book, x: seq<bool>, w: nat) returns (k: nat)
    requires Complete(c, g) && book.Valid() && w < g && |x| == g && forall i :: 0 <= i < g ==> x[i]
    ensures Expected(c, g, book, x).Got? && Expected(c, g, book, x).used == k > w
  {
    hide Msb, Pow2, First, Book.Entry;
    assert Msb(x[..1]) >= First(c, 1) by { FirstOne(c); }
    ScanTotal(c, g, x, 1);
    k := Scan(c, g, x, 1).len;
    if k <= w {
      UptoFits(c, k, g);
      MsbOnes(x[..k]);
    }
  }

  lemma FirstOne(c: seq<nat>)
    requires |c| >= 1
    ensures First(c, 1) == 0
  {
  }

  /** The code lengths decide whether all bit strings are decoded as they should be. */
  lemma BuiltIff(tables: Pool, pre: seq<seq<bool>>, c: seq<nat>, g: nat, l: nat, book: Book, mode: Mode)
    requires Complete(c, g) && l >= 1 && book.Valid() && Built(tables, pre, c, g, l, book, mode)
    ensures NoGap(c, g, l) ==> forall x: seq<bool> :: |x| == g ==> Walk(tables, 0, 0, x) == Expected(c, g, book, x)
    ensures NoGap(c, g, l) ==> |tables| > 0 && tables[0].bits == l && Shaped(tables)
    ensures !NoGap(c, g, l) ==> exists x: seq<bool> :: |x| == g && Walk(tables, 0, 0, x) == Lost
  {
    hide Msb, Pow2, First, Walk, Expected, LinkOk, Shaped;
    if mode == Fine {
      LinkedShaped(tables, pre, l);
      FineHasNoGap(tables, pre, c, g, l, book);
    }
  }

  lemma NextLength(st: State, pre: seq<seq<bool>>, c: seq<nat>, g: nat, l: nat, book: Book, k: nat, cur: nat,
                   mode: Mode)
    requires 1 <= k < g < |c| && l >= 1 && book.Valid() && st.u != []
    requires Ready(st, pre, c, g, l, book, k, cur, mode) && cur == Upto(c, k)
    ensures Ready(st, pre, c, g, l, book, k + 1, First(c, k + 1), mode)
  {
    hide Msb, FromBits, Linked, Stacked, Sized, NoGap, ModeOk;
    var code, next := MsbBits(cur, k), MsbBits(2 * cur, k + 1);
    assert next == code + [false];
    assert next[k..] == [false] && next[..k] == code;
    ZeroTail(next, k);
    NextLengthMode(st, pre, c, g, l, book, k, cur, mode);
  }

  lemma NextLengthMode(st: State, pre: seq<seq<bool>>, c: seq<nat>, g: nat, l: nat, book: Book, k: nat, cur: nat,
                       mode: Mode)
    requires k < g < |c| && l >= 1 && book.Valid() && ModeOk(st, pre, c, g, l, book, k, cur, mode)
    ensures ModeOk(st, pre, c, g, l, book, k + 1, 2 * cur, mode)
  {
    hide Msb, Pow2, Walk, Expected, NoGap, Early;
    match mode
    case Fine => SoundNextLength(st.tables, c, g, book, k, cur);
    case Wide(_) =>
    case Bad(x) => MsbNext(x, k);
  }

  lemma {:induction false} FirstZero(c: seq<nat>, k: nat)
    requires k < |c| && forall j :: 1 <= j < k ==> c[j] == 0
    ensures First(c, k) == 0 && Shorter(c, k) == 0
  {
    if k > 1 {
      FirstZero(c, k - 1);
    }
  }

  lemma Start(c: seq<nat>, g: nat, l: nat, book: Book, k: nat)
    requires 1 <= k <= l && k <= g < |c| && book.Valid() && forall j :: 1 <= j < k ==> c[j] == 0
    ensures Ready(State([], [], [], 0 - (l as int), 0, 0, 0, 0), [], c, g, l, book, k, First(c, k), Fine)
  {
    hide Msb, Walk, Expected;
    FirstZero(c, k);
    ZeroBits(k);
    FromZeros(MsbBits(0, k));
  }

  /** The tables for the codes from length k up to length g. */
  method MakeTables(c: seq<nat>, k0: nat, g: nat, l: nat, book: Book) returns (tables: Pool)
    requires Complete(c, g) && 1 <= k0 <= l <= g && c[k0] >= 1 && (forall j :: 1 <= j < k0 ==> c[j] == 0)
    requires book.Valid()
    ensures NoGap(c, g, l) ==> forall x: seq<bool> :: |x| == g ==> Walk(tables, 0, 0, x) == Expected(c, g, book, x)
    ensures NoGap(c, g, l) ==> |tables| > 0 && tables[0].bits == l && Shaped(tables)
    ensures !NoGap(c, g, l) ==> exists x: seq<bool> :: |x| == g && Walk(tables, 0, 0, x) == Lost
  {
    hide Msb, Pow2, First, Walk, Expected, Ready, Built, NoGap, Shaped;
    var st := State([], [], [], 0 - (l as int), 0, 0, 0, 0);
    ghost var pre: seq<seq<bool>>, mode := [], Fine;
    var k := k0;
    Start(c, g, l, book, k);
    while k <= g
      invariant k0 <= k <= g + 1
      invariant k <= g ==> Ready(st, pre, c, g, l, book, k, First(c, k), mode) && (k > k0 ==> st.u != [])
      invariant k > g ==> Built(st.tables, pre, c, g, l, book, mode)
    {
      UptoFits(c, k, g);
      var a := c[k];
      while a > 0
        invariant 0 <= a <= c[k]
        invariant Upto(c, k) - a < Pow2(k) ==>
          Ready(st, pre, c, g, l, book, k, Upto(c, k) - a, mode) && (k > k0 || a < c[k] ==> st.u != [])
        invariant Upto(c, k) - a == Pow2(k) ==> k == g && Built(st.tables, pre, c, g, l, book, mode)
      {
        a := a - 1;
        st, pre, mode := AddCode(st, c, g, l, book, k, a, pre, Upto(c, k) - a - 1, mode);
      }
      if k < g {
        NextLength(st, pre, c, g, l, book, k, Upto(c, k), mode);
      }
      k := k + 1;
    }
    tables := st.tables;
    BuiltIff(tables, pre, c, g, l, book, mode);
  }
}
