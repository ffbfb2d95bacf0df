/** huft_build of inflate.c. */
module HuftBuild {
  import opened BitIo
  import opened HuftCode
  import opened HuftTable

  /** What the codes stand for: v lists the symbols in the order of their codes; symbols below s are simple, the others
      have a base value in d and a number of extra bits in e. */
  datatype Book = Book(v: seq<nat>, s: nat, d: seq<nat>, e: seq<nat>) {
    predicate Valid() {
      |d| == |e| && forall i :: 0 <= i < |v| ==> v[i] < s + |d|
    }

    /** The entry for the p-th code, with b bits in its table. Behind the last symbol, entries are invalid, and their
        value is left over from that symbol. */
    function Entry(p: nat, b: nat): Entry
      requires Valid()
    {
      if p >= |v| then Leaf(99, b, LeftOver())
      else if v[p] < s then Leaf(if v[p] < 256 then 16 else 15, b, v[p])
      else Leaf(e[v[p] - s], b, d[v[p] - s])
    }

    function LeftOver(): nat
      requires Valid()
    {
      if v == [] then 0 else
        var sym := v[|v| - 1];
        if sym < s then sym else d[sym - s]
    }
  }

  /** How many codes are shorter than k. */
  function Shorter(c: seq<nat>, k: nat): nat
    requires k <= |c|
  {
    if k <= 1 then 0 else Shorter(c, k - 1) + c[k - 1]
  }

  /** What decoding x should give. */
  ghost function Expected(c: seq<nat>, g: nat, book: Book, x: seq<bool>): Outcome
    requires g < |c| && g <= |x| && book.Valid()
  {
    match Scan(c, g, x, 1)
    case NoCode => Lost
    case Code(k, r) =>
      if k >= |c| then Lost else var q := book.Entry(Shorter(c, k) + r, 0); Got(q.e, q.n, k)
  }

  /** All bit strings below the code cur of length k are decoded as they should be. */
  ghost predicate Sound(p: Pool, c: seq<nat>, g: nat, book: Book, k: nat, cur: nat)
    requires k <= g < |c| && book.Valid()
  {
    forall x: seq<bool> :: |x| == g && Msb(x[..k]) < cur ==> Walk(p, 0, 0, x) == Expected(c, g, book, x)
  }

  lemma SoundNextLength(p: Pool, c: seq<nat>, g: nat, book: Book, k: nat, cur: nat)
    requires k < g < |c| && book.Valid() && Sound(p, c, g, book, k, cur)
    ensures Sound(p, c, g, book, k + 1, 2 * cur)
  {
    hide Walk, Expected, Msb;
    forall x: seq<bool> | |x| == g && Msb(x[..k + 1]) < 2 * cur
      ensures Walk(p, 0, 0, x) == Expected(c, g, book, x)
    {
      MsbNext(x, k);
    }
  }

  // ----- the state of the construction

  /** The local variables of the main loop; q is the current table, with z entries, w the number of bits before the
      table on top of the stack u. */
  datatype State = State(tables: Pool, u: seq<nat>, x: seq<nat>, w: int, q: nat, z: nat, i: nat, p: nat)

  /** The stack holds tables of increasing depth, and x their prefixes as numbers. */
  ghost predicate StackOk(st: State, pre: seq<seq<bool>>, c: seq<nat>, g: nat, l: nat)
    requires g < |c|
  {
    && Linked(st.tables, pre, l) && Stacked(st.tables, pre, st.u, l) && |st.x| == |st.u|
    && (forall t :: 0 <= t < |st.u| ==> st.x[t] == FromBits(pre[st.u[t]]))
    && (forall t :: 0 <= t < |st.u| ==> Sized(c, g, l, pre[st.u[t]], st.tables[st.u[t]].bits))
    && st.w == |pre[st.u[|st.u| - 1]]|
  }

  /** The tables on the stack are those whose blocks contain the code `code`, and the block of the next level starts
      with it. */
  ghost predicate OnStack(st: State, pre: seq<seq<bool>>, c: seq<nat>, g: nat, l: nat, code: seq<bool>)
    requires g < |c|
  {
    && StackOk(st, pre, c, g, l)
    && 0 <= st.w < |code| && pre[st.u[|st.u| - 1]] <= code
    && AllZero(if st.w + l <= |code| then code[st.w + l..] else [])
    && (|code| <= st.w + l ==> st.q == st.u[|st.u| - 1] && st.z == Pow2(st.tables[st.q].bits))
  }

  // ----- tables with more than l bits

  /** Before the block of pr starts, there is still a code that a table of l bits for this block can hold. */
  ghost predicate Early(c: seq<nat>, g: nat, l: nat, pr: seq<bool>)
    requires g < |c| && l >= 1
  {
    |pr| + l < g ==> Msb(pr) * Pow2(l) < Upto(c, |pr| + l)
  }

  /** Of the bit strings of length w + l, fewer than 2^l are left over by the codes up to that length. */
  ghost predicate Roomy(c: seq<nat>, l: nat, w: nat)
    requires 1 <= w + l < |c|
  {
    Pow2(w + l) < Upto(c, w + l) + Pow2(l)
  }

  /** At every level below the root, the code lengths do not jump over a whole table. */
  ghost predicate NoGap(c: seq<nat>, g: nat, l: nat)
    requires g < |c| && l >= 1
  {
    forall n: nat :: n >= 1 && Depth(l, n) + l < g ==> Roomy(c, l, Depth(l, n))
  }

  /** All tables have at most l bits; or the table at some level of the stack has more, and only links to the next level
      can be in it; or some bit string has been left without an entry for good. */
  datatype Mode = Fine | Wide(level: nat) | Bad(x: seq<bool>)

  ghost predicate HighUnset(t: Table, l: nat) {
    forall i :: Pow2(l) <= i < |t.entries| ==> t.entries[i] == Unset
  }

  ghost predicate Slim(p: Pool, u: seq<nat>, l: nat, n: nat) {
    forall s :: 0 <= s < n <= |u| ==> u[s] < |p| && p[u[s]].bits == l
  }

  ghost predicate IsWide(st: State, pre: seq<seq<bool>>, l: nat, k: nat, n: nat) {
    && n < |st.u| && st.u[n] < |st.tables| == |pre| && Slim(st.tables, st.u, l, n)
    && st.tables[st.u[n]].bits > l && HighUnset(st.tables[st.u[n]], l) && k > |pre[st.u[n]]| + l
  }

  ghost predicate ModeOk(st: State, pre: seq<seq<bool>>, c: seq<nat>, g: nat, l: nat, book: Book, k: nat, cur: nat,
                         mode: Mode)
    requires k <= g < |c| && l >= 1 && book.Valid()
  {
    match mode
    case Fine =>
      && Sound(st.tables, c, g, book, k, cur) && |pre| == |st.tables|
      && (forall t :: 0 <= t < |pre| ==> 1 <= st.tables[t].bits <= l && Early(c, g, l, pre[t]))
    case Wide(n) => !NoGap(c, g, l) && IsWide(st, pre, l, k, n)
    case Bad(x) => !NoGap(c, g, l) && |x| == g && Msb(x[..k]) < cur && Walk(st.tables, 0, 0, x) == Lost
  }

  // ----- the steps of the main loop

  /** The size of a new table at depth w: its block starts with the current code, the first of a + 1 codes of length
      k. */
  method TableBits(c: seq<nat>, g: nat, l: nat, k: nat, a: nat, w: nat, ghost pr: seq<bool>) returns (j: nat)
    requires Complete(c, g) && |pr| == w < k <= g
    requires Upto(c, k) == Msb(pr) * Pow2(k - w) + a + 1
    ensures k - w <= j && Sized(c, g, l, pr, j) && (j > l ==> j == k - w)
  {
    hide Msb, Pow2, First;
    var z: nat := if g - w > l then l else g - w;
    j := k - w;
    var f: nat := Pow2(j);
    OneMore(Msb(pr), Pow2(j));
    ghost var e := Msb(pr) + 1;
    if f > a + 1 {
      f := f - (a + 1);
      var t := k;
      if j < z {
        j := j + 1;
        while j < z
          invariant k - w < j <= z && t == w + j - 1 && f == e * Pow2(j - 1) - Upto(c, t) && f > 0
          decreases z - j
        {
          BlockDoubles(c, e, j, t);
          f := 2 * f;
          t := t + 1;
          if f <= c[t] {
            break;
          }
          f := f - c[t];
          j := j + 1;
        }
      }
    }
  }

  lemma BlockDoubles(c: seq<nat>, e: nat, j: nat, t: nat)
    requires j >= 1 && 1 <= t && t + 1 < |c|
    ensures e * Pow2(j) == 2 * (e * Pow2(j - 1)) && Upto(c, t + 1) == 2 * Upto(c, t) + c[t + 1]
  {
    TwiceRight(e, Pow2(j - 1));
  }

  lemma ShrFrom(code: seq<bool>, n: nat)
    requires n <= |code|
    ensures Shr(FromBits(code), n) == FromBits(code[n..])
  {
    ToFrom(code);
    ShrBits(FromBits(code), n, |code|);
    FromTo(Shr(FromBits(code), n), |code| - n);
  }

  /** The loop that fills all entries which start with the bits of the code. */
  method FillTable(tables: Pool, q: nat, z: nat, i: nat, w: nat, k: nat, r: Entry, ghost tail: seq<bool>)
    returns (tables': Pool)
    requires q < |tables| && |tables[q].entries| == Pow2(tables[q].bits) == z && w <= k && k - w <= tables[q].bits
    requires |tail| == k - w && Shr(i, w) == FromBits(tail)
    ensures |tables'| == |tables| && Filled(tables, tables', q, tail, r)
  {
    hide ToBits, FromBits, Pow2, Shr, Stride;
    var f := Pow2(k - w);
    var entries := tables[q].entries;
    var j := Shr(i, w);
    ghost var n := 0;
    StrideFirst(tail);
    while j < z
      invariant |entries| == z && j == Stride(tail, n)
      invariant forall m :: 0 <= m < z ==>
        entries[m] == if m < j && ToBits(m, |tail|) == tail then r else tables[q].entries[m]
      decreases z - j
    {
      StrideHas(tail, n);
      entries := entries[j := r];
      forall m | 0 <= m < z && m < j + f && ToBits(m, |tail|) == tail
        ensures m <= j
      {
        StrideOnly(tail, n, m);
      }
      j := j + f;
      n := n + 1;
    }
    tables' := tables[q := tables[q].(entries := entries)];
  }

  lemma StrideFirst(s: seq<bool>)
    ensures Stride(s, 0) == FromBits(s) && forall m: nat :: ToBits(m, |s|) == s ==> m >= FromBits(s)
  {
    forall m: nat | ToBits(m, |s|) == s
      ensures m >= FromBits(s)
    {
      Decompose(m, |s|);
    }
  }
}
