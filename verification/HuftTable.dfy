/** Multi-level decoding tables and the walk through them that inflate_codes makes. */
module HuftTable {
  import opened BitIo

  /** struct huft: a code with its number of bits in this table, or a link to a table of `bits` bits. */
  datatype Entry = Unset | Leaf(e: nat, b: nat, n: nat) | Link(b: nat, bits: nat, to: nat)

  datatype Table = Table(bits: nat, entries: seq<Entry>)

  /** The tables in the order of their allocation; a pointer is a place in this list. */
  type Pool = seq<Table>

  datatype Outcome = Lost | Got(e: nat, n: nat, used: nat)

  /** Walking down from table t with w bits of x used. */
  function Walk(p: Pool, t: nat, w: nat, x: seq<bool>): Outcome
    decreases |p| - t
  {
    if t >= |p| || w + p[t].bits > |x| then Lost
    else
      var i := FromBits(x[w..w + p[t].bits]);
      if i >= |p[t].entries| then Lost
      else match p[t].entries[i]
        case Unset => Lost
        case Leaf(e, b, n) => Got(e, n, w + b)
        case Link(b, bits, to) => if to <= t then Lost else Walk(p, to, w + b, x)
  }

  /** Every table belongs to one prefix, and a link adds the l low bits of its index to it. */
  ghost predicate Linked(p: Pool, pre: seq<seq<bool>>, l: nat) {
    && |pre| == |p|
    && (forall t :: 0 <= t < |p| ==> |p[t].entries| == Pow2(p[t].bits))
    && (forall t, i :: 0 <= t < |p| && 0 <= i < |p[t].entries| && p[t].entries[i].Link? ==> LinkOk(p, pre, l, t, i))
    && (forall t, i :: 0 <= t < |p| && 0 <= i < |p[t].entries| && p[t].entries[i].Leaf? ==>
      p[t].entries[i].b <= p[t].bits)
  }

  /** Codes take no more bits than their table has, links take them all and say the size of the table they lead to. */
  ghost predicate Shaped(p: Pool) {
    forall t, i :: 0 <= t < |p| && 0 <= i < |p[t].entries| ==> EntryShaped(p, t, p[t].entries[i])
  }

  ghost predicate EntryShaped(p: Pool, t: nat, r: Entry)
    requires t < |p|
  {
    match r
    case Unset => true
    case Leaf(e, b, n) => b <= p[t].bits
    case Link(b, bits, to) => b == p[t].bits && t < to < |p| && 1 <= bits == p[to].bits
  }

  /** The bits x are enough for the look-ups from table t on: one for the table, and then those for a table it links
      to. */
  ghost predicate Enough(p: Pool, t: nat, x: seq<bool>)
    requires t < |p|
    decreases |p| - t
  {
    && |x| >= p[t].bits
    && var i := FromBits(x[..p[t].bits]);
    && (i < |p[t].entries| && p[t].entries[i].Link? && t < p[t].entries[i].to < |p| ==>
          p[t].entries[i].b <= |x| && Enough(p, p[t].entries[i].to, x[p[t].entries[i].b..]))
  }

  lemma LinkedShaped(p: Pool, pre: seq<seq<bool>>, l: nat)
    requires Linked(p, pre, l) && forall t :: 0 <= t < |p| ==> 1 <= p[t].bits <= l
    ensures Shaped(p)
  {
    hide ToBits, Pow2;
    forall t, i | 0 <= t < |p| && 0 <= i < |p[t].entries|
      ensures EntryShaped(p, t, p[t].entries[i])
    {
      if p[t].entries[i].Link? {
        assert LinkOk(p, pre, l, t, i);
      }
    }
  }

  ghost predicate LinkOk(p: Pool, pre: seq<seq<bool>>, l: nat, t: nat, i: nat)
    requires |pre| == |p| && t < |p| && i < |p[t].entries| && p[t].entries[i].Link?
  {
    var k := p[t].entries[i];
    && k.b == l <= p[t].bits && t < k.to < |p| && k.bits == p[k.to].bits
    && pre[k.to] == pre[t] + ToBits(i, l)
  }

  /** p' differs from p only in entries of table q whose index starts with `tail`. */
  ghost predicate ChangedAt(p: Pool, p': Pool, q: nat, tail: seq<bool>)
    requires q < |p| <= |p'|
  {
    && p'[q].bits == p[q].bits && |p'[q].entries| == |p[q].entries| && |tail| <= p[q].bits
    && (forall t :: 0 <= t < |p| && t != q ==> p'[t] == p[t])
    && (forall i :: 0 <= i < |p[q].entries| && ToBits(i, |tail|) != tail ==> p'[q].entries[i] == p[q].entries[i])
  }

  lemma IndexTail(s: seq<bool>, n: nat)
    requires n <= |s|
    ensures ToBits(FromBits(s), n) == s[..n]
  {
    ToFrom(s);
    ToBitsPrefix(FromBits(s), n, |s|);
  }

  /** The entry that decodes x in table t. */
  function At(p: Pool, t: nat, w: nat, x: seq<bool>): Entry {
    if t < |p| && w + p[t].bits <= |x| && FromBits(x[w..w + p[t].bits]) < |p[t].entries|
    then p[t].entries[FromBits(x[w..w + p[t].bits])] else Unset
  }

  lemma StepDown(p: Pool, pre: seq<seq<bool>>, l: nat, t: nat, x: seq<bool>)
    requires Linked(p, pre, l) && t < |p| && pre[t] <= x && At(p, t, |pre[t]|, x).Link?
    ensures
      var to := At(p, t, |pre[t]|, x).to;
      && t < to < |p| && pre[to] <= x && |pre[to]| == |pre[t]| + l && At(p, t, |pre[t]|, x).b == l <= p[t].bits
      && Walk(p, t, |pre[t]|, x) == Walk(p, to, |pre[to]|, x)
  {
    hide FromBits, ToBits, Pow2;
    var w, j := |pre[t]|, p[t].bits;
    var s := x[w..w + j];
    assert LinkOk(p, pre, l, t, FromBits(s));
    IndexTail(s, l);
    LongerPrefix(x, pre[t], w, j, l);
  }

  lemma LongerPrefix(x: seq<bool>, pr: seq<bool>, w: nat, j: nat, l: nat)
    requires w == |pr| && pr <= x && l <= j && w + j <= |x|
    ensures pr + x[w..w + j][..l] <= x
  {
  }

  /** Bit strings that do not start with the prefix of q and the tail are decoded as before. */
  lemma {:induction false} WalkKeeps(p: Pool, p': Pool, pre: seq<seq<bool>>, l: nat, q: nat, tail: seq<bool>, t: nat,
                                     x: seq<bool>)
    requires Linked(p, pre, l) && q < |p| <= |p'| && ChangedAt(p, p', q, tail)
    requires t < |p| && pre[t] <= x
    requires !(pre[q] + tail <= x)
    ensures Walk(p', t, |pre[t]|, x) == Walk(p, t, |pre[t]|, x)
    decreases |p| - t
  {
    hide FromBits, ToBits, LinkOk, Pow2;
    SameEntry(p, p', pre, q, tail, t, x);
    var r := At(p, t, |pre[t]|, x);
    if r.Link? {
      StepDown(p, pre, l, t, x);
      WalkKeeps(p, p', pre, l, q, tail, r.to, x);
    }
  }

  lemma SameEntry(p: Pool, p': Pool, pre: seq<seq<bool>>, q: nat, tail: seq<bool>, t: nat, x: seq<bool>)
    requires |pre| == |p| && q < |p| <= |p'| && ChangedAt(p, p', q, tail)
    requires t < |p| && pre[t] <= x && !(pre[q] + tail <= x)
    ensures At(p', t, |pre[t]|, x) == At(p, t, |pre[t]|, x) && p'[t].bits == p[t].bits
    ensures |p'[t].entries| == |p[t].entries|
  {
    hide FromBits, ToBits;
    var w, j := |pre[t]|, p[t].bits;
    if t == q && w + j <= |x| {
      IndexTail(x[w..w + j], |tail|);
      LongerPrefix(x, pre[q], w, j, |tail|);
    }
  }

  /** The length of the prefixes n levels down. */
  function Depth(l: nat, n: nat): nat {
    if n == 0 then 0 else l + Depth(l, n - 1)
  }

  /** If no table has more than l bits, then what takes many bits is decoded by way of a table at every depth above. */
  lemma {:induction false} WalkVisits(p: Pool, pre: seq<seq<bool>>, l: nat, t: nat, x: seq<bool>, n: nat)
    returns (v: nat)
    requires Linked(p, pre, l) && t < |p| && pre[t] <= x
    requires forall t :: 0 <= t < |p| ==> p[t].bits <= l
    requires Walk(p, t, |pre[t]|, x).Got? && Walk(p, t, |pre[t]|, x).used > |pre[t]| + Depth(l, n)
    ensures v < |p| && pre[v] <= x && |pre[v]| == |pre[t]| + Depth(l, n)
    decreases |p| - t
  {
    hide FromBits, ToBits, Pow2;
    if n == 0 {
      v := t;
    } else {
      var r := At(p, t, |pre[t]|, x);
      StepDown(p, pre, l, t, x);
      v := WalkVisits(p, pre, l, r.to, x, n - 1);
    }
  }

  // ----- the stack of tables under construction

  /** u leads from the root down through full-size tables, each the only way to the next. */
  ghost predicate Stacked(p: Pool, pre: seq<seq<bool>>, u: seq<nat>, l: nat) {
    && |pre| == |p| && |u| > 0 && u[0] == 0 && l >= 1
    && (forall t :: 0 <= t < |u| ==> u[t] < |p|)
    && pre[0] == []
    && (forall t :: 0 <= t < |u| - 1 ==> NextOnStack(p, pre, u, l, t))
  }

  ghost predicate NextOnStack(p: Pool, pre: seq<seq<bool>>, u: seq<nat>, l: nat, t: nat)
    requires |pre| == |p| && t + 1 < |u| && u[t] < |p| && u[t + 1] < |p|
  {
    var a, b := u[t], u[t + 1];
    && a < b && p[a].bits >= l && |p[a].entries| == Pow2(p[a].bits) && |pre[b]| == |pre[a]| + l && pre[a] <= pre[b]
    && IndexBelow(pre[b][|pre[a]|..], p[a])
    && p[a].entries[FromBits(pre[b][|pre[a]|..])] == Link(l, p[b].bits, b)
  }

  predicate IndexBelow(s: seq<bool>, t: Table) { FromBits(s) < |t.entries| }

  lemma IndexFits(s: seq<bool>, t: Table)
    requires |t.entries| == Pow2(t.bits) && |s| <= t.bits
    ensures IndexBelow(s, t)
  {
    Pow2Grows(|s|, t.bits);
  }

  /** What starts with the prefix of a table on the stack is decoded by that table, if the tables above it have l
      bits. */
  lemma {:induction false} WalkToStack(p: Pool, pre: seq<seq<bool>>, u: seq<nat>, l: nat, t: nat, x: seq<bool>)
    requires Stacked(p, pre, u, l) && t < |u| && pre[u[t]] <= x
    requires forall s :: 0 <= s < t ==> p[u[s]].bits == l
    ensures Walk(p, 0, 0, x) == Walk(p, u[t], |pre[u[t]]|, x)
  {
    hide FromBits, Pow2;
    if t > 0 {
      assert NextOnStack(p, pre, u, l, t - 1);
      var a, b := u[t - 1], u[t];
      assert pre[a] == x[..|pre[a]|];
      WalkToStack(p, pre, u, l, t - 1, x);
      assert x[|pre[a]|..|pre[a]| + l] == pre[b][|pre[a]|..];
    }
  }

  lemma {:induction false} StackRises(p: Pool, pre: seq<seq<bool>>, u: seq<nat>, l: nat, n: nat)
    requires Stacked(p, pre, u, l) && n < |u|
    ensures forall t :: 0 <= t < n ==> u[t] < u[n] && |pre[u[t]]| + l <= |pre[u[n]]|
    ensures forall t :: 0 <= t <= n ==> pre[u[t]] <= pre[u[n]]
  {
    if n > 0 {
      StackRises(p, pre, u, l, n - 1);
      assert NextOnStack(p, pre, u, l, n - 1);
    }
  }

  // ----- filling a table

  /** All entries of table q whose index starts with `tail` have been set to r. */
  ghost predicate Filled(p: Pool, p': Pool, q: nat, tail: seq<bool>, r: Entry)
    requires q < |p| == |p'|
  {
    && ChangedAt(p, p', q, tail)
    && forall i :: 0 <= i < |p'[q].entries| ==>
      p'[q].entries[i] == if ToBits(i, |tail|) == tail then r else p[q].entries[i]
  }

  lemma FilledLinked(p: Pool, p': Pool, pre: seq<seq<bool>>, l: nat, q: nat, tail: seq<bool>, r: Entry)
    requires Linked(p, pre, l) && q < |p| == |p'| && Filled(p, p', q, tail, r) && r.Leaf? && r.b <= p[q].bits
    ensures Linked(p', pre, l)
  {
    hide ToBits, Pow2;
    forall t, i | 0 <= t < |p'| && 0 <= i < |p'[t].entries| && p'[t].entries[i].Link?
      ensures LinkOk(p', pre, l, t, i)
    {
      assert LinkOk(p, pre, l, t, i);
    }
  }

  lemma FilledStacked(p: Pool, p': Pool, pre: seq<seq<bool>>, u: seq<nat>, l: nat, tail: seq<bool>, r: Entry)
    requires Stacked(p, pre, u, l) && |p| == |p'| && Filled(p, p', u[|u| - 1], tail, r)
    ensures Stacked(p', pre, u, l)
  {
    hide ToBits, FromBits, Pow2;
    StackRises(p, pre, u, l, |u| - 1);
    forall t | 0 <= t < |u| - 1
      ensures NextOnStack(p', pre, u, l, t)
    {
      assert NextOnStack(p, pre, u, l, t);
    }
  }

  /** A filled code is decoded. */
  lemma FilledDecodes(p: Pool, p': Pool, pre: seq<seq<bool>>, u: seq<nat>, l: nat, tail: seq<bool>, r: Entry,
                      x: seq<bool>)
    requires Linked(p, pre, l) && Stacked(p, pre, u, l) && |p| == |p'|
    requires Filled(p, p', u[|u| - 1], tail, r) && r.Leaf?
    requires forall s :: 0 <= s < |u| - 1 ==> p[u[s]].bits == l
    requires |pre[u[|u| - 1]]| + p[u[|u| - 1]].bits <= |x| && pre[u[|u| - 1]] + tail <= x
    ensures Walk(p', 0, 0, x) == Got(r.e, r.n, |pre[u[|u| - 1]]| + r.b)
  {
    hide ToBits, FromBits, Pow2, NextOnStack, LinkOk, Walk;
    var q := u[|u| - 1];
    FilledStacked(p, p', pre, u, l, tail, r);
    StackRises(p, pre, u, l, |u| - 1);
    WalkToStack(p', pre, u, l, |u| - 1, x);
    FilledEntry(p, p', q, tail, r, |pre[q]|, x);
  }

  lemma FilledEntry(p: Pool, p': Pool, q: nat, tail: seq<bool>, r: Entry, w: nat, x: seq<bool>)
    requires q < |p| == |p'| && Filled(p, p', q, tail, r) && r.Leaf? && |p[q].entries| == Pow2(p[q].bits)
    requires w + p[q].bits <= |x| && tail == x[w..w + |tail|]
    ensures Walk(p', q, w, x) == Got(r.e, r.n, w + r.b)
  {
    hide ToBits, FromBits, Pow2;
    var s := x[w..w + p[q].bits];
    IndexTail(s, |tail|);
    assert s[..|tail|] == tail;
    assert FromBits(s) < |p'[q].entries|;
  }

  // ----- adding a table

  function EmptyTable(bits: nat): Table {
    Table(bits, seq(Pow2(bits), _ => Unset))
  }

  /** A new table of j bits, linked from entry i of table q, at b bits into that table. */
  function Grown(p: Pool, q: nat, b: nat, i: nat, j: nat): Pool
    requires q < |p| && i < |p[q].entries|
  {
    p[q := p[q].(entries := p[q].entries[i := Link(b, j, |p|)])] + [EmptyTable(j)]
  }

  lemma GrownLinked(p: Pool, pre: seq<seq<bool>>, l: nat, q: nat, j: nat, pfx: seq<bool>)
    requires Linked(p, pre, l) && q < |p| && pre[q] <= pfx && |pfx| == |pre[q]| + l && l <= p[q].bits
    ensures
      var tail := pfx[|pre[q]|..];
      && FromBits(tail) < |p[q].entries|
      && Linked(Grown(p, q, l, FromBits(tail), j), pre + [pfx], l)
      && ChangedAt(p, Grown(p, q, l, FromBits(tail), j), q, tail)
  {
    hide FromBits, ToBits, Pow2;
    var tail := pfx[|pre[q]|..];
    IndexFits(tail, p[q]);
    var i := FromBits(tail);
    var p', pre' := Grown(p, q, l, i, j), pre + [pfx];
    ToFrom(tail);
    assert pfx == pre[q] + tail;
    forall t, n | 0 <= t < |p'| && 0 <= n < |p'[t].entries| && p'[t].entries[n].Link?
      ensures LinkOk(p', pre', l, t, n)
    {
      if t < |p| && !(t == q && n == i) {
        assert LinkOk(p, pre, l, t, n);
      }
    }
    forall n | 0 <= n < |p[q].entries| && ToBits(n, |tail|) != tail
      ensures p'[q].entries[n] == p[q].entries[n]
    {
    }
  }

  lemma GrownStacked(p: Pool, pre: seq<seq<bool>>, u: seq<nat>, l: nat, j: nat, pfx: seq<bool>)
    requires Linked(p, pre, l) && Stacked(p, pre, u, l) && p[u[|u| - 1]].bits >= l
    requires pre[u[|u| - 1]] <= pfx && |pfx| == |pre[u[|u| - 1]]| + l
    ensures
      var q := u[|u| - 1];
      && FromBits(pfx[|pre[q]|..]) < |p[q].entries|
      && Stacked(Grown(p, q, l, FromBits(pfx[|pre[q]|..]), j), pre + [pfx], u + [|p|], l)
  {
    hide FromBits, Pow2;
    var q := u[|u| - 1];
    IndexFits(pfx[|pre[q]|..], p[q]);
    var i := FromBits(pfx[|pre[q]|..]);
    var p', pre', u' := Grown(p, q, l, i, j), pre + [pfx], u + [|p|];
    StackRises(p, pre, u, l, |u| - 1);
    forall t | 0 <= t < |u'| - 1
      ensures NextOnStack(p', pre', u', l, t)
    {
      if t < |u| - 1 {
        assert NextOnStack(p, pre, u, l, t);
      }
    }
  }
}
