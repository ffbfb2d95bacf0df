/** Canonical Huffman codes (section 3.2.2 of RFC 1951) and the Kraft sum of a list of code lengths. */
module Huffman {
  import opened BitIo

  const BMAX: nat := 16

  /** How many of the lengths equal k. */
  function Count(b: seq<nat>, k: nat): nat {
    if b == [] then 0 else Count(b[..|b| - 1], k) + if b[|b| - 1] == k then 1 else 0
  }

  /** The Kraft sum of the codes of length at most k, in units of 2^-k. */
  function Kraft(b: seq<nat>, k: nat): nat {
    if k == 0 then 0 else 2 * Kraft(b, k - 1) + Count(b, k)
  }

  /** The code of the first symbol of length k: `next_code` of the RFC. */
  function FirstCode(b: seq<nat>, k: nat): nat {
    if k <= 1 then 0 else 2 * (FirstCode(b, k - 1) + Count(b, k - 1))
  }

  function CodeOf(b: seq<nat>, s: nat): nat
    requires s < |b|
  {
    FirstCode(b, b[s]) + Count(b[..s], b[s])
  }

  /** The bits of the code of s in the order in which they are sent. */
  function CodeBits(b: seq<nat>, s: nat): (c: seq<bool>)
    requires s < |b|
    ensures |c| == b[s]
  {
    MsbBits(CodeOf(b, s), b[s])
  }

  /** The symbol of length k that has r symbols of length k before it. */
  ghost predicate IsNth(b: seq<nat>, k: nat, r: nat, s: nat) {
    s < |b| && b[s] == k && Count(b[..s], k) == r
  }

  lemma {:induction false} KraftIsFirst(b: seq<nat>, k: nat)
    requires k >= 1
    ensures Kraft(b, k) == FirstCode(b, k) + Count(b, k)
  {
    if k > 1 {
      KraftIsFirst(b, k - 1);
    }
  }

  lemma {:induction false} CountGrows(b: seq<nat>, i: nat, j: nat, k: nat)
    requires i <= j <= |b|
    ensures Count(b[..i], k) <= Count(b[..j], k)
    decreases j
  {
    if i < j {
      assert b[..j][..j - 1] == b[..j - 1];
      CountGrows(b, i, j - 1, k);
    }
  }

  lemma CountBefore(b: seq<nat>, s: nat, j: nat)
    requires s < j <= |b|
    ensures Count(b[..s], b[s]) < Count(b[..j], b[s])
  {
    assert b[..s + 1][..s] == b[..s];
    CountGrows(b, s + 1, j, b[s]);
  }

  lemma NthUnique(b: seq<nat>, k: nat, r: nat, s: nat, s': nat)
    requires IsNth(b, k, r, s) && IsNth(b, k, r, s')
    ensures s == s'
  {
    if s < s' {
      CountBefore(b, s, s');
    } else if s' < s {
      CountBefore(b, s', s);
    }
  }

  /** Codes fit into their length unless the lengths are oversubscribed. */
  lemma CodeFits(b: seq<nat>, s: nat)
    requires s < |b| && b[s] >= 1 && Kraft(b, b[s]) <= Pow2(b[s])
    ensures CodeOf(b, s) < Pow2(b[s]) && Msb(CodeBits(b, s)) == CodeOf(b, s)
  {
    KraftIsFirst(b, b[s]);
    CountBefore(b, s, |b|);
    assert b[..|b|] == b;
    MsbOfBits(CodeOf(b, s), b[s]);
  }

  lemma {:induction false} LaterFirst(b: seq<nat>, k: nat, j: nat)
    requires k >= 1 && j >= 1
    ensures FirstCode(b, k + j) >= Pow2(j) * (FirstCode(b, k) + Count(b, k))
    decreases j
  {
    if j == 1 {
      assert Pow2(1) == 2;
    } else {
      LaterFirst(b, k, j - 1);
      Twice(Pow2(j - 1), FirstCode(b, k) + Count(b, k));
    }
  }

  /** The two rules of section 3.2.2 of RFC 1951: codes of the same length are consecutive, in the order of the symbols;
      and shorter codes come before longer ones. */
  lemma Canonical(b: seq<nat>, s: nat, s': nat)
    requires s < |b| && s' < |b| && b[s] >= 1
    ensures b[s] == b[s'] && s < s' ==> CodeOf(b, s') == CodeOf(b, s) + Count(b[s..s'], b[s]) > CodeOf(b, s)
    ensures b[s] < b[s'] ==> CodeOf(b, s') >= Pow2(b[s'] - b[s]) * (CodeOf(b, s) + 1)
  {
    hide Pow2;
    if b[s] == b[s'] && s < s' {
      assert b[..s'] == b[..s] + b[s..s'];
      CountJoined(b[..s], b[s..s'], b[s]);
      CountBefore(b, s, s');
    }
    if b[s] < b[s'] {
      LaterFirst(b, b[s], b[s'] - b[s]);
      CountBefore(b, s, |b|);
      assert b[..|b|] == b;
      Larger(Pow2(b[s'] - b[s]), CodeOf(b, s) + 1, FirstCode(b, b[s]) + Count(b, b[s]));
    }
  }

  lemma Larger(p: nat, x: nat, y: nat)
    requires x <= y
    ensures p * x <= p * y
  {
  }

  lemma {:induction false} CountJoined(a: seq<nat>, b: seq<nat>, k: nat)
    ensures Count(a + b, k) == Count(a, k) + Count(b, k)
  {
    if b == [] {
      assert a + b == a;
    } else {
      assert (a + b)[..|a + b| - 1] == a + b[..|b| - 1];
      CountJoined(a, b[..|b| - 1], k);
    }
  }

  /** Once oversubscribed, always oversubscribed. */
  lemma {:induction false} KraftExceeds(b: seq<nat>, k: nat, g: nat)
    requires k <= g && Kraft(b, g) <= Pow2(g)
    ensures Kraft(b, k) <= Pow2(k)
    decreases g
  {
    if k < g {
      KraftExceeds(b, k, g - 1);
    }
  }
}
