/** The meaning of literal and match tokens (section 3.2.3 of RFC 1951). */
module Lz77 {
  const MIN_MATCH: nat := 3
  const MAX_MATCH: nat := 258
  const WSIZE: nat := 0x8000

  datatype Token<T> = Literal(value: T) | Match(dist: nat, len: nat)

  /** n bytes are appended, each a copy of the one d places back. */
  function CopyBack<T>(out: seq<T>, d: nat, n: nat): (r: seq<T>)
    requires 1 <= d <= |out|
    ensures |r| == |out| + n && r[..|out|] == out
    decreases n
  {
    if n == 0 then out else CopyBack(out + [out[|out| - d]], d, n - 1)
  }

  predicate Applies<T>(out: seq<T>, t: Token<T>) {
    t.Match? ==> 1 <= t.dist <= WSIZE && t.dist <= |out| && MIN_MATCH <= t.len <= MAX_MATCH
  }

  function Apply<T>(out: seq<T>, t: Token<T>): seq<T>
    requires Applies(out, t)
  {
    match t
    case Literal(b) => out + [b]
    case Match(d, n) => CopyBack(out, d, n)
  }

  /** Every match lies within the output so far and within the limits of the format. */
  predicate Legal<T>(ts: seq<Token<T>>)
    decreases |ts|, 0
  {
    ts == [] || (Legal(ts[..|ts| - 1]) && Applies(Expand(ts[..|ts| - 1]), ts[|ts| - 1]))
  }

  function Expand<T>(ts: seq<Token<T>>): seq<T>
    requires Legal(ts)
    decreases |ts|, 1
  {
    if ts == [] then [] else Apply(Expand(ts[..|ts| - 1]), ts[|ts| - 1])
  }

  lemma ExpandAppend<T>(ts: seq<Token<T>>, t: Token<T>)
    requires Legal(ts) && Applies(Expand(ts), t)
    ensures Legal(ts + [t]) && Expand(ts + [t]) == Apply(Expand(ts), t)
  {
    assert (ts + [t])[..|ts|] == ts;
  }

  /** The n bytes from p on repeat those d places before. */
  ghost predicate Repeats<T>(data: seq<T>, p: nat, d: nat, n: nat)
    requires 1 <= d <= p && p + n <= |data|
  {
    forall i :: p <= i < p + n ==> data[i] == data[i - d]
  }

  /** Copying a repeat continues the data it is a repeat of. */
  lemma {:induction false} CopyRepeat<T>(data: seq<T>, p: nat, d: nat, n: nat)
    requires 1 <= d <= p && p + n <= |data| && Repeats(data, p, d, n)
    ensures CopyBack(data[..p], d, n) == data[..p + n]
    decreases n
  {
    if n > 0 {
      assert data[p] == data[p - d];
      assert data[..p] + [data[..p][p - d]] == data[..p + 1];
      CopyRepeat(data, p + 1, d, n - 1);
    }
  }

  /** A token that spells the data from p on extends a token list that spells it up to p. */
  lemma ExtendLiteral<T>(ts: seq<Token<T>>, data: seq<T>, p: nat)
    requires Legal(ts) && p < |data| && Expand(ts) == data[..p]
    ensures Legal(ts + [Literal(data[p])]) && Expand(ts + [Literal(data[p])]) == data[..p + 1]
  {
    ExpandAppend(ts, Literal(data[p]));
  }

  lemma ExtendMatch<T>(ts: seq<Token<T>>, data: seq<T>, p: nat, d: nat, n: nat)
    requires Legal(ts) && p + n <= |data| && Expand(ts) == data[..p]
    requires 1 <= d <= p && d <= WSIZE && MIN_MATCH <= n <= MAX_MATCH && Repeats(data, p, d, n)
    ensures Legal(ts + [Match(d, n)]) && Expand(ts + [Match(d, n)]) == data[..p + n]
  {
    ExpandAppend(ts, Match(d, n));
    CopyRepeat(data, p, d, n);
  }
}
