/** longest_match of deflate.c in a plain form: every candidate on the chain is compared byte by byte. */
module LongestMatch {
  import opened Lz77
  import opened HashChains

  /** The number of equal bytes at m and s, from the k-th on, at most MAX_MATCH. */
  function MatchLen(w: seq<bv8>, m: nat, s: nat, k: nat): (n: nat)
    requires m < s && s + MAX_MATCH <= |w| && k <= MAX_MATCH
    ensures k <= n <= MAX_MATCH && Repeats(w, s + k, s - m, n - k)
    ensures n < MAX_MATCH ==> w[m + n] != w[s + n]
    decreases MAX_MATCH - k
  {
    if k == MAX_MATCH || w[m + k] != w[s + k] then k else MatchLen(w, m, s, k + 1)
  }

  datatype Best = Best(len: nat, start: nat)

  /** The parameters of a search that do not change along the chain. */
  datatype Query = Query(w: seq<bv8>, prev: seq<nat>, s: nat, limit: nat, nice: nat)

  ghost predicate Searchable(q: Query) {
    && |q.w| == WINDOW_SIZE && |q.prev| == WSIZE && q.s + MIN_LOOKAHEAD <= |q.w|
    && q.limit == if q.s > MAX_DIST then q.s - MAX_DIST else NIL
  }

  /** At most `chain` candidates are looked at, from `cur` on; a longer match replaces a shorter one; a match of length
      `nice` ends the search. */
  ghost function Search(q: Query, cur: nat, chain: nat, best: Best): Best
    requires Searchable(q) && cur < q.s
    decreases chain
  {
    if chain == 0 then best
    else
      var n := MatchLen(q.w, cur, q.s, 0);
      var best' := if n > best.len then Best(n, cur) else best;
      var next := q.prev[Slot(cur)];
      if (n > best.len && n >= q.nice) || next <= q.limit || next >= q.s then best'
      else Search(q, next, chain - 1, best')
  }

  lemma SearchStep(q: Query, cur: nat, chain: nat, best: Best)
    requires Searchable(q) && cur < q.s && chain > 0
    ensures
      var n := MatchLen(q.w, cur, q.s, 0);
      var best' := if n > best.len then Best(n, cur) else best;
      var next := q.prev[Slot(cur)];
      Search(q, cur, chain, best) ==
        if (n > best.len && n >= q.nice) || next <= q.limit || next >= q.s then best'
        else Search(q, next, chain - 1, best')
  {
    hide MatchLen;
  }

  lemma SearchEnds(q: Query, cur: nat, best: Best)
    requires Searchable(q) && cur < q.s
    ensures Search(q, cur, 0, best) == best
  {
  }

  /** cur is a position with the hash of the string at s and near enough to be matched. */
  ghost predicate Candidate(q: Query, dict: set<nat>, cur: nat)
    requires Searchable(q)
  {
    cur in dict && NIL < cur < q.s && q.s - cur <= MAX_DIST && HashAt(q.w, cur) == HashAt(q.w, q.s)
  }

  /** Within reach, chains lead from candidate to older candidate. */
  lemma NextCandidate(q: Query, head: seq<nat>, dict: set<nat>, cur: nat)
    requires Searchable(q) && ChainsOk(q.w, head, q.prev, dict, q.s + 1) && Candidate(q, dict, cur)
    requires q.prev[Slot(cur)] > q.limit
    ensures q.prev[Slot(cur)] < cur && Candidate(q, dict, q.prev[Slot(cur)])
  {
    assert LinkOk(q.w, dict, q.s + 1, cur, q.prev[Slot(cur)]);
  }

  /** One round of the search, after a comparison that gave len, or something not above the best length. */
  lemma SearchRound(q: Query, head: seq<nat>, dict: set<nat>, cur: nat, chain: nat, best: Best, len: nat)
    requires Searchable(q) && ChainsOk(q.w, head, q.prev, dict, q.s + 1) && Candidate(q, dict, cur) && chain > 0
    requires var n := MatchLen(q.w, cur, q.s, 0); if len > best.len then len == n else n <= best.len
    ensures
      var best' := if len > best.len then Best(len, cur) else best;
      var next := q.prev[Slot(cur)];
      var all := Search(q, cur, chain, best);
      if (len > best.len && len >= q.nice) || next <= q.limit then all == best'
      else Candidate(q, dict, next) && all == if chain == 1 then best' else Search(q, next, chain - 1, best')
  {
    hide MatchLen, ChainsOk, HashAt, Search;
    SearchStep(q, cur, chain, best);
    var next := q.prev[Slot(cur)];
    if next > q.limit {
      NextCandidate(q, head, dict, cur);
      if chain == 1 {
        SearchEnds(q, next, if len > best.len then Best(len, cur) else best);
      }
    }
  }

  /** A result that beats `best` is a true match within MAX_DIST. */
  ghost predicate Found(q: Query, best: Best, r: Best)
    requires Searchable(q)
  {
    && (r.len <= best.len ==> r == best)
    && (r.len > best.len ==>
          && NIL < r.start < q.s && q.s - r.start <= MAX_DIST && r.len <= MAX_MATCH
          && Repeats(q.w, q.s, q.s - r.start, r.len))
  }

  lemma {:induction false} SearchFinds(q: Query, head: seq<nat>, dict: set<nat>, cur: nat, chain: nat, best: Best)
    requires Searchable(q) && ChainsOk(q.w, head, q.prev, dict, q.s + 1) && Candidate(q, dict, cur)
    ensures Found(q, best, Search(q, cur, chain, best))
    decreases chain
  {
    hide ChainsOk, HashAt, MatchLen, Repeats;
    if chain > 0 {
      var n := MatchLen(q.w, cur, q.s, 0);
      var best' := if n > best.len then Best(n, cur) else best;
      var next := q.prev[Slot(cur)];
      if next > q.limit {
        NextCandidate(q, head, dict, cur);
        SearchFinds(q, head, dict, next, chain - 1, best');
      }
    }
  }

  /** The first n positions of the hash chain from cur on, as far as they are within the limit. */
  ghost function Chain(q: Query, cur: nat, n: nat): (cs: seq<nat>)
    requires Searchable(q) && cur < q.s
    ensures |cs| <= n && forall i :: 0 <= i < |cs| ==> cs[i] < q.s
    decreases n
  {
    if n == 0 then []
    else
      var next := q.prev[Slot(cur)];
      [cur] + if next <= q.limit || next >= q.s then [] else Chain(q, next, n - 1)
  }

  ghost function LenAt(q: Query, m: nat): nat
    requires Searchable(q) && m < q.s
  {
    MatchLen(q.w, m, q.s, 0)
  }

  /** The result is at least as long as the best before and as every match in cs; it is the best before, or the first of
      the longest of them. */
  ghost predicate IsBest(q: Query, cs: seq<nat>, best: Best, r: Best)
    requires Searchable(q) && forall i :: 0 <= i < |cs| ==> cs[i] < q.s
  {
    && r.len >= best.len && (forall i :: 0 <= i < |cs| ==> LenAt(q, cs[i]) <= r.len)
    && (r == best
        || (r.len > best.len
            && exists k :: 0 <= k < |cs| && r == Best(LenAt(q, cs[k]), cs[k])
                 && forall i :: 0 <= i < k ==> LenAt(q, cs[i]) < r.len))
  }

  /** The search looks along the chain, up to its end or up to a match of the nice length, and finds the best match on
      the way. */
  lemma {:induction false} SearchIsBest(q: Query, cur: nat, chain: nat, best: Best) returns (k: nat)
    requires Searchable(q) && cur < q.s
    ensures
      var cs, r := Chain(q, cur, chain), Search(q, cur, chain, best);
      && k <= |cs| && IsBest(q, cs[..k], best, r)
      && (k < |cs| ==> k > 0 && r == Best(LenAt(q, cs[k - 1]), cs[k - 1]) && r.len >= q.nice)
    decreases chain
  {
    hide MatchLen, Slot, Search, Chain, IsBest, Searchable;
    ChainStep(q, cur, chain);
    if chain == 0 {
      k := 0;
      SearchEnds(q, cur, best);
      BestOfNone(q, best);
    } else {
      var n := LenAt(q, cur);
      var best' := if n > best.len then Best(n, cur) else best;
      var next := q.prev[Slot(cur)];
      SearchStep(q, cur, chain, best);
      if (n > best.len && n >= q.nice) || next <= q.limit || next >= q.s {
        k := 1;
        assert Chain(q, cur, chain)[..1] == [cur];
        BestOfNone(q, best');
        BestOfMore(q, cur, [], best, best');
        assert [cur] + [] == [cur];
      } else {
        var j := SearchIsBest(q, next, chain - 1, best');
        k := j + 1;
        var more := Chain(q, next, chain - 1);
        BestOfMore(q, cur, more[..j], best, Search(q, next, chain - 1, best'));
        assert Chain(q, cur, chain)[..k] == [cur] + more[..j];
        assert j > 0 ==> Chain(q, cur, chain)[k - 1] == more[j - 1];
      }
    }
  }

  lemma ChainStep(q: Query, cur: nat, n: nat)
    requires Searchable(q) && cur < q.s
    ensures |q.prev| == WSIZE
    ensures n == 0 ==> Chain(q, cur, n) == []
    ensures n > 0 ==>
      var next := q.prev[Slot(cur)];
      Chain(q, cur, n) == [cur] + if next <= q.limit || next >= q.s then [] else Chain(q, next, n - 1)
  {
    hide Slot;
  }

  lemma BestOfNone(q: Query, best: Best)
    requires Searchable(q)
    ensures IsBest(q, [], best, best)
  {
  }

  lemma BestOfMore(q: Query, cur: nat, cs: seq<nat>, best: Best, r: Best)
    requires Searchable(q) && cur < q.s && forall i :: 0 <= i < |cs| ==> cs[i] < q.s
    requires IsBest(q, cs, if LenAt(q, cur) > best.len then Best(LenAt(q, cur), cur) else best, r)
    ensures IsBest(q, [cur] + cs, best, r)
  {
    hide LenAt;
    var all, n := [cur] + cs, LenAt(q, cur);
    var best' := if n > best.len then Best(n, cur) else best;
    assert all[0] == cur;
    if r != best' {
      var k :| 0 <= k < |cs| && r == Best(LenAt(q, cs[k]), cs[k]) && forall i :: 0 <= i < k ==> LenAt(q, cs[i]) < r.len;
      assert all[k + 1] == cs[k];
      assert forall i :: 0 <= i < k + 1 ==> i == 0 || all[i] == cs[i - 1];
    }
  }
}
