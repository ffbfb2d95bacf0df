/** The hash chains of deflate.c as they stand in the arrays `head` and `prev`, and the search along them in its plain
    form. */
module HashChains {
  import opened Lz77

  const HASH_SIZE: nat := 0x8000
  const WINDOW_SIZE: nat := 2 * WSIZE
  const MIN_LOOKAHEAD: nat := MAX_MATCH + MIN_MATCH + 1
  const MAX_DIST: nat := WSIZE - MIN_LOOKAHEAD
  const NIL: nat := 0

  // ----- the rolling hash

  /** UPDATE_HASH with H_SHIFT 5 and HASH_MASK 0x7FFF. */
  function UpdateHash(h: bv32, c: bv8): bv32 {
    ((h << 5) ^ (c as bv32)) & 0x7FFF
  }

  function Hash3(a: bv8, b: bv8, c: bv8): bv32 {
    UpdateHash(UpdateHash(UpdateHash(0, a), b), c)
  }

  /** h carries the two bytes a and b, so that the next byte completes the hash of three. */
  predicate Carries(h: bv32, a: bv8, b: bv8) {
    (h << 5) & 0x7FFF == (UpdateHash(UpdateHash(0, a), b) << 5) & 0x7FFF
  }

  lemma Rolls(h: bv32, a: bv8, b: bv8, c: bv8)
    requires Carries(h, a, b)
    ensures UpdateHash(h, c) == Hash3(a, b, c) && Carries(UpdateHash(h, c), b, c)
    ensures Bucket(UpdateHash(h, c)) < HASH_SIZE
  {
    RollsBits(h, a, b, c);
    assert UpdateHash(h, c) < 0x8000;
  }

  lemma RollsBits(h: bv32, a: bv8, b: bv8, c: bv8)
    requires Carries(h, a, b)
    ensures UpdateHash(h, c) == Hash3(a, b, c) && Carries(UpdateHash(h, c), b, c)
  {
  }

  lemma CarriesAnew(a: bv8, b: bv8)
    ensures Carries(UpdateHash(UpdateHash(0, a), b), a, b)
    ensures Carries(UpdateHash(a as bv32, b), a, b)
  {
    assert UpdateHash(0, a) == a as bv32;
  }

  /** With 8 or more hash bits, the hash and two bytes determine the third. */
  lemma ThirdByte(a: bv8, b: bv8, c: bv8, c': bv8)
    requires Hash3(a, b, c) == Hash3(a, b, c')
    ensures c == c'
  {
  }

  /** A hash as an index into the array head. */
  function Bucket(x: bv32): nat { x as int }

  lemma SameIndex(x: bv32, y: bv32)
    requires Bucket(x) == Bucket(y)
    ensures x == y
  {
    assert (x as int) as bv32 == x;
    assert (y as int) as bv32 == y;
  }

  // ----- the chains

  /** p & WMASK. */
  function Slot(p: nat): (i: nat)
    ensures i < WSIZE
  {
    p % WSIZE
  }

  lemma SlotsDiffer(p: nat, s: nat)
    requires p < s < p + WSIZE && s < WINDOW_SIZE
    ensures Slot(p) != Slot(s)
  {
  }

  function HashAt(w: seq<bv8>, p: nat): bv32
    requires p + 2 < |w|
  {
    Hash3(w[p], w[p + 1], w[p + 2])
  }

  /** `dict` are the positions that have been inserted, all below `top`. */
  ghost predicate Inserted(w: seq<bv8>, dict: set<nat>, top: nat) {
    forall p :: p in dict ==> p < top && p + 2 < |w|
  }

  ghost predicate HeadOk(w: seq<bv8>, head: seq<nat>, dict: set<nat>) {
    && |head| == HASH_SIZE
    && forall h :: 0 <= h < HASH_SIZE ==>
         head[h] == NIL || (head[h] in dict && head[h] + 2 < |w| && Bucket(HashAt(w, head[h])) == h)
  }

  /** q may follow p on a chain: it ends the chain, or is out of reach, or is an older position with the same hash. */
  ghost predicate LinkOk(w: seq<bv8>, dict: set<nat>, top: nat, p: nat, q: nat)
    requires p + 2 < |w|
  {
    q == NIL || q + WSIZE < top || (q in dict && q < p && HashAt(w, q) == HashAt(w, p))
  }

  ghost predicate PrevOk(w: seq<bv8>, prev: seq<nat>, dict: set<nat>, top: nat) {
    && |prev| == WSIZE
    && forall p :: p in dict && p + 2 < |w| && p + WSIZE >= top ==> LinkOk(w, dict, top, p, prev[Slot(p)])
  }

  ghost predicate ChainsOk(w: seq<bv8>, head: seq<nat>, prev: seq<nat>, dict: set<nat>, top: nat) {
    && |w| == WINDOW_SIZE && top <= |w|
    && Inserted(w, dict, top) && HeadOk(w, head, dict) && PrevOk(w, prev, dict, top)
  }

  lemma InsertKeepsHead(w: seq<bv8>, head: seq<nat>, dict: set<nat>, s: nat)
    requires HeadOk(w, head, dict) && s + 2 < |w| && Bucket(HashAt(w, s)) < HASH_SIZE
    ensures |head| == HASH_SIZE
    ensures
      var h := Bucket(HashAt(w, s));
      && HeadOk(w, head[h := s], dict + {s})
      && (head[h] == NIL || (head[h] in dict && head[h] + 2 < |w| && HashAt(w, head[h]) == HashAt(w, s)))
  {
    hide UpdateHash, Hash3, HashAt, Bucket;
    var q := head[Bucket(HashAt(w, s))];
    if q != NIL {
      SameIndex(HashAt(w, q), HashAt(w, s));
    }
  }

  lemma InsertKeepsPrev(w: seq<bv8>, prev: seq<nat>, dict: set<nat>, top: nat, s: nat, q: nat)
    requires PrevOk(w, prev, dict, top) && Inserted(w, dict, top) && top <= s && s + 2 < |w| == WINDOW_SIZE
    requires q == NIL || (q in dict && q < s && HashAt(w, q) == HashAt(w, s))
    ensures PrevOk(w, prev[Slot(s) := q], dict + {s}, s + 1)
  {
    hide UpdateHash, Hash3, HashAt, Slot;
    forall p | p in dict + {s} && p + 2 < |w| && p + WSIZE >= s + 1
      ensures LinkOk(w, dict + {s}, s + 1, p, prev[Slot(s) := q][Slot(p)])
    {
      if p != s {
        SlotsDiffer(p, s);
        assert LinkOk(w, dict, top, p, prev[Slot(p)]);
      }
    }
  }

  /** INSERT_STRING keeps the chains. */
  lemma InsertKeeps(w: seq<bv8>, head: seq<nat>, prev: seq<nat>, dict: set<nat>, top: nat, s: nat)
    requires ChainsOk(w, head, prev, dict, top) && top <= s && s + 2 < |w| && Bucket(HashAt(w, s)) < HASH_SIZE
    ensures
      var h := Bucket(HashAt(w, s));
      && ChainsOk(w, head[h := s], prev[Slot(s) := head[h]], dict + {s}, s + 1)
      && (head[h] != NIL ==> head[h] in dict && head[h] < s && HashAt(w, head[h]) == HashAt(w, s))
  {
    hide UpdateHash, Hash3, HashAt, Slot, Bucket, PrevOk, HeadOk;
    InsertKeepsHead(w, head, dict, s);
    InsertKeepsPrev(w, prev, dict, top, s, head[Bucket(HashAt(w, s))]);
  }

  /** Skipping positions only puts more of the chains out of reach. */
  lemma TopGrows(w: seq<bv8>, head: seq<nat>, prev: seq<nat>, dict: set<nat>, top: nat, top': nat)
    requires ChainsOk(w, head, prev, dict, top) && top <= top' <= |w|
    ensures ChainsOk(w, head, prev, dict, top')
  {
    hide HashAt, Slot;
    forall p | p in dict && p + 2 < |w| && p + WSIZE >= top'
      ensures LinkOk(w, dict, top', p, prev[Slot(p)])
    {
      assert LinkOk(w, dict, top, p, prev[Slot(p)]);
    }
  }

  /** Bytes behind all inserted strings may change. */
  lemma GrowKeeps(w: seq<bv8>, w': seq<bv8>, head: seq<nat>, prev: seq<nat>, dict: set<nat>, top: nat, e: nat)
    requires ChainsOk(w, head, prev, dict, top) && |w'| == |w| && e <= |w|
    requires forall i :: 0 <= i < e ==> w'[i] == w[i]
    requires forall p :: p in dict ==> p + 3 <= e
    ensures ChainsOk(w', head, prev, dict, top)
  {
    hide UpdateHash, Hash3, Slot;
    assert forall p :: p in dict ==> HashAt(w', p) == HashAt(w, p);
    forall p | p in dict && p + 2 < |w| && p + WSIZE >= top
      ensures LinkOk(w', dict, top, p, prev[Slot(p)])
    {
      assert LinkOk(w, dict, top, p, prev[Slot(p)]);
    }
  }

  /** An entry of head or prev after the window has moved down by WSIZE. */
  function Down(m: nat): nat {
    if m >= WSIZE then m - WSIZE else NIL
  }

  ghost function DownSet(dict: set<nat>): set<nat> {
    set p | p in dict && p >= WSIZE :: p - WSIZE
  }

  /** Moving the upper half of the window down keeps the chains. */
  lemma SlideKeeps(w: seq<bv8>, w': seq<bv8>, head: seq<nat>, head': seq<nat>, prev: seq<nat>, prev': seq<nat>,
                   dict: set<nat>, top: nat)
    requires ChainsOk(w, head, prev, dict, top) && top >= WSIZE
    requires |w'| == |w| && forall i :: 0 <= i < WSIZE ==> w'[i] == w[WSIZE + i]
    requires |head'| == |head| && forall i :: 0 <= i < |head| ==> head'[i] == Down(head[i])
    requires |prev'| == |prev| && forall i :: 0 <= i < |prev| ==> prev'[i] == Down(prev[i])
    ensures ChainsOk(w', head', prev', DownSet(dict), top - WSIZE)
  {
    hide UpdateHash, Hash3;
    forall p | p in dict && p >= WSIZE
      ensures p - WSIZE + 2 < WSIZE && HashAt(w', p - WSIZE) == HashAt(w, p)
    {
      assert w'[p - WSIZE] == w[p] && w'[p - WSIZE + 1] == w[p + 1] && w'[p - WSIZE + 2] == w[p + 2];
    }
    forall p | p in DownSet(dict) && p + 2 < |w'| && p + WSIZE >= top - WSIZE
      ensures LinkOk(w', DownSet(dict), top - WSIZE, p, prev'[Slot(p)])
    {
      assert Slot(p) == Slot(p + WSIZE);
      assert LinkOk(w, dict, top, p + WSIZE, prev[Slot(p + WSIZE)]);
    }
  }
}
