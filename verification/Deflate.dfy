/** The compressor of deflate.c up to the tokens it hands to ct_tally and the blocks it flushes. */
module Deflate {
  import opened Common
  import opened Lz77
  import opened HashChains
  import opened LongestMatch

  const TOO_FAR: nat := 4096

  datatype Config = Config(goodLength: nat, maxLazy: nat, niceLength: nat, maxChain: nat)

  const CONFIGURATION_TABLE: seq<Config> := [
    Config(0, 0, 0, 0),
    Config(4, 4, 8, 4), Config(4, 5, 16, 8), Config(4, 6, 32, 32),
    Config(4, 4, 16, 16), Config(8, 16, 32, 32), Config(8, 16, 128, 128),
    Config(8, 32, 128, 256), Config(32, 128, 258, 1024), Config(32, 258, 258, 4096)]

  /** A 32-bit unsigned variable, and the value of x in one. */
  type UInt = x: nat | x < 0x1_0000_0000

  function U32(x: int): UInt { x % 0x1_0000_0000 }

  lemma U32Sub(x: int, y: int)
    ensures U32(U32(x) - y) == U32(x - y) && U32(y - U32(x)) == U32(y - x)
    ensures 0 <= x < 0x1_0000_0000 ==> U32(x) == x
  {
  }

  /** What flush_block gets: the tokens tallied since the last flush, the bytes they stand for as far as they are still
      in the window, the number of these bytes, and the end-of-file flag. */
  datatype Block = Block(tokens: seq<Token<bv8>>, buf: Option<seq<bv8>>, len: int, eof: bool)

  function Tokens(bs: seq<Block>): seq<Token<bv8>> {
    if bs == [] then [] else Tokens(bs[..|bs| - 1]) + bs[|bs| - 1].tokens
  }

  /** The blocks cut input[..end] into pieces, and each of them spells its piece. */
  ghost predicate BlocksSpell(bs: seq<Block>, input: seq<bv8>, end: int) {
    && 0 <= end <= |input| && Legal(Tokens(bs)) && Expand(Tokens(bs)) == input[..end]
    && (bs != [] ==>
          var b := bs[|bs| - 1];
          && 0 <= b.len <= end && BlocksSpell(bs[..|bs| - 1], input, end - b.len)
          && (b.buf.Some? ==> b.buf.value == input[end - b.len..end]))
  }

  lemma BlockAdded(bs: seq<Block>, b: Block, input: seq<bv8>, end: int, end': int)
    requires BlocksSpell(bs, input, end) && end <= end' <= |input|
    requires Legal(Tokens(bs) + b.tokens) && Expand(Tokens(bs) + b.tokens) == input[..end']
    requires b.len == end' - end && (b.buf.Some? ==> b.buf.value == input[end..end'])
    ensures BlocksSpell(bs + [b], input, end') && Tokens(bs + [b]) == Tokens(bs) + b.tokens
  {
    assert (bs + [b])[..|bs|] == bs;
  }

  lemma NothingSpelt(input: seq<bv8>)
    ensures BlocksSpell([], input, 0) && Legal(Tokens([]) + []) && Expand(Tokens([]) + []) == input[..0]
  {
  }

  class Compressor {
    const input: seq<bv8>          // the file; read_buf delivers it in pieces
    var inPos: nat
    const window: array<bv8>
    const prev: array<nat>
    const head: array<nat>
    var strstart: nat
    var lookahead: nat
    var eofile: bool
    var insH: bv32
    var matchStart: UInt
    var prevLength: nat
    var blockStart: int
    var config: Config
    var comprLevel: nat
    var tally: seq<Token<bv8>>     // the tokens in trees.c since the last flush
    var blocks: seq<Block>
    ghost var base: nat            // how many bytes have been moved out of the window
    ghost var dict: set<nat>       // the positions inserted into the hash chains

    ghost predicate Layout() {
      window.Length == WINDOW_SIZE && prev.Length == WSIZE && head.Length == HASH_SIZE && prev != head
    }

    /** The window holds input[base..base + e], which is all that has been read. */
    ghost predicate Data(e: nat)
      reads this`base, this`inPos, this`eofile, window
    {
      && Layout() && e <= WINDOW_SIZE && base + e == inPos <= |input|
      && (forall i :: 0 <= i < e ==> window[i] == input[base + i])
      && (eofile ==> inPos == |input| && e + 2 <= WINDOW_SIZE)
    }

    /** The chains hold positions below `top`, each with its three bytes read unless the file is at its end. */
    ghost predicate Dict(top: nat, e: nat)
      reads this`dict, this`eofile, window, prev, head
    {
      && Layout() && ChainsOk(window[..], head[..], prev[..], dict, top)
      && (!eofile ==> forall p :: p in dict ==> p + 3 <= e)
    }

    /** The rolling hash is ready for the string at s. */
    ghost predicate HashReady(s: nat)
      reads this`insH, window
    {
      s + 2 < window.Length && Carries(insH, window[s], window[s + 1])
    }

    /** The tokens so far spell the input up to `end`, and the flushed blocks are pieces of it. */
    ghost predicate Spelt(end: int)
      reads this`base, this`blockStart, this`blocks, this`tally
    {
      && 0 <= end <= |input| && BlocksSpell(blocks, input, base + blockStart)
      && Legal(Tokens(blocks) + tally) && Expand(Tokens(blocks) + tally) == input[..end]
      && 0 <= base + blockStart <= end
    }

    // ----- ct_tally, flush_block, read_buf

    /** ct_tally: the token is recorded; the answer is trees.c's own business. */
    method Tally(t: Token<bv8>) returns (flush: bool)
      modifies this`tally
      ensures tally == old(tally) + [t]
    {
      tally := tally + [t];
      flush := *;
    }

    /** FLUSH_BLOCK followed by the assignment to block_start. */
    method FlushBlock(eof: bool, ghost e: nat)
      requires Data(e) && strstart <= e && Spelt(base + strstart)
      modifies this`blocks, this`tally, this`blockStart
      ensures Spelt(base + strstart) && blockStart == strstart && tally == []
      ensures |blocks| == |old(blocks)| + 1 && blocks[..|old(blocks)|] == old(blocks)
      ensures blocks[|old(blocks)|].eof == eof
    {
      hide Legal, Expand, Tokens, BlocksSpell;
      var buf := if blockStart >= 0 then Some(window[blockStart..strstart]) else None;
      var b := Block(tally, buf, strstart - blockStart, eof);
      assert blockStart >= 0 ==> window[blockStart..strstart] == input[base + blockStart..base + strstart];
      BlockAdded(blocks, b, input, base + blockStart, base + strstart);
      blocks := blocks + [b];
      tally := [];
      blockStart := strstart;
      assert Tokens(blocks) + tally == Tokens(blocks);
    }

    /** read_buf: any number of bytes up to `size`, and none only at the end of the file. */
    method ReadBuf(at: nat, size: nat) returns (n: nat)
      requires Layout() && at + size <= window.Length && size > 0 && inPos <= |input|
      modifies window, this`inPos
      ensures n <= size && inPos == old(inPos) + n <= |input| && (n == 0 <==> old(inPos) == |input|)
      ensures forall i :: 0 <= i < at ==> window[i] == old(window[i])
      ensures forall i :: at <= i < at + n ==> window[i] == input[old(inPos) + (i - at)]
    {
      if inPos == |input| {
        return 0;
      }
      n :| 0 < n <= size && inPos + n <= |input|;
      for k := 0 to n
        invariant inPos == old(inPos)
        invariant forall i :: 0 <= i < at ==> window[i] == old(window[i])
        invariant forall i :: at <= i < at + k ==> window[i] == input[inPos + (i - at)]
      {
        window[at + k] := input[inPos + k];
      }
      inPos := inPos + n;
    }

    // ----- the hash chains

    /** UPDATE_HASH and INSERT_STRING: returns the previous head of the chain. */
    method InsertString(s: nat, ghost top: nat, ghost e: nat) returns (matchHead: nat)
      requires Dict(top, e) && top <= s && HashReady(s) && (!eofile ==> s + 3 <= e)
      modifies this`insH, this`dict, prev, head
      ensures Dict(s + 1, e) && dict == old(dict) + {s}
      ensures Carries(insH, window[s + 1], window[s + 2])
      ensures matchHead != NIL ==>
        matchHead in dict && matchHead < s && HashAt(window[..], matchHead) == HashAt(window[..], s)
    {
      hide UpdateHash, Hash3, Carries, ChainsOk;
      Rolls(insH, window[s], window[s + 1], window[s + 2]);
      insH := UpdateHash(insH, window[s + 2]);
      InsertKeeps(window[..], head[..], prev[..], dict, top, s);
      matchHead := head[Bucket(insH)];
      prev[s % WSIZE] := matchHead;
      head[Bucket(insH)] := s;
      dict := dict + {s};
      assert prev[..] == old(prev[..])[Slot(s) := matchHead];
      assert head[..] == old(head[..])[Bucket(HashAt(window[..], s)) := s];
    }

    // ----- fill_window

    /** The upper half of the window moves down; positions in all tables move with it. */
    method Slide(ghost e: nat)
      requires Data(e) && Dict(strstart, e) && !eofile && WSIZE <= strstart <= e
      modifies window, prev, head, this`matchStart, this`strstart, this`blockStart, this`base, this`dict
      ensures base == old(base) + WSIZE && strstart == old(strstart) - WSIZE
      ensures blockStart == old(blockStart) - WSIZE && matchStart == U32(old(matchStart) - WSIZE)
      ensures Data(e - WSIZE) && Dict(strstart, e - WSIZE)
      ensures forall i :: 0 <= i < WSIZE ==> window[i] == old(window[WSIZE + i])
    {
      hide ChainsOk;
      ghost var w, h, p := window[..], head[..], prev[..];
      for i := 0 to WSIZE
        invariant forall j :: 0 <= j < i ==> window[j] == w[WSIZE + j]
        invariant forall j :: WSIZE <= j < WINDOW_SIZE ==> window[j] == w[j]
        modifies window
      {
        window[i] := window[WSIZE + i];
      }
      matchStart := U32(matchStart - WSIZE);
      strstart := strstart - WSIZE;
      blockStart := blockStart - WSIZE;
      for n := 0 to HASH_SIZE
        invariant forall j :: 0 <= j < n ==> head[j] == Down(h[j])
        invariant forall j :: n <= j < HASH_SIZE ==> head[j] == h[j]
        modifies head
      {
        var m := head[n];
        head[n] := if m >= WSIZE then m - WSIZE else NIL;
      }
      for n := 0 to WSIZE
        invariant forall j :: 0 <= j < n ==> prev[j] == Down(p[j])
        invariant forall j :: n <= j < WSIZE ==> prev[j] == p[j]
        modifies prev
      {
        var m := prev[n];
        prev[n] := if m >= WSIZE then m - WSIZE else NIL;
      }
      SlideKeeps(w, window[..], h, head[..], p, prev[..], dict, old(strstart));
      dict := DownSet(dict);
      base := base + WSIZE;
    }

    /** The second half of fill_window: reading behind the data in the window. */
    method ReadMore(more: nat, ghost e: nat) returns (ghost e': nat)
      requires Data(e) && Dict(strstart, e) && !eofile && strstart + lookahead == e
      requires more == WINDOW_SIZE - e && more >= 2
      modifies window, this`lookahead, this`eofile, this`inPos
      ensures Data(e') && Dict(strstart, e') && strstart + lookahead == e'
      ensures if eofile then lookahead == old(lookahead) else lookahead > old(lookahead) && inPos > old(inPos)
      ensures forall i :: 0 <= i < e ==> window[i] == old(window[i])
    {
      hide ChainsOk;
      ghost var w := window[..];
      var n := ReadBuf(strstart + lookahead, more);
      if n == 0 {
        eofile := true;
        window[strstart + lookahead] := 0;
        window[strstart + lookahead + 1] := 0;
      } else {
        lookahead := lookahead + n;
      }
      GrowKeeps(w, window[..], head[..], prev[..], dict, strstart, e);
      e' := e + n;
    }

    /** `at` is the absolute position that match_start stands for. */
    method FillWindow(ghost e: nat, ghost at: int) returns (ghost e': nat)
      requires Data(e) && Dict(strstart, e) && !eofile && strstart + lookahead == e && lookahead < MIN_LOOKAHEAD
      requires matchStart == U32(at - base)
      modifies window, prev, head
      modifies this`matchStart, this`strstart, this`blockStart, this`base, this`dict
      modifies this`lookahead, this`eofile, this`inPos
      ensures Data(e') && Dict(strstart, e') && strstart + lookahead == e' && matchStart == U32(at - base)
      ensures base + strstart == old(base + strstart) && base + blockStart == old(base + blockStart)
      ensures if eofile then lookahead == old(lookahead) else lookahead > old(lookahead) && inPos > old(inPos)
      ensures old(strstart) >= 1 ==> strstart >= 1
      ensures old(lookahead) >= 2 ==>
        window[strstart] == old(window[strstart]) && window[strstart + 1] == old(window[strstart + 1])
    {
      hide ChainsOk, U32;
      U32Sub(at - base, WSIZE);
      var more := WINDOW_SIZE - lookahead - strstart;
      e' := e;
      if strstart >= WSIZE + MAX_DIST {
        Slide(e);
        e' := e - WSIZE;
        more := more + WSIZE;
      }
      e' := ReadMore(more, e');
    }

    /** The loop `while (lookahead < MIN_LOOKAHEAD && !eofile) fill_window();` */
    method Refill(ghost e: nat, ghost at: int) returns (ghost e': nat)
      requires Data(e) && Dict(strstart, e) && strstart + lookahead == e && matchStart == U32(at - base)
      requires (lookahead > 0 ==> HashReady(strstart)) && (!eofile ==> lookahead >= 2)
      modifies window, prev, head
      modifies this`matchStart, this`strstart, this`blockStart, this`base, this`dict
      modifies this`lookahead, this`eofile, this`inPos
      ensures Data(e') && Dict(strstart, e') && strstart + lookahead == e' && matchStart == U32(at - base)
      ensures (lookahead > 0 ==> HashReady(strstart)) && (eofile || lookahead >= MIN_LOOKAHEAD)
      ensures base + strstart == old(base + strstart) && base + blockStart == old(base + blockStart)
      ensures lookahead >= old(lookahead) && (old(strstart) >= 1 ==> strstart >= 1)
    {
      hide ChainsOk, Carries, U32;
      e' := e;
      while lookahead < MIN_LOOKAHEAD && !eofile
        invariant Data(e') && Dict(strstart, e') && strstart + lookahead == e' && matchStart == U32(at - base)
        invariant (lookahead > 0 ==> HashReady(strstart)) && (!eofile ==> lookahead >= 2)
        invariant base + strstart == old(base + strstart) && base + blockStart == old(base + blockStart)
        invariant lookahead >= old(lookahead) && (old(strstart) >= 1 ==> strstart >= 1)
        decreases |input| - inPos, !eofile
      {
        e' := FillWindow(e', at);
      }
    }

    // ----- longest_match

    ghost function AskNow(): Query
      reads this, window, prev
    {
      Query(window[..], prev[..], strstart, if strstart > MAX_DIST then strstart - MAX_DIST else NIL, config.niceLength)
    }

    /** The comparison loop: bytes 3, 4, .. are compared, and only every eighth time is the end looked for. */
    method Compare(cur: nat) returns (len: nat)
      requires Layout() && strstart + MIN_LOOKAHEAD <= WINDOW_SIZE && cur < strstart
      requires Repeats(window[..], strstart, strstart - cur, 3)
      ensures len == MatchLen(window[..], cur, strstart, 0)
    {
      hide MatchLen;
      var strend := strstart + MAX_MATCH;
      var scan, at := strstart + 2, cur + 2;
      while true
        invariant strstart + 2 <= scan < strend && scan - at == strstart - cur
        invariant Repeats(window[..], strstart, strstart - cur, scan + 1 - strstart)
        decreases strend - scan
      {
        scan, at := scan + 1, at + 1;
        if window[scan] != window[at] {
          break;
        }
        if (scan - (strstart + 2)) % 8 == 0 && scan >= strend {
          break;
        }
      }
      len := MAX_MATCH - (strend - scan);
    }

    /** A candidate that agrees in the first two bytes agrees in the third, which is not compared. */
    lemma ThirdByteAgrees(cur: nat)
      requires Layout() && strstart + MIN_LOOKAHEAD <= WINDOW_SIZE && cur < strstart
      requires HashAt(window[..], cur) == HashAt(window[..], strstart)
      requires window[cur] == window[strstart] && window[cur + 1] == window[strstart + 1]
      ensures Repeats(window[..], strstart, strstart - cur, 3)
    {
      ThirdByte(window[cur], window[cur + 1], window[cur + 2], window[strstart + 2]);
    }

    /** The tests made before a full comparison turn down only candidates that are no longer than the best. */
    method Probe(cur: nat, bestLen: nat) returns (len: nat)
      requires Layout() && strstart + MIN_LOOKAHEAD <= WINDOW_SIZE && cur < strstart
      requires HashAt(window[..], cur) == HashAt(window[..], strstart)
      requires 1 <= bestLen <= MAX_MATCH
      ensures var n := MatchLen(window[..], cur, strstart, 0);
        if len > bestLen then len == n else n <= bestLen
    {
      hide MatchLen, HashAt;
      var scanEnd1, scanEnd := window[strstart + bestLen - 1], window[strstart + bestLen];
      if window[cur + bestLen] != scanEnd || window[cur + bestLen - 1] != scanEnd1
        || window[cur] != window[strstart] || window[cur + 1] != window[strstart + 1]
      {
        return 0;
      }
      ThirdByteAgrees(cur);
      len := Compare(cur);
    }

    /** longest_match; `prevLength` is the length to beat. */
    method LongestMatch(curMatch: nat) returns (bestLen: nat)
      requires Layout() && ChainsOk(window[..], head[..], prev[..], dict, strstart + 1)
      requires Searchable(AskNow()) && Candidate(AskNow(), dict, curMatch)
      requires 1 <= prevLength <= MAX_MATCH && config.maxChain >= 4
      modifies this`matchStart
      ensures
        var chain := if prevLength >= config.goodLength then config.maxChain / 4 else config.maxChain;
        Best(bestLen, matchStart) == Search(AskNow(), curMatch, chain, Best(prevLength, old(matchStart)))
      ensures Found(AskNow(), Best(prevLength, old(matchStart)), Best(bestLen, matchStart))
      ensures Layout() && bestLen <= MAX_MATCH
    {
      hide MatchLen, ChainsOk, HashAt, Search, Repeats, Found;
      var chainLength: nat := config.maxChain;
      bestLen := prevLength;
      var limit: nat := if strstart > MAX_DIST then strstart - MAX_DIST else NIL;
      if prevLength >= config.goodLength {
        chainLength := chainLength / 4;
      }
      ghost var q, start := AskNow(), Best(prevLength, matchStart);
      ghost var result := Search(q, curMatch, chainLength, start);
      SearchFinds(q, head[..], dict, curMatch, chainLength, start);
      var cur: nat := curMatch;
      while true
        invariant chainLength >= 1 && 1 <= bestLen <= MAX_MATCH
        invariant Candidate(q, dict, cur)
        invariant Search(q, cur, chainLength, Best(bestLen, matchStart)) == result
        decreases chainLength
      {
        var len := Probe(cur, bestLen);
        SearchRound(q, head[..], dict, cur, chainLength, Best(bestLen, matchStart), len);
        if len > bestLen {
          matchStart := cur;
          bestLen := len;
          if len >= config.niceLength {
            break;
          }
        }
        cur := prev[cur % WSIZE];
        if !(cur > limit) {
          break;
        }
        chainLength := chainLength - 1;
        if chainLength == 0 {
          break;
        }
      }
    }

    // ----- emitting tokens

    lemma RepeatsInInput(e: nat, s: nat, d: nat, len: nat, n: nat)
      requires Data(e) && 1 <= d <= s && s + len <= WINDOW_SIZE && n <= len && s + n <= e
      requires Repeats(window[..], s, d, len)
      ensures Repeats(input, base + s, d, n)
    {
      forall i | base + s <= i < base + s + n
        ensures input[i] == input[i - d]
      {
        assert window[..][i - base] == window[..][i - base - d];
        assert window[i - base] == input[i] && window[i - base - d] == input[i - d];
      }
    }

    method EmitLiteral(pos: nat, ghost e: nat) returns (flush: bool)
      requires Data(e) && pos < e && Spelt(base + pos)
      modifies this`tally
      ensures Spelt(base + pos + 1)
    {
      hide Legal, Expand, Tokens, BlocksSpell;
      ghost var ts := Tokens(blocks) + tally;
      ExtendLiteral(ts, input, base + pos);
      assert ts + [Literal(window[pos])] == Tokens(blocks) + (tally + [Literal(window[pos])]);
      flush := Tally(Literal(window[pos]));
    }

    method EmitMatch(dist: nat, len: nat, ghost p: nat) returns (flush: bool)
      requires Spelt(p) && p + len <= |input| && 1 <= dist <= p && dist <= MAX_DIST && MIN_MATCH <= len <= MAX_MATCH
      requires Repeats(input, p, dist, len)
      modifies this`tally
      ensures Spelt(p + len)
    {
      hide Legal, Expand, Tokens, BlocksSpell;
      ghost var ts := Tokens(blocks) + tally;
      ExtendMatch(ts, input, p, dist, len);
      assert ts + [Match(dist, len)] == Tokens(blocks) + (tally + [Match(dist, len)]);
      flush := Tally(Match(dist, len));
    }

    /** The loop `do { strstart++; INSERT_STRING(strstart, hash_head); } while (--n != 0);` */
    method InsertRun(n: nat, ghost e: nat)
      requires Data(e) && Dict(strstart + 1, e) && n >= 1
      requires strstart + n < e && (!eofile ==> strstart + n + 3 <= e)
      requires Carries(insH, window[strstart + 1], window[strstart + 2])
      modifies this`strstart, this`insH, this`dict, prev, head
      ensures Data(e) && strstart == old(strstart) + n && Dict(strstart + 1, e)
      ensures Carries(insH, window[strstart + 1], window[strstart + 2])
    {
      hide ChainsOk, Carries;
      var k := n;
      while k != 0
        invariant k <= n && strstart == old(strstart) + (n - k) && Data(e) && Dict(strstart + 1, e)
        invariant Carries(insH, window[strstart + 1], window[strstart + 2])
      {
        strstart := strstart + 1;
        var hashHead := InsertString(strstart, strstart, e);
        k := k - 1;
      }
    }

    // ----- deflate_fast

    /** The state between two rounds: the tokens spell the input up to `end`. */
    ghost predicate Running(e: nat, end: int)
      reads this, window, prev, head
    {
      && Data(e) && Dict(strstart, e) && strstart + lookahead == e && Spelt(end)
      && (lookahead > 0 ==> HashReady(strstart)) && (eofile || lookahead >= MIN_LOOKAHEAD)
      && config.maxChain >= 4
    }

    /** Looks for a match at strstart, where `hashHead` heads the chain; the result is cut to the lookahead. */
    method FindMatch(hashHead: nat, ghost e: nat) returns (len: nat)
      requires Data(e) && Dict(strstart + 1, e) && strstart + lookahead == e
      requires hashHead in dict && NIL < hashHead < strstart && strstart - hashHead <= MAX_DIST
      requires strstart + MIN_LOOKAHEAD <= WINDOW_SIZE && HashAt(window[..], hashHead) == HashAt(window[..], strstart)
      requires 1 <= prevLength <= MAX_MATCH && config.maxChain >= 4
      modifies this`matchStart
      ensures Data(e) && Dict(strstart + 1, e) && len <= lookahead && len <= MAX_MATCH && (lookahead > 0 ==> len > 0)
      ensures len > prevLength ==>
        && NIL < matchStart < strstart && strstart - matchStart <= MAX_DIST
        && Repeats(input, base + strstart, strstart - matchStart, len)
    {
      hide ChainsOk, HashAt, Search, Repeats;
      len := LongestMatch(hashHead);
      ghost var full := len;
      if len > lookahead {
        len := lookahead;
      }
      if full > prevLength {
        RepeatsInInput(e, strstart, strstart - matchStart, full, len);
      }
    }

    /** The state inside a round, before the window is refilled. */
    ghost predicate Stepped(e: nat, end: int)
      reads this, window, prev, head
    {
      && Data(e) && Dict(strstart, e) && strstart + lookahead == e && Spelt(end)
      && (lookahead > 0 ==> HashReady(strstart)) && (!eofile ==> lookahead >= 2)
    }

    /** A match at strstart is emitted, and its strings are inserted unless it is long. */
    method TakeMatch(matchLength: nat, ghost e: nat) returns (flush: bool)
      requires Data(e) && Dict(strstart + 1, e) && strstart + lookahead == e && Spelt(base + strstart)
      requires eofile || lookahead >= MIN_LOOKAHEAD
      requires MIN_MATCH <= matchLength <= MAX_MATCH && matchLength <= lookahead
      requires Carries(insH, window[strstart + 1], window[strstart + 2])
      requires NIL < matchStart < strstart && strstart - matchStart <= MAX_DIST
      requires Repeats(input, base + strstart, strstart - matchStart, matchLength)
      modifies prev, head, this`tally, this`lookahead, this`strstart, this`insH, this`dict
      ensures Stepped(e, base + strstart) && strstart == old(strstart) + matchLength
    {
      hide Dict, Spelt, Carries, Repeats;
      flush := EmitMatch(strstart - matchStart, matchLength, base + strstart);
      lookahead := lookahead - matchLength;
      if matchLength <= config.maxLazy {
        InsertRun(matchLength - 1, e);
        strstart := strstart + 1;
      } else {
        SkipOver(matchLength, e);
      }
    }

    /** The strings of a long match are not inserted; the hash starts anew behind it. */
    method SkipOver(n: nat, ghost e: nat)
      requires Data(e) && Dict(strstart + 1, e) && n >= 1 && strstart + n <= e
      requires !eofile ==> strstart + n + 2 <= e
      modifies this`strstart, this`insH
      ensures Data(e) && strstart == old(strstart) + n && Dict(strstart, e)
      ensures strstart + 1 < WINDOW_SIZE && Carries(insH, window[strstart], window[strstart + 1])
    {
      hide ChainsOk, Carries, UpdateHash;
      TopGrows(window[..], head[..], prev[..], dict, strstart + 1, strstart + n);
      strstart := strstart + n;
      insH := window[strstart] as bv32;
      insH := UpdateHash(insH, window[strstart + 1]);
      CarriesAnew(window[strstart], window[strstart + 1]);
    }

    method TakeLiteral(ghost e: nat) returns (flush: bool)
      requires Data(e) && Dict(strstart + 1, e) && strstart + lookahead == e && Spelt(base + strstart)
      requires lookahead > 0 && (eofile || lookahead >= MIN_LOOKAHEAD)
      requires Carries(insH, window[strstart + 1], window[strstart + 2])
      modifies this`tally, this`lookahead, this`strstart
      ensures Stepped(e, base + strstart) && strstart == old(strstart) + 1
    {
      hide Dict, Spelt, Carries;
      flush := EmitLiteral(strstart, e);
      lookahead := lookahead - 1;
      strstart := strstart + 1;
    }

    ghost predicate MoreBlocks(old_: seq<Block>)
      reads this
    {
      old_ <= blocks && forall i :: |old_| <= i < |blocks| ==> !blocks[i].eof
    }

    /** The end of a round: a full block is flushed, the window refilled. */
    method EndRound(flush: bool, ghost e: nat) returns (ghost e': nat)
      requires Stepped(e, base + strstart) && config.maxChain >= 4
      modifies window, prev, head
      modifies this`matchStart, this`strstart, this`blockStart, this`base, this`dict
      modifies this`lookahead, this`eofile, this`inPos, this`blocks, this`tally
      ensures Running(e', base + strstart) && base + strstart == old(base + strstart) && MoreBlocks(old(blocks))
    {
      hide ChainsOk, Carries, BlocksSpell, Legal, Expand, Tokens, U32;
      if flush {
        FlushBlock(false, e);
      }
      U32Sub(matchStart, 0);
      e' := Refill(e, base + matchStart);
    }

    /** One round of the loop of deflate_fast. */
    method FastRound(matchLength0: nat, ghost e: nat) returns (matchLength: nat, ghost e': nat)
      requires Running(e, base + strstart) && lookahead != 0 && matchLength0 < MIN_MATCH && prevLength == MIN_MATCH - 1
      modifies window, prev, head, this
      ensures Running(e', base + strstart) && matchLength < MIN_MATCH && prevLength == MIN_MATCH - 1
      ensures base + strstart > old(base + strstart) && MoreBlocks(old(blocks))
    {
      hide Dict, Spelt, Carries, HashAt, Repeats;
      matchLength := matchLength0;
      var hashHead := InsertString(strstart, strstart, e);
      if hashHead != NIL && strstart - hashHead <= MAX_DIST && strstart <= WINDOW_SIZE - MIN_LOOKAHEAD {
        matchLength := FindMatch(hashHead, e);
      }
      var flush;
      if matchLength >= MIN_MATCH {
        flush := TakeMatch(matchLength, e);
        matchLength := 0;
      } else {
        flush := TakeLiteral(e);
      }
      e' := EndRound(flush, e);
    }

    method DeflateFast(ghost e0: nat)
      requires Running(e0, base + strstart) && blocks == []
      modifies window, prev, head, this
      ensures Finished()
    {
      hide ChainsOk, Carries, BlocksSpell, Legal, Expand, Tokens;
      var matchLength: nat := 0;
      prevLength := MIN_MATCH - 1;
      ghost var e := e0;
      while lookahead != 0
        invariant Running(e, base + strstart) && matchLength < MIN_MATCH && prevLength == MIN_MATCH - 1
        invariant MoreBlocks([])
        decreases |input| - (base + strstart)
      {
        matchLength, e := FastRound(matchLength, e);
      }
      Finish(e);
    }

    /** The last flush. */
    method Finish(ghost e: nat)
      requires Data(e) && eofile && strstart == e && Spelt(base + strstart) && MoreBlocks([])
      modifies this`blocks, this`tally, this`blockStart
      ensures Finished()
    {
      hide Legal, Expand, Tokens;
      FlushBlock(true, e);
      assert Tokens(blocks) + tally == Tokens(blocks);
    }

    /** All input is spelt by the flushed blocks, and only the last one is marked as the end. */
    ghost predicate Finished()
      reads this
    {
      && BlocksSpell(blocks, input, |input|) && blocks != []
      && forall i :: 0 <= i < |blocks| ==> (blocks[i].eof <==> i == |blocks| - 1)
    }

    // ----- deflate

    /** The state between two rounds of deflate: `available` says that the byte before strstart has not been emitted
        yet; if `len` is a match length, a match starts at that byte. */
    ghost predicate Waiting(e: nat, available: bool, len: nat, at: int)
      reads this, window, prev, head
    {
      && Running(e, base + strstart - if available then 1 else 0)
      && 1 <= len <= MAX_MATCH && (available ==> strstart >= 1)
      && (len >= MIN_MATCH ==> available && len <= lookahead + 1 && MatchBefore(len, at))
    }

    /** The bytes from strstart - 1 on repeat those from the absolute position `at` on. */
    ghost predicate MatchBefore(len: nat, at: int)
      requires base + strstart >= 1
      reads this
    {
      var p := base + strstart - 1;
      && 0 <= at < p && p - at <= MAX_DIST && p + len <= |input| && matchStart == U32(at - base)
      && Repeats(input, p, p - at, len)
    }

    /** The search of a round: a length above prevLength is that of a match at strstart. */
    method LookAhead(hashHead: nat, ghost e: nat) returns (matchLength: nat)
      requires Data(e) && Dict(strstart + 1, e) && strstart + lookahead == e && lookahead > 0
      requires hashHead != NIL ==>
        && hashHead in dict && hashHead < strstart && strstart + 2 < WINDOW_SIZE
        && HashAt(window[..], hashHead) == HashAt(window[..], strstart)
      requires 1 <= prevLength <= MAX_MATCH && config.maxChain >= 4
      modifies this`matchStart
      ensures Data(e) && Dict(strstart + 1, e) && 1 <= matchLength <= MAX_MATCH
      ensures matchLength > prevLength && matchLength >= MIN_MATCH ==>
        && matchLength <= lookahead && NIL < matchStart < strstart && strstart - matchStart <= MAX_DIST
        && Repeats(input, base + strstart, strstart - matchStart, matchLength)
    {
      hide ChainsOk, HashAt, Repeats;
      matchLength := MIN_MATCH - 1;
      if hashHead != NIL && prevLength < config.maxLazy && strstart - hashHead <= MAX_DIST
        && strstart <= WINDOW_SIZE - MIN_LOOKAHEAD
      {
        matchLength := FindMatch(hashHead, e);
        if matchLength == MIN_MATCH && U32(strstart - matchStart) > TOO_FAR {
          matchLength := matchLength - 1;
        }
      }
    }

    /** The match of the previous round, which starts at strstart - 1, is emitted. */
    method EmitPrevious(prevMatch: nat, ghost e: nat, ghost at: int) returns (flush: bool)
      requires Data(e) && Dict(strstart + 1, e) && strstart + lookahead == e && strstart >= 1
      requires lookahead > 0 && (eofile || lookahead >= MIN_LOOKAHEAD) && Spelt(base + strstart - 1)
      requires Carries(insH, window[strstart + 1], window[strstart + 2])
      requires MIN_MATCH <= prevLength <= MAX_MATCH && prevLength <= lookahead + 1
      requires
        var p := base + strstart - 1;
        && 0 <= at < p && p - at <= MAX_DIST && p + prevLength <= |input| && prevMatch == U32(at - base)
        && Repeats(input, p, p - at, prevLength)
      modifies prev, head, this`tally, this`lookahead, this`strstart, this`insH, this`dict, this`prevLength
      ensures Stepped(e, base + strstart) && strstart == old(strstart + prevLength) - 1
    {
      hide Dict, Spelt, Carries, Repeats, U32;
      ghost var p := base + strstart - 1;
      U32Sub(at - base, strstart - 1);
      U32Sub(p - at, 0);
      flush := EmitMatch(U32(strstart - 1 - prevMatch), prevLength, p);
      lookahead := lookahead - (prevLength - 1);
      InsertRun(prevLength - 2, e);
      prevLength := 0;
      strstart := strstart + 1;
    }

    /** The byte at strstart - 1 is emitted as a literal, and the one at strstart waits. */
    method EmitWaiting(ghost e: nat)
      requires Data(e) && Dict(strstart + 1, e) && strstart + lookahead == e && strstart >= 1
      requires lookahead > 0 && (eofile || lookahead >= MIN_LOOKAHEAD) && Spelt(base + strstart - 1)
      requires Carries(insH, window[strstart + 1], window[strstart + 2])
      modifies this`tally, this`blocks, this`blockStart, this`strstart, this`lookahead
      ensures Stepped(e, base + strstart - 1) && strstart == old(strstart) + 1 && MoreBlocks(old(blocks))
    {
      hide Dict, Spelt, Carries;
      var flush := EmitLiteral(strstart - 1, e);
      if flush {
        FlushBlock(false, e);
      }
      strstart := strstart + 1;
      lookahead := lookahead - 1;
    }

    /** The refilling at the end of a round of deflate; a match found for strstart - 1 stays known. */
    method EndLazyRound(available: bool, len: nat, ghost e: nat, ghost at: int) returns (ghost e': nat)
      requires Stepped(e, base + strstart - if available then 1 else 0) && config.maxChain >= 4
      requires 1 <= len <= MAX_MATCH && matchStart == U32(at - base) && (available ==> strstart >= 1)
      requires len >= MIN_MATCH ==> available && len <= lookahead + 1 && MatchBefore(len, at)
      modifies window, prev, head
      modifies this`matchStart, this`strstart, this`blockStart, this`base, this`dict
      modifies this`lookahead, this`eofile, this`inPos
      ensures Waiting(e', available, len, at) && base + strstart == old(base + strstart)
    {
      hide Dict, Carries, Repeats, BlocksSpell, Legal, Expand, Tokens, U32;
      e' := Refill(e, at);
    }

    /** The choice in a round of deflate: the match of the previous round, a literal, or nothing yet. */
    method Decide(available0: bool, matchLength0: nat, prevMatch: nat, ghost e: nat, ghost at: int)
      returns (available: bool, matchLength: nat)
      requires Data(e) && Dict(strstart + 1, e) && strstart + lookahead == e
      requires Spelt(base + strstart - if available0 then 1 else 0)
      requires lookahead > 0 && (eofile || lookahead >= MIN_LOOKAHEAD) && (available0 ==> strstart >= 1)
      requires Carries(insH, window[strstart + 1], window[strstart + 2])
      requires 1 <= matchLength0 <= MAX_MATCH && 1 <= prevLength <= MAX_MATCH
      requires prevLength >= MIN_MATCH ==>
        && available0 && prevLength <= lookahead + 1
        && var p := base + strstart - 1;
        && 0 <= at < p && p - at <= MAX_DIST && p + prevLength <= |input| && prevMatch == U32(at - base)
        && Repeats(input, p, p - at, prevLength)
      modifies prev, head, this`tally, this`lookahead, this`strstart, this`insH, this`dict, this`prevLength
      modifies this`blocks, this`blockStart
      ensures Stepped(e, base + strstart - if available then 1 else 0) && MoreBlocks(old(blocks))
      ensures strstart > old(strstart) && 1 <= matchLength <= MAX_MATCH
      ensures matchLength >= MIN_MATCH ==>
        available && strstart == old(strstart) + 1 && matchLength == matchLength0 > old(prevLength)
    {
      hide Dict, Spelt, Carries, Repeats, U32;
      available, matchLength := available0, matchLength0;
      if prevLength >= MIN_MATCH && matchLength <= prevLength {
        var flush := EmitPrevious(prevMatch, e, at);
        available := false;
        matchLength := MIN_MATCH - 1;
        if flush {
          FlushBlock(false, e);
        }
      } else if available {
        EmitWaiting(e);
      } else {
        available := true;
        strstart := strstart + 1;
        lookahead := lookahead - 1;
      }
    }

    /** The first part of a round of deflate: the string at strstart is inserted and a match for it looked for. */
    method SearchHere(matchLength0: nat, ghost e: nat) returns (matchLength: nat)
      requires Data(e) && Dict(strstart, e) && strstart + lookahead == e && lookahead > 0 && HashReady(strstart)
      requires (eofile || lookahead >= MIN_LOOKAHEAD) && 1 <= matchLength0 <= MAX_MATCH && config.maxChain >= 4
      modifies prev, head, this`insH, this`dict, this`prevLength, this`matchStart
      ensures Data(e) && Dict(strstart + 1, e) && Carries(insH, window[strstart + 1], window[strstart + 2])
      ensures prevLength == matchLength0 && 1 <= matchLength <= MAX_MATCH
      ensures matchLength > prevLength && matchLength >= MIN_MATCH ==>
        && matchLength <= lookahead && NIL < matchStart < strstart && strstart - matchStart <= MAX_DIST
        && Repeats(input, base + strstart, strstart - matchStart, matchLength)
    {
      hide Dict, Carries, HashAt, Repeats;
      var hashHead := InsertString(strstart, strstart, e);
      prevLength := matchLength0;
      matchLength := LookAhead(hashHead, e);
    }

    /** One round of the loop of deflate. */
    method LazyRound(available0: bool, matchLength0: nat, ghost e: nat, ghost at: int)
      returns (available: bool, matchLength: nat, ghost e': nat, ghost at': int)
      requires Waiting(e, available0, matchLength0, at) && lookahead != 0
      modifies window, prev, head, this
      ensures Waiting(e', available, matchLength, at') && MoreBlocks(old(blocks))
      ensures base + strstart > old(base + strstart)
    {
      hide Dict, Spelt, Carries, HashAt, Repeats, U32;
      var prevMatch := matchStart;
      matchLength := SearchHere(matchLength0, e);
      at' := base + matchStart;
      U32Sub(matchStart, 0);
      available, matchLength := Decide(available0, matchLength, prevMatch, e, at);
      e' := EndLazyRound(available, matchLength, e, at');
    }

    method DeflateAll(ghost e0: nat)
      requires Running(e0, base + strstart) && blocks == []
      modifies window, prev, head, this
      ensures Finished()
    {
      hide Dict, Spelt, Carries, Repeats, U32;
      var available, matchLength: nat := false, MIN_MATCH - 1;
      if comprLevel <= 3 {
        DeflateFast(e0);
        return;
      }
      ghost var e, at := e0, base + matchStart;
      while lookahead != 0
        invariant Waiting(e, available, matchLength, at) && MoreBlocks([])
        decreases |input| - (base + strstart)
      {
        available, matchLength, e, at := LazyRound(available, matchLength, e, at);
      }
      if available {
        var flush := EmitLiteral(strstart - 1, e);
      }
      Finish(e);
    }

    // ----- lm_init

    /** A compressor for the given file, with its tables allocated. */
    constructor (file: seq<bv8>)
      ensures input == file && inPos == 0 && Layout() && blocks == [] && tally == []
    {
      input := file;
      inPos := 0;
      window := new bv8[WINDOW_SIZE];
      prev := new nat[WSIZE];
      head := new nat[HASH_SIZE];
      tally, blocks := [], [];
      config := CONFIGURATION_TABLE[0];
      new;
    }

    /** The tables and variables for a new file. */
    method Reset(packLevel: int)
      requires Layout() && inPos == 0 && blocks == [] && tally == [] && 1 <= packLevel <= 9
      modifies head, this
      ensures comprLevel == packLevel && config == CONFIGURATION_TABLE[packLevel]
      ensures strstart == blockStart == base == inPos == 0 && blocks == [] && tally == [] && eofile == old(eofile)
      ensures Dict(0, 0) && dict == {} && Spelt(0)
    {
      hide BlocksSpell, Legal, Expand, Tokens;
      comprLevel := packLevel;
      for j := 0 to HASH_SIZE
        invariant forall h :: 0 <= h < j ==> head[h] == NIL
        modifies head
      {
        head[j] := NIL;
      }
      config := CONFIGURATION_TABLE[packLevel];
      strstart, blockStart, base, dict := 0, 0, 0, {};
      NothingSpelt(input);
    }

    /** lm_init; false stands for the error "bad pack level". */
    method Init(packLevel: int) returns (ok: bool, ghost e: nat)
      requires Layout() && inPos == 0 && blocks == [] && tally == []
      modifies window, head, prev, this
      ensures ok <==> 1 <= packLevel <= 9
      ensures ok ==> Running(e, 0) && base + strstart == 0 && comprLevel == packLevel
      ensures blocks == []
    {
      hide Dict, Spelt, Carries;
      e := 0;
      if packLevel < 1 || packLevel > 9 {
        return false, e;
      }
      ok := true;
      Reset(packLevel);
      FirstRead();
      e := lookahead;
      if !eofile {
        e := FirstFill(e);
        StartHash();
      }
    }

    method FirstRead()
      requires Dict(0, 0) && dict == {} && inPos == 0 == base
      modifies window, this`lookahead, this`inPos, this`eofile
      ensures Data(lookahead) && Dict(0, lookahead) && (eofile <==> lookahead == 0)
    {
      hide ChainsOk;
      ghost var w := window[..];
      lookahead := ReadBuf(0, WINDOW_SIZE);
      GrowKeeps(w, window[..], head[..], prev[..], dict, 0, 0);
      eofile := lookahead == 0;
    }

    method StartHash()
      requires Layout()
      modifies this`insH
      ensures HashReady(0)
    {
      hide Carries, UpdateHash;
      insH := 0;
      insH := UpdateHash(insH, window[0]);
      insH := UpdateHash(insH, window[1]);
      CarriesAnew(window[0], window[1]);
    }

    method FirstFill(ghost e: nat) returns (ghost e': nat)
      requires Data(e) && Dict(strstart, e) && !eofile && strstart == 0 && lookahead == e > 0 && base == 0 == blockStart
      modifies window, head, prev
      modifies this`matchStart, this`strstart, this`blockStart, this`base, this`dict
      modifies this`lookahead, this`eofile, this`inPos
      ensures Data(e') && Dict(strstart, e') && strstart + lookahead == e' && lookahead > 0
      ensures base + strstart == 0 && base + blockStart == 0 && (eofile || lookahead >= MIN_LOOKAHEAD)
    {
      hide Dict, U32;
      e' := e;
      ghost var at: int := matchStart;
      U32Sub(matchStart, 0);
      while lookahead < MIN_LOOKAHEAD && !eofile
        invariant Data(e') && Dict(strstart, e') && strstart + lookahead == e' && lookahead > 0
        invariant base + strstart == 0 && base + blockStart == 0 && matchStart == U32(at - base)
        decreases |input| - inPos, !eofile
      {
        e' := FillWindow(e', at);
      }
    }

    /** The whole of it: whatever the file, the sizes of the reads and the answers of ct_tally are, the tokens of the
        flushed blocks expand to the file. */
    method Compress(packLevel: int) returns (ok: bool)
      requires Layout() && inPos == 0 && blocks == [] && tally == []
      modifies window, head, prev, this
      ensures ok <==> 1 <= packLevel <= 9
      ensures ok ==> Finished() && Legal(Tokens(blocks)) && Expand(Tokens(blocks)) == input
    {
      ghost var e;
      ok, e := Init(packLevel);
      if ok {
        DeflateAll(e);
        assert input[..|input|] == input;
      }
    }
  }
}
