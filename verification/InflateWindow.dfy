/** The circular window of inflate.c and its copy loop. */
module InflateWindow {
  import opened BitIo
  import opened Lz77

  class Window {
    const slide: array<Byte>
    var wp: nat
    var flushed: seq<Byte>
    /** What the window held at first, then everything put into it. */
    ghost var past: seq<Byte>

    /** The window holds the last WSIZE bytes of the past; what lies before wp has not been written out yet. */
    ghost predicate Valid()
      reads this, slide
    {
      && slide.Length == WSIZE && wp < WSIZE && |past| == WSIZE + |flushed| + wp
      && Holds(slide[..], past, wp)
      && flushed == past[WSIZE..|past| - wp]
    }

    /** Everything put into the window. */
    ghost function Output(): seq<Byte>
      requires |past| >= WSIZE
      reads this
    {
      past[WSIZE..]
    }

    constructor (slide: array<Byte>)
      requires slide.Length == WSIZE
      ensures Valid() && this.slide == slide && Output() == [] && past == slide[..] && wp == 0
    {
      this.slide := slide;
      wp, flushed, past := 0, [], slide[..];
    }

    /** flush_output(w) in the middle of a block. */
    method FlushFull(w: nat, ghost now: seq<Byte>)
      requires slide.Length == WSIZE && w == WSIZE && |now| == 2 * WSIZE + |flushed| && Holds(slide[..], now, w)
      requires flushed == now[WSIZE..|now| - w]
      modifies this
      ensures Valid() && past == now && wp == 0
    {
      flushed := flushed + slide[..w];
      wp, past := 0, now;
      assert now[WSIZE..] == now[WSIZE..|now| - w] + now[|now| - w..];
      assert slide[..w] == now[|now| - w..];
    }

    /** flush_output(wp) at the end. */
    method FlushRest()
      requires Valid()
      modifies this
      ensures flushed == old(Output())
    {
      assert past[WSIZE..] == past[WSIZE..|past| - wp] + past[|past| - wp..];
      assert slide[..wp] == past[|past| - wp..];
      flushed := flushed + slide[..wp];
      wp := 0;
    }

    /** slide[w++] = b. */
    method Put(b: Byte)
      requires Valid()
      modifies this, slide
      ensures Valid() && past == old(past) + [b]
    {
      ghost var before := slide[..];
      slide[wp] := b;
      assert slide[..] == before[wp := b];
      PutHolds(before, past, wp, b);
      ghost var now := past + [b];
      if wp + 1 == WSIZE {
        FlushFull(wp + 1, now);
      } else {
        wp, past := wp + 1, now;
      }
    }

    /** memcpy(slide + w, slide + d, e) where source and target do not overlap. */
    method MoveRun(w: nat, d: nat, e: nat, ghost dist: nat, ghost now: seq<Byte>) returns (ghost now': seq<Byte>)
      requires slide.Length == WSIZE && w + e <= WSIZE && d + e <= WSIZE && 1 <= dist <= WSIZE && e > 0
      requires (d == w - dist || d == w - dist + WSIZE) && e <= (if d < w then w - d else d - w)
      requires Holds(slide[..], now, w)
      modifies slide
      ensures |now| >= WSIZE && now' == CopyBack(now, dist, e) && Holds(slide[..], now', w + e)
    {
      hide Holds, CopyBack;
      ghost var before := slide[..];
      forall i | w <= i < w + e {
        slide[i] := slide[d + (i - w)];
      }
      MovedHolds(before, slide[..], now, w, d, e, dist);
      CopyPlain(now, dist, e);
      now' := now + now[|now| - dist..|now| - dist + e];
    }

    /** The slow loop, where a byte just written may be read again. */
    method SlowRun(w: nat, d: nat, e: nat, ghost dist: nat, ghost now: seq<Byte>) returns (ghost now': seq<Byte>)
      requires slide.Length == WSIZE && w + e <= WSIZE && d + e <= WSIZE && 1 <= dist <= WSIZE
      requires (d == w - dist || d == w - dist + WSIZE) && Holds(slide[..], now, w)
      modifies slide
      ensures |now| >= WSIZE && now' == CopyBack(now, dist, e) && Holds(slide[..], now', w + e)
    {
      hide Holds, CopyBack;
      HoldsLength(slide[..], now, w);
      now' := now;
      CopyMore(now, dist, 0);
      var i := 0;
      while i < e
        invariant i <= e && now' == CopyBack(now, dist, i) && Holds(slide[..], now', w + i)
      {
        ghost var before := slide[..];
        HeldAt(before, now', w + i, d + i, dist);
        slide[w + i] := slide[d + i];
        assert slide[..] == before[w + i := before[d + i]];
        PutHolds(before, now', w + i, before[d + i]);
        CopyMore(now, dist, i);
        now' := now' + [before[d + i]];
        i := i + 1;
      }
    }

    /** One round of the copy loop: up to the end of the window, or the end of the source. */
    method CopyStep(d0: nat, left0: nat, ghost dist: nat) returns (d: nat, left: nat)
      requires Valid() && 1 <= dist <= WSIZE && left0 > 0 && Apart(d0, wp, dist)
      modifies this, slide
      ensures Valid() && left < left0 && past == CopyBack(old(past), dist, left0 - left)
      ensures Apart(d, wp, dist)
    {
      hide CopyBack, Holds;
      d := if d0 == WSIZE then 0 else d0;
      var e := WSIZE - if d > wp then d else wp;
      e := if e > left0 then left0 else e;
      left := left0 - e;
      ghost var now;
      if e <= (if d < wp then wp - d else d - wp) {
        now := MoveRun(wp, d, e, dist, past);
      } else {
        now := SlowRun(wp, d, e, dist, past);
      }
      var w := wp + e;
      d := d + e;
      SamePart(past, now, WSIZE, |past| - wp);
      if w == WSIZE {
        FlushFull(w, now);
      } else {
        wp, past := w, now;
      }
    }

    /** The copy loop of inflate_codes: n bytes from dist bytes back, for every distance up to the window size. */
    method Copy(dist: nat, n: nat)
      requires Valid() && 1 <= dist <= WSIZE && n > 0
      modifies this, slide
      ensures Valid() && past == CopyBack(old(past), dist, n)
    {
      hide CopyBack, Holds;
      var d: nat, left: nat := (wp - dist) % WSIZE, n;
      CopyMore(past, dist, 0);
      while true
        invariant Valid() && 0 < left <= n && Apart(d, wp, dist) && past == CopyBack(old(past), dist, n - left)
        decreases left
      {
        ghost var done := n - left;
        d, left := CopyStep(d, left, dist);
        CopyTwice(old(past), dist, done, n - left - done);
        if left == 0 {
          break;
        }
      }
    }
  }

  /** The bytes before w are the newest, those from w on the ones before them. */
  ghost predicate Holds(slide: seq<Byte>, past: seq<Byte>, w: nat) {
    && |slide| == WSIZE && w <= WSIZE && |past| >= WSIZE + w
    && (forall j :: 0 <= j < w ==> slide[j] == past[|past| - w + j])
    && (forall j :: w <= j < WSIZE ==> slide[j] == past[|past| - w - WSIZE + j])
  }

  /** d is dist before w in the circle. */
  predicate Apart(d: nat, w: nat, dist: nat) {
    d <= WSIZE && var m := if d == WSIZE then 0 else d; m == w - dist || m == w - dist + WSIZE
  }

  lemma SamePart<T>(past: seq<T>, now: seq<T>, i: nat, j: nat)
    requires past <= now && i <= j <= |past|
    ensures now[i..j] == past[i..j]
  {
  }

  lemma PutHolds(slide: seq<Byte>, past: seq<Byte>, w: nat, b: Byte)
    requires Holds(slide, past, w) && w < WSIZE
    ensures Holds(slide[w := b], past + [b], w + 1)
  {
  }

  /** The byte dist back is at d. */
  lemma HeldAt(slide: seq<Byte>, past: seq<Byte>, w: nat, d: nat, dist: nat)
    requires Holds(slide, past, w) && w < WSIZE && d < WSIZE && 1 <= dist <= WSIZE
    requires d == w - dist || d == w - dist + WSIZE
    ensures slide[d] == past[|past| - dist]
  {
  }

  lemma CopyMore<T>(out: seq<T>, d: nat, n: nat)
    requires 1 <= d <= |out|
    ensures CopyBack(out, d, 0) == out
    ensures CopyBack(out, d, n + 1) == CopyBack(out, d, n) + [CopyBack(out, d, n)[|out| + n - d]]
  {
    CopyTwice(out, d, n, 1);
  }

  lemma {:induction false} CopyTwice<T>(out: seq<T>, d: nat, m: nat, n: nat)
    requires 1 <= d <= |out|
    ensures CopyBack(CopyBack(out, d, m), d, n) == CopyBack(out, d, m + n)
    decreases m
  {
    if m > 0 {
      CopyTwice(out + [out[|out| - d]], d, m - 1, n);
    }
  }

  /** Copying no more than the distance copies what is there already. */
  lemma CopyPlain<T>(out: seq<T>, d: nat, n: nat)
    requires 1 <= d <= |out| && n <= d
    ensures CopyBack(out, d, n) == out + out[|out| - d..|out| - d + n]
  {
    var data := out + out[|out| - d..|out| - d + n];
    assert data[..|out|] == out && data[..|out| + n] == data;
    CopyRepeat(data, |out|, d, n);
  }

  lemma MovedHolds(before: seq<Byte>, slide: seq<Byte>, now: seq<Byte>, w: nat, d: nat, e: nat, dist: nat)
    requires Holds(before, now, w) && w + e <= WSIZE && d + e <= WSIZE && 1 <= dist <= WSIZE && e > 0
    requires (d == w - dist || d == w - dist + WSIZE) && e <= (if d < w then w - d else d - w)
    requires |slide| == WSIZE && forall j :: w <= j < w + e ==> slide[j] == before[d + (j - w)]
    requires forall j :: 0 <= j < w || w + e <= j < WSIZE ==> slide[j] == before[j]
    ensures e <= dist <= |now| && Holds(slide, now + now[|now| - dist..|now| - dist + e], w + e)
  {
    var more := now[|now| - dist..|now| - dist + e];
    var now' := now + more;
    forall j | 0 <= j < w + e
      ensures slide[j] == now'[|now'| - (w + e) + j]
    {
      if j >= w {
        assert before[d + (j - w)] == now[|now| - dist + (j - w)] == more[j - w];
      } else {
        assert slide[j] == before[j];
      }
    }
    forall j | w + e <= j < WSIZE
      ensures slide[j] == now'[|now'| - (w + e) - WSIZE + j]
    {
      assert slide[j] == before[j];
    }
  }

  lemma HoldsLength(slide: seq<Byte>, past: seq<Byte>, w: nat)
    requires Holds(slide, past, w)
    ensures |past| >= WSIZE
  {
  }
}
