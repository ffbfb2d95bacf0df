/** The thread pool: every interleaving of workers, threads that add work, and threads that shut the pool down. */
module ThreadPool {
  import opened Common
  type Tid = nat
  type Item = nat

  /** Where a thread stands. Threads below the number of workers run thread_routine; the others call the pool. */
  datatype Pc =
    | WStart                      // before pthread_mutex_lock
    | WCheck                      // holds the lock, before the test of the inner loop
    | Waiting                     // in pthread_cond_wait
    | Woken                       // has been woken, must take the lock again
    | WDecide                     // holds the lock, behind the inner loop
    | WTaken(x: Item)             // holds the lock, has taken the head of the queue
    | Running(x: Item)            // runs the item
    | Exited
    | Idle
    | AWait(x: Item)              // tpool_add_work: before pthread_mutex_lock
    | AAppend(x: Item)            // holds the lock, before the item is appended
    | ASignal                     // holds the lock, before pthread_cond_signal
    | DSet                        // tpool_destroy: shutdown was not set
    | DWait                       // has set shutdown, before pthread_mutex_lock
    | DBroadcast                  // holds the lock, before pthread_cond_broadcast
    | Unlocking                   // holds the lock, before pthread_mutex_unlock

  predicate Locked(p: Pc) {
    p.WCheck? || p.WDecide? || p.WTaken? || p.AAppend? || p.ASignal? || p.DBroadcast? || p.Unlocking?
  }

  predicate OfWorker(p: Pc) {
    p.WStart? || p.WCheck? || p.Waiting? || p.Woken? || p.WDecide? || p.WTaken? || p.Running? || p.Exited?
  }

  predicate Carries(p: Pc, x: Item) { p == WTaken(x) || p == Running(x) }

  /** added and taken are the items in the order in which they were appended and removed; used are all items ever made;
      runner says which worker has an item. crashed is set when the head of an empty queue is taken. */
  datatype State = State(workers: nat, queue: seq<Item>, shutdown: bool, lock: Option<Tid>, pcs: map<Tid, Pc>,
                         added: seq<Item>, taken: seq<Item>, done: set<Item>, runner: map<Item, Tid>, used: set<Item>,
                         broadcast: bool, crashed: bool) {
    function Pc(t: Tid): Pc { if t in pcs then pcs[t] else if t < workers then WStart else Idle }
  }

  function Init(workers: nat): State {
    State(workers, [], false, None, map[], [], [], {}, map[], {}, false, false)
  }

  // ----- the steps

  datatype Action = Lock | Unlock | Check | Decide | Finish | Wake | Make(x: Item) | Append | Signal(w: Option<Tid>)
    | Destroy | Set | Broadcast

  /** Waiting threads can wake up at any time. pthread_cond_signal wakes a waiting worker, if there is one. */
  predicate Enabled(s: State, t: Tid, a: Action) {
    var p := s.Pc(t);
    match a
    case Lock => (p.WStart? || p.Woken? || p.AWait? || p.DWait?) && s.lock == None
    case Unlock => p.Unlocking? || p.WTaken?
    case Check => p.WCheck?
    case Decide => p.WDecide?
    case Finish => p.Running?
    case Wake => p.Waiting?
    case Make(x) => p.Idle? && x !in s.used
    case Append => p.AAppend?
    case Signal(w) => p.ASignal? && (if w.Some? then w.value < s.workers && s.Pc(w.value).Waiting?
      else NobodyWaits(s, s.workers))
    case Destroy => p.Idle?
    case Set => p.DSet?
    case Broadcast => p.DBroadcast?
  }

  predicate NobodyWaits(s: State, n: nat) { forall w :: 0 <= w < n ==> !s.Pc(w).Waiting? }

  function NextPc(s: State, t: Tid, a: Action): Pc
    requires Enabled(s, t, a)
  {
    var p := s.Pc(t);
    match a
    case Lock => (match p case AWait(x) => AAppend(x) case DWait => DBroadcast case _ => WCheck)
    case Unlock => if p.WTaken? then Running(p.x) else Idle
    case Check => if s.queue == [] && !s.shutdown then Waiting else WDecide
    case Decide => if s.shutdown || s.queue == [] then Exited else WTaken(s.queue[0])
    case Finish => WStart
    case Wake => Woken
    case Make(x) => AWait(x)
    case Append => ASignal
    case Signal(_) => Unlocking
    case Destroy => if s.shutdown then Idle else DSet
    case Set => DWait
    case Broadcast => Unlocking
  }

  /** All places after the step: a signal wakes one worker, a broadcast all that wait. */
  function NewPc(s: State, t: Tid, a: Action, u: Tid): Pc
    requires Enabled(s, t, a)
  {
    if u == t then NextPc(s, t, a)
    else if a.Signal? && a.w == Some(u) then Woken
    else if a.Broadcast? && s.Pc(u).Waiting? then Woken
    else s.Pc(u)
  }

  predicate Sleeps(s: State, a: Action) { a.Check? && s.queue == [] && !s.shutdown }

  predicate Takes(s: State, a: Action) { a.Decide? && !s.shutdown && s.queue != [] }

  function Step(s: State, t: Tid, a: Action): State
    requires Enabled(s, t, a)
  {
    var p := s.Pc(t);
    State(
      s.workers,
      if Takes(s, a) then s.queue[1..] else if a.Append? then s.queue + [p.x] else s.queue,
      s.shutdown || a.Set?,
      if a.Lock? then Some(t) else if a.Unlock? || Sleeps(s, a) || (a.Decide? && !Takes(s, a)) then None else s.lock,
      map u | u in s.pcs.Keys + {t} :: NewPc(s, t, a, u),
      if a.Append? then s.added + [p.x] else s.added,
      if Takes(s, a) then s.taken + [s.queue[0]] else s.taken,
      if a.Finish? then s.done + {p.x} else s.done,
      if Takes(s, a) then s.runner[s.queue[0] := t] else if a.Finish? then s.runner - {p.x} else s.runner,
      if a.Make? then s.used + {a.x} else s.used,
      s.broadcast || a.Broadcast?,
      s.crashed || (a.Decide? && !s.shutdown && s.queue == []))
  }

  lemma Pcs(s: State, t: Tid, a: Action, u: Tid)
    requires Enabled(s, t, a)
    ensures Step(s, t, a).Pc(u) == NewPc(s, t, a, u)
  {
    hide NextPc;
  }

  // ----- what every step keeps

  /** A thread holds the lock as its place says; workers stay workers; an item that a thread has in hand is its own. */
  ghost predicate ThreadOk(s: State, t: Tid) {
    var p := s.Pc(t);
    && (Locked(p) <==> s.lock == Some(t))
    && (OfWorker(p) <==> t < s.workers)
    && (p.WTaken? || p.Running? ==> p.x in s.runner && s.runner[p.x] == t)
    && (p.AWait? || p.AAppend? ==> p.x in s.used && p.x !in s.added)
    && (p.WDecide? ==> s.queue != [] || s.shutdown)
    && (p.DWait? || p.DBroadcast? ==> s.shutdown)
  }

  /** No two threads are about to add the same item. */
  ghost predicate Apart(s: State, t: Tid, u: Tid) {
    t != u && (s.Pc(t).AWait? || s.Pc(t).AAppend?) && (s.Pc(u).AWait? || s.Pc(u).AAppend?) ==> s.Pc(t).x != s.Pc(u).x
  }

  /** What was added is what was taken, in this order, and then what is still queued. */
  ghost predicate QueueOk(s: State) {
    s.added == s.taken + s.queue && NoTwice(s.added) && forall x :: x in s.added ==> x in s.used
  }

  /** An item that was taken is run by one worker, or is done. */
  ghost predicate ItemOk(s: State, x: Item) {
    && (x in s.taken <==> x in s.runner || x in s.done)
    && !(x in s.runner && x in s.done)
    && (x in s.runner ==> Carries(s.Pc(s.runner[x]), x))
  }

  /** If all workers sleep, there is nothing to do, or the pool is being shut down, or a signal is just about to
      come. */
  ghost predicate AwakeOk(s: State) {
    AllWait(s) ==>
      s.queue == [] || s.shutdown || s.workers == 0 || (s.lock.Some? && s.Pc(s.lock.value).ASignal?)
  }

  /** After the broadcast of a shutdown nobody sleeps. */
  ghost predicate BroadcastOk(s: State) {
    s.broadcast ==> s.shutdown && forall w :: 0 <= w < s.workers ==> !s.Pc(w).Waiting?
  }

  ghost predicate Inv(s: State) {
    && !s.crashed && QueueOk(s) && AwakeOk(s) && BroadcastOk(s)
    && (forall t: Tid :: ThreadOk(s, t)) && (forall t: Tid, u: Tid :: Apart(s, t, u))
    && (forall x: Item :: ItemOk(s, x))
  }

  lemma InitOk(workers: nat)
    ensures Inv(Init(workers))
  {
  }

  lemma TakenNotQueued(s: State, x: Item)
    requires QueueOk(s) && x in s.taken
    ensures x !in s.queue && x in s.added
  {
    var i :| 0 <= i < |s.taken| && s.taken[i] == x;
    assert s.added[i] == x;
    forall j | 0 <= j < |s.queue|
      ensures s.queue[j] != x
    {
      assert s.added[|s.taken| + j] == s.queue[j];
    }
  }

  lemma ThreadKeeps(s: State, t: Tid, a: Action, u: Tid)
    requires Enabled(s, t, a) && ThreadOk(s, t) && ThreadOk(s, u) && Apart(s, t, u) && QueueOk(s)
    requires forall x: Item :: ItemOk(s, x)
    ensures ThreadOk(Step(s, t, a), u)
  {
    hide NoTwice;
    Pcs(s, t, a, u);
    var p := s.Pc(u);
    if p.WTaken? || p.Running? {
      assert ItemOk(s, p.x);
      TakenNotQueued(s, p.x);
    }
  }

  lemma ApartKeeps(s: State, t: Tid, a: Action, u: Tid, v: Tid)
    requires Enabled(s, t, a) && ThreadOk(s, u) && ThreadOk(s, v) && Apart(s, u, v)
    ensures Apart(Step(s, t, a), u, v)
  {
    Pcs(s, t, a, u);
    Pcs(s, t, a, v);
  }

  lemma QueueKeeps(s: State, t: Tid, a: Action)
    requires Enabled(s, t, a) && ThreadOk(s, t) && QueueOk(s)
    ensures QueueOk(Step(s, t, a))
  {
    hide NextPc, NewPc;
    var z := Step(s, t, a);
    if Takes(s, a) {
      assert s.taken + s.queue == (s.taken + [s.queue[0]]) + s.queue[1..];
    } else if a.Append? {
      assert (s.taken + s.queue) + [s.Pc(t).x] == s.taken + (s.queue + [s.Pc(t).x]);
    }
  }

  lemma ItemKeeps(s: State, t: Tid, a: Action, x: Item)
    requires Enabled(s, t, a) && ThreadOk(s, t) && ItemOk(s, x) && QueueOk(s)
    ensures ItemOk(Step(s, t, a), x)
  {
    hide NoTwice, QueueOk;
    var z := Step(s, t, a);
    if x in z.runner {
      Pcs(s, t, a, z.runner[x]);
    }
    if x in s.taken {
      TakenNotQueued(s, x);
    }
  }

  ghost predicate AllWait(s: State) { forall w :: 0 <= w < s.workers ==> s.Pc(w).Waiting? }

  /** If a step leaves all workers asleep, they were asleep before it, or the last of them has found nothing to do. */
  lemma AllWaitBefore(s: State, t: Tid, a: Action)
    requires Enabled(s, t, a) && ThreadOk(s, t) && AllWait(Step(s, t, a))
    ensures AllWait(s) || Sleeps(s, a)
    ensures a.Signal? ==> s.workers == 0
  {
    var z := Step(s, t, a);
    Pcs(s, t, a, t);
    forall w | 0 <= w < s.workers
      ensures s.Pc(w).Waiting? || Sleeps(s, a)
    {
      assert z.Pc(w).Waiting?;
      Pcs(s, t, a, w);
    }
    if a.Signal? && s.workers > 0 {
      assert z.Pc(0).Waiting?;
      Pcs(s, t, a, 0);
      if a.w.Some? {
        assert z.Pc(a.w.value).Waiting?;
        Pcs(s, t, a, a.w.value);
      }
    }
  }

  lemma AwakeKeeps(s: State, t: Tid, a: Action)
    requires Enabled(s, t, a) && AwakeOk(s) && ThreadOk(s, t)
    ensures AwakeOk(Step(s, t, a))
  {
    var z := Step(s, t, a);
    if AllWait(z) {
      AllWaitBefore(s, t, a);
      Pcs(s, t, a, t);
      if s.lock.Some? {
        Pcs(s, t, a, s.lock.value);
      }
      if t < s.workers {
        assert z.Pc(t).Waiting?;
      }
    }
  }

  lemma BroadcastKeeps(s: State, t: Tid, a: Action)
    requires Enabled(s, t, a) && BroadcastOk(s) && ThreadOk(s, t)
    ensures BroadcastOk(Step(s, t, a))
  {
    var z := Step(s, t, a);
    forall w | z.broadcast && 0 <= w < s.workers
      ensures !z.Pc(w).Waiting?
    {
      Pcs(s, t, a, w);
    }
  }

  lemma StepKeeps(s: State, t: Tid, a: Action)
    requires Inv(s) && Enabled(s, t, a)
    ensures Inv(Step(s, t, a))
  {
    hide Step, Enabled, QueueOk, AwakeOk, BroadcastOk, ThreadOk, Apart, ItemOk;
    assert ThreadOk(s, t);
    NeverEmpty(s, t, a);
    QueueKeeps(s, t, a);
    AwakeKeeps(s, t, a);
    BroadcastKeeps(s, t, a);
    forall u: Tid
      ensures ThreadOk(Step(s, t, a), u)
    {
      assert Apart(s, t, u);
      ThreadKeeps(s, t, a, u);
    }
    forall u: Tid, v: Tid
      ensures Apart(Step(s, t, a), u, v)
    {
      ApartKeeps(s, t, a, u, v);
    }
    forall x: Item
      ensures ItemOk(Step(s, t, a), x)
    {
      ItemKeeps(s, t, a, x);
    }
  }

  lemma NeverEmpty(s: State, t: Tid, a: Action)
    requires Enabled(s, t, a) && ThreadOk(s, t) && !s.crashed
    ensures !Step(s, t, a).crashed
  {
    hide NextPc, NewPc;
  }

  // ----- all runs

  ghost predicate IsRun(workers: nat, ss: seq<State>, moves: seq<(Tid, Action)>) {
    && |ss| == |moves| + 1 && ss[0] == Init(workers)
    && forall i :: 0 <= i < |moves| ==>
      Enabled(ss[i], moves[i].0, moves[i].1) && ss[i + 1] == Step(ss[i], moves[i].0, moves[i].1)
  }

  lemma {:induction false} RunKeeps(workers: nat, ss: seq<State>, moves: seq<(Tid, Action)>, i: nat)
    requires IsRun(workers, ss, moves) && i < |ss|
    ensures Inv(ss[i]) && ss[i].workers == workers
  {
    hide Inv, Enabled, NewPc, Takes, Sleeps;
    if i == 0 {
      InitOk(workers);
    } else {
      RunKeeps(workers, ss, moves, i - 1);
      StepKeeps(ss[i - 1], moves[i - 1].0, moves[i - 1].1);
    }
  }

  /** In every state of every run: items are taken in the order in which they were added, and every item added is in
      exactly one place, queued, in the hands of one worker, or done. */
  lemma NothingIsLost(workers: nat, ss: seq<State>, moves: seq<(Tid, Action)>, i: nat, x: Item)
    requires IsRun(workers, ss, moves) && i < |ss|
    ensures var s := ss[i]; s.added == s.taken + s.queue && NoTwice(s.added)
    ensures
      var s := ss[i];
      && (x in s.added <==> x in s.queue || x in s.runner || x in s.done)
      && !(x in s.queue && x in s.runner) && !(x in s.queue && x in s.done) && !(x in s.runner && x in s.done)
      && (x in s.runner ==> Carries(s.Pc(s.runner[x]), x))
  {
    hide IsRun, ThreadOk, Apart, AwakeOk, BroadcastOk, NoTwice;
    RunKeeps(workers, ss, moves, i);
    var s := ss[i];
    assert ItemOk(s, x);
    if x in s.taken {
      TakenNotQueued(s, x);
    }
  }

  /** Before a shutdown, work in the queue never meets a pool in which all workers sleep, except while a thread that has
      just added some is about to signal; and after the broadcast of a shutdown no worker sleeps. */
  lemma NobodySleepsThroughWork(workers: nat, ss: seq<State>, moves: seq<(Tid, Action)>, i: nat)
    requires IsRun(workers, ss, moves) && i < |ss| && workers > 0
    ensures
      var s := ss[i];
      && !s.crashed
      && (s.queue != [] && !s.shutdown && !(s.lock.Some? && s.Pc(s.lock.value).ASignal?) ==>
            exists w :: 0 <= w < workers && !s.Pc(w).Waiting?)
    ensures var s := ss[i]; s.broadcast ==> forall w :: 0 <= w < workers ==> !s.Pc(w).Waiting?
  {
    hide IsRun, ThreadOk, Apart, ItemOk, QueueOk;
    RunKeeps(workers, ss, moves, i);
  }

  lemma {:induction false} StaysDone(workers: nat, ss: seq<State>, moves: seq<(Tid, Action)>, i: nat, j: nat, x: Item)
    requires IsRun(workers, ss, moves) && i <= j < |ss| && x in ss[i].done
    ensures x in ss[j].done
    decreases j
  {
    hide Enabled, NewPc, Takes, Sleeps;
    if i < j {
      StaysDone(workers, ss, moves, i, j - 1, x);
    }
  }

  /** No item is run twice. */
  lemma RunOnce(workers: nat, ss: seq<State>, moves: seq<(Tid, Action)>, i: nat, j: nat, x: Item)
    requires IsRun(workers, ss, moves) && i <= j < |moves| && moves[i].1.Finish? && moves[j].1.Finish?
    requires ss[i].Pc(moves[i].0) == Running(x) && ss[j].Pc(moves[j].0) == Running(x)
    ensures i == j
  {
    hide Apart, AwakeOk, BroadcastOk, QueueOk, NewPc, Takes, Sleeps;
    if i < j {
      assert x in ss[i + 1].done;
      StaysDone(workers, ss, moves, i + 1, j, x);
      RunKeeps(workers, ss, moves, j);
      NotBoth(ss[j], moves[j].0, x);
    }
  }

  lemma NotBoth(s: State, t: Tid, x: Item)
    requires Inv(s) && s.Pc(t) == Running(x)
    ensures x !in s.done
  {
    hide Apart, AwakeOk, BroadcastOk, QueueOk;
    assert ThreadOk(s, t) && ItemOk(s, x);
  }
}
