/** The reference-counted cache with atomic counts: every interleaving of its steps. */
module RefcntAtomic {
  import opened Common
  const MAX_CACHE_SIZE: nat := 10

  type Oid = nat
  type Tid = nat

  datatype Object = Object(refcnt: int, id: int, popularity: nat)

  /** Where a thread stands; from Adding to Unlocking it holds cache_lock. */
  datatype Pc = Idle
    | AddWait(o: Oid)            // cache_add: has made the object, waits for the lock
    | Adding(o: Oid)             // __cache_add: before list_add
    | Evicting(o: Oid)           // __cache_add: looks for the outcast
    | FindScan(id: int)          // cache_find: before __cache_find
    | DeleteScan(id: int)        // cache_delete: before __cache_find
    | Taking(o: Oid, id: int)    // cache_find: before object_get
    | Deleting(o: Oid)           // __cache_delete: before list_del
    | Dropping(o: Oid)           // __cache_delete: before object_put
    | FreeLocked(o: Oid)         // the same, the count has become zero
    | Counting                   // __cache_delete: before cache_num--
    | Unlocking
    | FreePut(o: Oid)            // object_put outside the lock, the count has become zero

  predicate Locked(p: Pc) {
    !p.Idle? && !p.AddWait? && !p.FreePut?
  }

  /** The thread has the object's first reference, which is not in the list or no longer. */
  predicate Carries(p: Pc, o: Oid) { p == AddWait(o) || p == Adding(o) || p == Dropping(o) }

  predicate Frees(p: Pc, o: Oid) { p == FreeLocked(o) || p == FreePut(o) }

  /** objs holds what is allocated. held are the references handed out to clients. carrier and freer say which thread
      carries an object's first reference, and which one is about to free it. crashed is set by an access to an object
      that is not allocated. */
  datatype State = State(objs: map<Oid, Object>, list: seq<Oid>, cacheNum: int, lock: Option<Tid>, pcs: map<Tid, Pc>,
                         held: multiset<Oid>, freed: set<Oid>, carrier: map<Oid, Tid>, freer: map<Oid, Tid>,
                         crashed: bool) {
    function Pc(t: Tid): Pc { if t in pcs then pcs[t] else Idle }

    function Count(o: Oid): int { if o in objs then objs[o].refcnt else 0 }

    function Popularity(o: Oid): nat { if o in objs then objs[o].popularity else 0 }
  }

  // ----- the two loops over the list

  /** __cache_find: the first object with this id. */
  function First(s: State, list: seq<Oid>, id: int): Option<Oid> {
    if list == [] then None
    else if list[0] in s.objs && s.objs[list[0]].id == id then Some(list[0])
    else First(s, list[1..], id)
  }

  /** The outcast: the first of the least popular objects. */
  function Outcast(s: State, list: seq<Oid>): (o: Oid)
    requires list != []
    ensures o in list && forall x :: x in list ==> s.Popularity(o) <= s.Popularity(x)
  {
    if |list| == 1 then list[0]
    else
      var o := Outcast(s, list[..|list| - 1]);
      if s.Popularity(list[|list| - 1]) < s.Popularity(o) then list[|list| - 1] else o
  }

  /** The loop of __cache_find. */
  method ScanForId(s: State, id: int) returns (r: Option<Oid>)
    ensures r == First(s, s.list, id)
  {
    var i := 0;
    assert s.list[0..] == s.list;
    while i < |s.list|
      invariant 0 <= i <= |s.list| && First(s, s.list, id) == First(s, s.list[i..], id)
    {
      if s.list[i] in s.objs && s.objs[s.list[i]].id == id {
        return Some(s.list[i]);
      }
      assert s.list[i..][1..] == s.list[i + 1..];
      i := i + 1;
    }
    r := None;
  }

  /** The loop of __cache_add over a cache that has become too large. */
  method ScanForOutcast(s: State) returns (o: Oid)
    requires s.list != []
    ensures o == Outcast(s, s.list)
  {
    o := s.list[0];
    var i := 1;
    while i < |s.list|
      invariant 1 <= i <= |s.list| && o == Outcast(s, s.list[..i])
    {
      assert s.list[..i + 1][..i] == s.list[..i];
      if s.Popularity(s.list[i]) < s.Popularity(o) {
        o := s.list[i];
      }
      i := i + 1;
    }
    assert s.list[..i] == s.list;
  }

  // ----- the steps

  datatype Action = Alloc(id: int, o: Oid) | LockAdd | Insert | Choose | Unlink | Drop | FreeIt | CountDown | Unlock
    | LockFind(id: int) | ScanFind | Take | LockDelete(id: int) | ScanDelete | Get(o: Oid) | Put(o: Oid)

  /** When thread t can take the step. object_get and object_put may be called for an object of which a reference is
      held, and cache_delete for an id that is in the cache. */
  predicate Enabled(s: State, t: Tid, a: Action) {
    var p := s.Pc(t);
    match a
    case Alloc(_, o) => p.Idle? && o !in s.objs && o !in s.freed
    case LockAdd => p.AddWait? && s.lock == None
    case Insert => p.Adding?
    case Choose => p.Evicting? && s.list != []
    case Unlink => p.Deleting?
    case Drop => p.Dropping?
    case FreeIt => p.FreeLocked? || p.FreePut?
    case CountDown => p.Counting?
    case Unlock => p.Unlocking?
    case LockFind(_) => p.Idle? && s.lock == None
    case ScanFind => p.FindScan?
    case Take => p.Taking?
    case LockDelete(_) => p.Idle? && s.lock == None
    case ScanDelete => p.DeleteScan? && First(s, s.list, p.id).Some?
    case Get(o) => p.Idle? && s.held[o] > 0
    case Put(o) => p.Idle? && s.held[o] > 0
  }

  /** What a step does to each variable. */
  function NextPc(s: State, t: Tid, a: Action): Pc
    requires Enabled(s, t, a)
  {
    var p := s.Pc(t);
    match a
    case Alloc(_, o) => AddWait(o)
    case LockAdd => Adding(p.o)
    case Insert => if s.cacheNum + 1 > MAX_CACHE_SIZE then Evicting(p.o) else Unlocking
    case Choose => Deleting(Outcast(s, s.list))
    case Unlink => Dropping(p.o)
    case Drop => if s.Count(p.o) == 1 then FreeLocked(p.o) else Counting
    case FreeIt => if p.FreeLocked? then Counting else Idle
    case CountDown => Unlocking
    case Unlock => Idle
    case LockFind(id) => FindScan(id)
    case ScanFind => (match First(s, s.list, p.id) { case None => Unlocking case Some(o) => Taking(o, p.id) })
    case Take => Unlocking
    case LockDelete(id) => DeleteScan(id)
    case ScanDelete => Deleting(First(s, s.list, p.id).value)
    case Get(_) => Idle
    case Put(o) => if s.Count(o) == 1 then FreePut(o) else Idle
  }

  function Bump(objs: map<Oid, Object>, o: Oid, d: int): map<Oid, Object> {
    if o in objs then objs[o := objs[o].(refcnt := objs[o].refcnt + d)] else objs
  }

  function Praise(objs: map<Oid, Object>, o: Oid): map<Oid, Object> {
    if o in objs then objs[o := objs[o].(popularity := objs[o].popularity + 1)] else objs
  }

  function NewObjs(s: State, p: Pc, a: Action): map<Oid, Object> {
    match a
    case Alloc(id, o) => s.objs[o := Object(1, id, 0)]
    case Drop => if p.Dropping? then Bump(s.objs, p.o, -1) else s.objs
    case FreeIt => if p.FreeLocked? || p.FreePut? then s.objs - {p.o} else s.objs
    case ScanFind =>
      if p.FindScan? && First(s, s.list, p.id).Some? then Praise(s.objs, First(s, s.list, p.id).value) else s.objs
    case ScanDelete =>
      if p.DeleteScan? && First(s, s.list, p.id).Some? then Praise(s.objs, First(s, s.list, p.id).value) else s.objs
    case Take => if p.Taking? then Bump(s.objs, p.o, 1) else s.objs
    case Get(o) => Bump(s.objs, o, 1)
    case Put(o) => Bump(s.objs, o, -1)
    case _ => s.objs
  }

  function NewList(s: State, p: Pc, a: Action): seq<Oid> {
    if a.Insert? && p.Adding? then [p.o] + s.list else if a.Unlink? && p.Deleting? then Without(s.list, p.o) else s.list
  }

  function NewNum(s: State, a: Action): int {
    if a.Insert? then s.cacheNum + 1 else if a.CountDown? then s.cacheNum - 1 else s.cacheNum
  }

  function NewLock(s: State, t: Tid, a: Action): Option<Tid> {
    if a.LockAdd? || a.LockFind? || a.LockDelete? then Some(t) else if a.Unlock? then None else s.lock
  }

  function NewHeld(s: State, p: Pc, a: Action): multiset<Oid> {
    if a.Take? && p.Taking? then s.held + multiset{p.o}
    else if a.Get? then s.held + multiset{a.o}
    else if a.Put? then s.held - multiset{a.o}
    else s.held
  }

  function NewCarrier(s: State, t: Tid, p: Pc, a: Action): map<Oid, Tid> {
    if a.Alloc? then s.carrier[a.o := t]
    else if a.Unlink? && p.Deleting? then s.carrier[p.o := t]
    else if (a.Insert? && p.Adding?) || (a.Drop? && p.Dropping?) then s.carrier - {p.o}
    else s.carrier
  }

  function NewFreer(s: State, t: Tid, p: Pc, a: Action): map<Oid, Tid> {
    if a.Drop? && p.Dropping? && s.Count(p.o) == 1 then s.freer[p.o := t]
    else if a.Put? && s.Count(a.o) == 1 then s.freer[a.o := t]
    else if a.FreeIt? && (p.FreeLocked? || p.FreePut?) then s.freer - {p.o}
    else s.freer
  }

  /** The object that the step reads or writes. */
  function Touched(s: State, p: Pc, a: Action): Option<Oid> {
    match a
    case Get(o) => Some(o)
    case Put(o) => Some(o)
    case ScanFind => if p.FindScan? then First(s, s.list, p.id) else None
    case ScanDelete => if p.DeleteScan? then First(s, s.list, p.id) else None
    case _ => if p.Adding? || p.Deleting? || p.Dropping? || p.Taking? || p.FreeLocked? || p.FreePut? then Some(p.o)
      else None
  }

  function Step(s: State, t: Tid, a: Action): State
    requires Enabled(s, t, a)
  {
    var p := s.Pc(t);
    State(NewObjs(s, p, a), NewList(s, p, a), NewNum(s, a), NewLock(s, t, a), s.pcs[t := NextPc(s, t, a)],
          NewHeld(s, p, a),
          if a.FreeIt? && (p.FreeLocked? || p.FreePut?) then s.freed + {p.o} else s.freed,
          NewCarrier(s, t, p, a), NewFreer(s, t, p, a),
          s.crashed || (Touched(s, p, a).Some? && Touched(s, p, a).value !in s.objs))
  }

  function Init(): State {
    State(map[], [], 0, None, map[], multiset{}, {}, map[], map[], false)
  }

  // ----- what every step keeps

  /** An object in the list is allocated. An object's count is its place in the list, or in the hands of the thread that
      adds or removes it, and the references that clients hold. An object without a reference is about to be freed by
      one thread, and nobody has anything of a freed object. */
  ghost predicate ObjOk(s: State, o: Oid) {
    && (o in s.list ==> o in s.objs && o !in s.carrier)
    && (o in s.carrier ==> o in s.objs && Carries(s.Pc(s.carrier[o]), o))
    && (o in s.objs ==> s.objs[o].refcnt == (if o in s.list || o in s.carrier then 1 else 0) + s.held[o])
    && (s.held[o] > 0 ==> o in s.objs)
    && (o in s.freer <==> o in s.objs && s.objs[o].refcnt == 0)
    && (o in s.freer ==> Frees(s.Pc(s.freer[o]), o))
    && (o in s.freed ==> o !in s.objs)
  }

  ghost predicate ThreadOk(s: State, t: Tid) {
    var p := s.Pc(t);
    && (p.AddWait? || p.Adding? || p.Dropping? ==> p.o in s.carrier && s.carrier[p.o] == t)
    && (p.FreeLocked? || p.FreePut? ==> p.o in s.freer && s.freer[p.o] == t)
    && (Locked(p) <==> s.lock == Some(t))
  }

  /** cache_num is the length of the list, and between critical sections it is at most MAX_CACHE_SIZE. */
  ghost predicate NumOk(s: State) {
    match s.lock
    case None => s.cacheNum == |s.list| <= MAX_CACHE_SIZE
    case Some(t) =>
      match s.Pc(t)
      case Evicting(_) => s.cacheNum == |s.list| == MAX_CACHE_SIZE + 1
      case Deleting(o) => o in s.list && s.cacheNum == |s.list| <= MAX_CACHE_SIZE + 1
      case Taking(o, _) => o in s.list && s.cacheNum == |s.list| <= MAX_CACHE_SIZE
      case Dropping(_) => s.cacheNum == |s.list| + 1 <= MAX_CACHE_SIZE + 1
      case FreeLocked(_) => s.cacheNum == |s.list| + 1 <= MAX_CACHE_SIZE + 1
      case Counting => s.cacheNum == |s.list| + 1 <= MAX_CACHE_SIZE + 1
      case _ => s.cacheNum == |s.list| <= MAX_CACHE_SIZE
  }

  /** Nobody has looked for an object before it is in the list. */
  ghost predicate NewOk(s: State, t: Tid) {
    match s.Pc(t)
    case AddWait(o) => s.Popularity(o) == 0
    case Adding(o) => s.Popularity(o) == 0
    case Evicting(o) => s.list != [] && s.list[0] == o && s.Popularity(o) == 0
    case _ => true
  }

  ghost predicate Inv(s: State) {
    && !s.crashed && NoTwice(s.list) && NumOk(s)
    && (forall o: Oid :: ObjOk(s, o)) && (forall t: Tid :: ThreadOk(s, t)) && (forall t: Tid :: NewOk(s, t))
  }

  lemma InitOk()
    ensures Inv(Init())
  {
  }

  lemma {:induction false} WithoutOk(list: seq<Oid>, o: Oid)
    requires NoTwice(list)
    ensures NoTwice(Without(list, o)) && forall x :: x in Without(list, o) <==> x in list && x != o
    ensures o in list ==> |Without(list, o)| == |list| - 1
  {
    if list != [] {
      var rest := list[1..];
      assert list == [list[0]] + rest;
      assert forall x :: x in rest ==> x != list[0];
      if list[0] != o {
        WithoutOk(rest, o);
        var w := Without(rest, o);
        forall i, j | 0 <= i < j < |w| + 1
          ensures ([list[0]] + w)[i] != ([list[0]] + w)[j]
        {
          assert w[j - 1] in w;
        }
      }
    }
  }

  lemma {:induction false} FirstOk(s: State, list: seq<Oid>, id: int)
    ensures
      match First(s, list, id)
      case None => forall o :: o in list && o in s.objs ==> s.objs[o].id != id
      case Some(o) => o in list && o in s.objs && s.objs[o].id == id
  {
    if list != [] {
      FirstOk(s, list[1..], id);
      assert list == [list[0]] + list[1..];
    }
  }

  /** What is known about the object that a thread works on. */
  ghost predicate Knows(s: State, t: Tid) {
    match s.Pc(t)
    case AddWait(o) => o in s.objs && o in s.carrier && s.carrier[o] == t && o !in s.list
    case Adding(o) => o in s.objs && o in s.carrier && s.carrier[o] == t && o !in s.list
    case Dropping(o) => o in s.objs && o in s.carrier && s.carrier[o] == t && o !in s.list
    case Deleting(o) => o in s.objs && o in s.list && o !in s.carrier
    case Taking(o, _) => o in s.objs && o in s.list && o !in s.carrier
    case FreeLocked(o) => IsFreed(s, t, o)
    case FreePut(o) => IsFreed(s, t, o)
    case _ => true
  }

  ghost predicate IsFreed(s: State, t: Tid, o: Oid) {
    && o in s.objs && s.objs[o].refcnt == 0 && o in s.freer && s.freer[o] == t
    && o !in s.list && o !in s.carrier && s.held[o] == 0
  }

  lemma InvKnows(s: State, t: Tid)
    requires Inv(s)
    ensures Knows(s, t)
  {
    hide NoTwice;
    assert ThreadOk(s, t);
    var p := s.Pc(t);
    if p.AddWait? || p.Adding? || p.Dropping? || p.Deleting? || p.Taking? || p.FreeLocked? || p.FreePut? {
      assert ObjOk(s, p.o);
    }
  }

  /** The object that a scan finds. */
  ghost predicate Scanned(s: State, t: Tid) {
    match s.Pc(t)
    case FindScan(id) => First(s, s.list, id).Some? ==>
      First(s, s.list, id).value in s.list && First(s, s.list, id).value in s.objs
    case DeleteScan(id) => First(s, s.list, id).Some? ==>
      First(s, s.list, id).value in s.list && First(s, s.list, id).value in s.objs
    case _ => true
  }

  lemma ScanKnows(s: State, t: Tid)
    ensures Scanned(s, t)
  {
    match s.Pc(t)
    case FindScan(id) => FirstOk(s, s.list, id);
    case DeleteScan(id) => FirstOk(s, s.list, id);
    case _ =>
  }

  // ----- one clause after the other

  /** The thread's own place, and that of the others. */
  lemma Pcs(s: State, t: Tid, a: Action, u: Tid)
    requires Enabled(s, t, a)
    ensures Step(s, t, a).Pc(u) == if u == t then NextPc(s, t, a) else s.Pc(u)
  {
    hide NextPc;
  }

  lemma NeverCrashes(s: State, t: Tid, a: Action)
    requires !s.crashed && Knows(s, t) && Scanned(s, t) && Enabled(s, t, a)
    requires forall o: Oid :: s.held[o] > 0 ==> o in s.objs
    ensures !Step(s, t, a).crashed
  {
    hide First, Outcast, Without, NextPc, NewObjs, NewList, NewHeld, NewCarrier, NewFreer;
  }

  /** Steps that only move the thread, or take and leave the lock. */
  lemma WalkKeeps(s: State, t: Tid, a: Action, o: Oid)
    requires Enabled(s, t, a) && Knows(s, t) && Scanned(s, t) && ObjOk(s, o) && NoTwice(s.list)
    requires a.LockAdd? || a.Choose? || a.CountDown? || a.Unlock? || a.LockFind? || a.LockDelete?
    ensures ObjOk(Step(s, t, a), o)
  {
    hide First, Outcast, Without, NoTwice, Touched;
    var z := Step(s, t, a);
    if o in z.carrier {
      Pcs(s, t, a, z.carrier[o]);
    }
    if o in z.freer {
      Pcs(s, t, a, z.freer[o]);
    }
  }

  /** The scans. */
  lemma ScanKeeps(s: State, t: Tid, a: Action, o: Oid)
    requires Enabled(s, t, a) && Knows(s, t) && Scanned(s, t) && ObjOk(s, o) && NoTwice(s.list)
    requires a.ScanFind? || a.ScanDelete?
    ensures ObjOk(Step(s, t, a), o)
  {
    hide First, Outcast, Without, NoTwice, Touched;
    var z := Step(s, t, a);
    if o in z.carrier {
      Pcs(s, t, a, z.carrier[o]);
    }
    if o in z.freer {
      Pcs(s, t, a, z.freer[o]);
    }
  }

  /** Steps that move the first reference. */
  lemma MoveKeeps(s: State, t: Tid, a: Action, o: Oid)
    requires Enabled(s, t, a) && Knows(s, t) && Scanned(s, t) && ObjOk(s, o) && NoTwice(s.list)
    requires a.Alloc? || a.Insert? || a.Unlink?
    ensures ObjOk(Step(s, t, a), o)
  {
    hide First, Outcast, Without, NoTwice, Touched;
    var z := Step(s, t, a);
    if o in z.carrier {
      Pcs(s, t, a, z.carrier[o]);
    }
    if o in z.freer {
      Pcs(s, t, a, z.freer[o]);
    }
    if a.Unlink? {
      WithoutOk(s.list, s.Pc(t).o);
    }
  }

  /** A reference is added in the cache. */
  lemma TakeKeeps(s: State, t: Tid, a: Action, o: Oid)
    requires Enabled(s, t, a) && Knows(s, t) && ObjOk(s, o) && a.Take?
    ensures ObjOk(Step(s, t, a), o)
  {
    var z := Step(s, t, a);
    if o in z.carrier {
      Pcs(s, t, a, z.carrier[o]);
    }
    if o in z.freer {
      Pcs(s, t, a, z.freer[o]);
    }
  }

  /** A reference is added by its holder. */
  lemma GetKeeps(s: State, t: Tid, a: Action, o: Oid)
    requires Enabled(s, t, a) && Knows(s, t) && ObjOk(s, o) && a.Get?
    ensures ObjOk(Step(s, t, a), o)
  {
    var z := Step(s, t, a);
    if o in z.carrier {
      Pcs(s, t, a, z.carrier[o]);
    }
    if o in z.freer {
      Pcs(s, t, a, z.freer[o]);
    }
  }

  /** The first reference is taken away. */
  lemma DropKeeps(s: State, t: Tid, a: Action, o: Oid)
    requires Enabled(s, t, a) && Knows(s, t) && ObjOk(s, o) && a.Drop?
    ensures ObjOk(Step(s, t, a), o)
  {
    var z := Step(s, t, a);
    if o in z.carrier {
      Pcs(s, t, a, z.carrier[o]);
    }
    if o in z.freer {
      Pcs(s, t, a, z.freer[o]);
    }
  }

  /** A client gives a reference back. */
  lemma PutKeeps(s: State, t: Tid, a: Action, o: Oid)
    requires Enabled(s, t, a) && Knows(s, t) && ObjOk(s, o) && a.Put?
    ensures ObjOk(Step(s, t, a), o)
  {
    var z := Step(s, t, a);
    if o in z.carrier {
      Pcs(s, t, a, z.carrier[o]);
    }
    if o in z.freer {
      Pcs(s, t, a, z.freer[o]);
    }
  }

  /** kfree. */
  lemma FreeKeeps(s: State, t: Tid, a: Action, o: Oid)
    requires Enabled(s, t, a) && Knows(s, t) && ObjOk(s, o) && a.FreeIt?
    ensures ObjOk(Step(s, t, a), o)
  {
    hide First, Outcast, Without, NoTwice, Touched;
    var z := Step(s, t, a);
    if o in z.carrier {
      Pcs(s, t, a, z.carrier[o]);
    }
    if o in z.freer {
      Pcs(s, t, a, z.freer[o]);
    }
  }

  ghost predicate CarriesOk(s: State, t: Tid) {
    var p := s.Pc(t);
    p.AddWait? || p.Adding? || p.Dropping? ==> p.o in s.carrier && s.carrier[p.o] == t
  }

  lemma CarriesKeeps(s: State, t: Tid, a: Action, u: Tid)
    requires Enabled(s, t, a) && Knows(s, t) && Knows(s, u)
    ensures CarriesOk(Step(s, t, a), u)
  {
    hide First, Outcast, Without, IsFreed, NewObjs, NewList, NewHeld, NewFreer, Touched;
    Pcs(s, t, a, u);
  }

  ghost predicate FreesOk(s: State, t: Tid) {
    var p := s.Pc(t);
    p.FreeLocked? || p.FreePut? ==> p.o in s.freer && s.freer[p.o] == t
  }

  lemma FreesKeeps(s: State, t: Tid, a: Action, u: Tid)
    requires Enabled(s, t, a) && Knows(s, t) && Knows(s, u)
    ensures FreesOk(Step(s, t, a), u)
  {
    hide First, Outcast, Without, NewObjs, NewList, NewHeld, NewCarrier, Touched;
    Pcs(s, t, a, u);
  }

  lemma LockKeeps(s: State, t: Tid, a: Action, u: Tid)
    requires Enabled(s, t, a) && (Locked(s.Pc(t)) <==> s.lock == Some(t)) && (Locked(s.Pc(u)) <==> s.lock == Some(u))
    ensures Locked(Step(s, t, a).Pc(u)) <==> Step(s, t, a).lock == Some(u)
  {
    hide First, Outcast, Without, NewObjs, NewList, NewHeld, NewCarrier, NewFreer, Touched;
    Pcs(s, t, a, u);
  }

  lemma ThreadKeeps(s: State, t: Tid, a: Action, u: Tid)
    requires Enabled(s, t, a) && Knows(s, t) && Knows(s, u) && ThreadOk(s, t) && ThreadOk(s, u)
    ensures ThreadOk(Step(s, t, a), u)
  {
    hide Step, Enabled, Knows;
    CarriesKeeps(s, t, a, u);
    FreesKeeps(s, t, a, u);
    LockKeeps(s, t, a, u);
  }

  lemma NoTwiceKeeps(s: State, t: Tid, a: Action)
    requires Enabled(s, t, a) && Knows(s, t) && NoTwice(s.list)
    ensures NoTwice(Step(s, t, a).list)
  {
    hide First, Outcast, Without, NextPc, NewObjs, NewHeld, NewCarrier, NewFreer, Touched;
    if a.Unlink? {
      WithoutOk(s.list, s.Pc(t).o);
    }
  }

  /** Popularity changes for what a scan finds, and for what is made or freed. */
  lemma PopularityAfter(s: State, t: Tid, a: Action, o: Oid)
    requires Enabled(s, t, a) && Scanned(s, t)
    ensures Step(s, t, a).Popularity(o) == s.Popularity(o) || a.Alloc? || a.FreeIt?
      || ((a.ScanFind? || a.ScanDelete?) && o in s.list && Locked(s.Pc(t)))
    ensures a.Alloc? ==> Step(s, t, a).Popularity(o) == if o == a.o then 0 else s.Popularity(o)
    ensures a.FreeIt? ==> Step(s, t, a).Popularity(o) == s.Popularity(o) || o == s.Pc(t).o
  {
    hide First, Outcast, Without, NextPc, NewList, NewHeld, NewCarrier, NewFreer, Touched;
  }

  lemma NumKeeps(s: State, t: Tid, a: Action)
    requires Enabled(s, t, a) && Knows(s, t) && Scanned(s, t) && ThreadOk(s, t) && NumOk(s) && NoTwice(s.list)
    ensures NumOk(Step(s, t, a))
  {
    hide First, Without, NoTwice, IsFreed, NewObjs, NewHeld, NewCarrier, NewFreer, Touched;
    Pcs(s, t, a, t);
    if s.lock.Some? {
      Pcs(s, t, a, s.lock.value);
    }
    if a.Unlink? {
      WithoutOk(s.list, s.Pc(t).o);
    }
  }

  lemma OwnNewKeeps(s: State, t: Tid, a: Action)
    requires Enabled(s, t, a) && Knows(s, t) && Scanned(s, t) && NewOk(s, t)
    ensures NewOk(Step(s, t, a), t)
  {
    hide First, Outcast, Without, IsFreed, NewHeld, NewCarrier, NewFreer, Touched;
    Pcs(s, t, a, t);
  }

  lemma OtherNewKeeps(s: State, t: Tid, a: Action, u: Tid)
    requires u != t && Enabled(s, t, a) && Knows(s, t) && Knows(s, u) && Scanned(s, t) && NewOk(s, u)
    requires (Locked(s.Pc(t)) <==> s.lock == Some(t)) && (Locked(s.Pc(u)) <==> s.lock == Some(u))
    ensures NewOk(Step(s, t, a), u)
  {
    hide First, Outcast, Without, NextPc, NewObjs, NewHeld, NewCarrier, NewFreer, Touched;
    Pcs(s, t, a, u);
    var p := s.Pc(u);
    if p.AddWait? || p.Adding? {
      PopularityAfter(s, t, a, p.o);
    } else if p.Evicting? {
      PopularityAfter(s, t, a, s.list[0]);
    }
  }

  lemma NewKeeps(s: State, t: Tid, a: Action, u: Tid)
    requires Enabled(s, t, a) && Knows(s, t) && Knows(s, u) && Scanned(s, t) && ThreadOk(s, t) && ThreadOk(s, u)
    requires NewOk(s, t) && NewOk(s, u)
    ensures NewOk(Step(s, t, a), u)
  {
    hide Step, Enabled, Knows, Scanned, NewOk;
    if u == t {
      OwnNewKeeps(s, t, a);
    } else {
      OtherNewKeeps(s, t, a, u);
    }
  }

  lemma StepKeeps(s: State, t: Tid, a: Action)
    requires Inv(s) && Enabled(s, t, a)
    ensures Inv(Step(s, t, a))
  {
    hide Step, Enabled, Knows, NumOk, NoTwice, ThreadOk, Scanned, NewOk;
    InvKnows(s, t);
    ScanKnows(s, t);
    assert forall o: Oid :: s.held[o] > 0 ==> o in s.objs by { HeldLives(s); }
    NeverCrashes(s, t, a);
    NumKeeps(s, t, a);
    NoTwiceKeeps(s, t, a);
    forall o: Oid
      ensures ObjOk(Step(s, t, a), o)
    {
      ObjKeeps(s, t, a, o);
    }
    forall u: Tid
      ensures ThreadOk(Step(s, t, a), u) && NewOk(Step(s, t, a), u)
    {
      InvKnows(s, u);
      ThreadKeeps(s, t, a, u);
      NewKeeps(s, t, a, u);
    }
  }

  lemma HeldLives(s: State)
    requires forall o: Oid :: ObjOk(s, o)
    ensures forall o: Oid :: s.held[o] > 0 ==> o in s.objs
  {
    forall o: Oid | s.held[o] > 0
      ensures o in s.objs
    {
      assert ObjOk(s, o);
    }
  }

  lemma ObjKeeps(s: State, t: Tid, a: Action, o: Oid)
    requires Enabled(s, t, a) && Knows(s, t) && Scanned(s, t) && ObjOk(s, o) && NoTwice(s.list)
    ensures ObjOk(Step(s, t, a), o)
  {
    hide Step, Enabled, Knows, ObjOk, NoTwice, Scanned;
    match a
    case Alloc(_, _) => MoveKeeps(s, t, a, o);
    case Insert => MoveKeeps(s, t, a, o);
    case Unlink => MoveKeeps(s, t, a, o);
    case ScanFind => ScanKeeps(s, t, a, o);
    case ScanDelete => ScanKeeps(s, t, a, o);
    case Take => TakeKeeps(s, t, a, o);
    case Get(_) => GetKeeps(s, t, a, o);
    case Drop => DropKeeps(s, t, a, o);
    case Put(_) => PutKeeps(s, t, a, o);
    case FreeIt => FreeKeeps(s, t, a, o);
    case _ => WalkKeeps(s, t, a, o);
  }

  // ----- all runs

  /** A run from the empty cache: its states, and the steps between them. */
  ghost predicate IsRun(ss: seq<State>, moves: seq<(Tid, Action)>) {
    && |ss| == |moves| + 1 && ss[0] == Init()
    && forall i :: 0 <= i < |moves| ==>
      Enabled(ss[i], moves[i].0, moves[i].1) && ss[i + 1] == Step(ss[i], moves[i].0, moves[i].1)
  }

  lemma {:induction false} RunKeeps(ss: seq<State>, moves: seq<(Tid, Action)>, i: nat)
    requires IsRun(ss, moves) && i < |ss|
    ensures Inv(ss[i])
  {
    hide Inv, Step, Enabled;
    if i == 0 {
      InitOk();
    } else {
      RunKeeps(ss, moves, i - 1);
      StepKeeps(ss[i - 1], moves[i - 1].0, moves[i - 1].1);
    }
  }

  /** In every state of every run: no step has touched an object that is not allocated; what is listed or held is
      allocated, and its count is as it should be; and outside the critical sections the list has at most ten
      objects. */
  lemma RunsAreSafe(ss: seq<State>, moves: seq<(Tid, Action)>, i: nat, o: Oid)
    requires IsRun(ss, moves) && i < |ss|
    ensures !ss[i].crashed
    ensures o in ss[i].list || ss[i].held[o] > 0 ==> o in ss[i].objs && o !in ss[i].freed
    ensures o in ss[i].objs ==>
      ss[i].objs[o].refcnt == (if o in ss[i].list then 1 else 0) + (if o in ss[i].carrier then 1 else 0) + ss[i].held[o]
    ensures ss[i].lock == None ==> ss[i].cacheNum == |ss[i].list| <= MAX_CACHE_SIZE && NoTwice(ss[i].list)
  {
    hide IsRun;
    RunKeeps(ss, moves, i);
    assert ObjOk(ss[i], o);
  }

  /** Step i frees the object o. */
  ghost predicate FreesAt(ss: seq<State>, moves: seq<(Tid, Action)>, i: nat, o: Oid)
    requires IsRun(ss, moves) && i < |moves|
  {
    moves[i].1.FreeIt? && Frees(ss[i].Pc(moves[i].0), o)
  }

  lemma StepFreed(s: State, t: Tid, a: Action, o: Oid)
    requires Inv(s) && Enabled(s, t, a)
    ensures o in s.freed ==> o in Step(s, t, a).freed
    ensures a.FreeIt? && Frees(s.Pc(t), o) ==> o in Step(s, t, a).freed && o in s.objs
  {
    hide First, Outcast, Without, NextPc, NewObjs, NewList, NewHeld, NewCarrier, NewFreer, Touched, NoTwice, NumOk,
         ThreadOk, NewOk;
    InvKnows(s, t);
  }

  lemma {:induction false} StaysFreed(ss: seq<State>, moves: seq<(Tid, Action)>, i: nat, j: nat, o: Oid)
    requires IsRun(ss, moves) && i <= j < |ss| && o in ss[i].freed
    ensures o in ss[j].freed
    decreases j
  {
    hide Inv, Step, Enabled;
    if i < j {
      StaysFreed(ss, moves, i, j - 1, o);
      RunKeeps(ss, moves, j - 1);
      StepFreed(ss[j - 1], moves[j - 1].0, moves[j - 1].1, o);
    }
  }

  /** No object is freed twice. */
  lemma FreedOnce(ss: seq<State>, moves: seq<(Tid, Action)>, i: nat, j: nat, o: Oid)
    requires IsRun(ss, moves) && i <= j < |moves| && FreesAt(ss, moves, i, o) && FreesAt(ss, moves, j, o)
    ensures i == j
  {
    hide Step, Enabled, NoTwice, NumOk;
    RunKeeps(ss, moves, i);
    StepFreed(ss[i], moves[i].0, moves[i].1, o);
    if i < j {
      StaysFreed(ss, moves, i + 1, j, o);
      RunKeeps(ss, moves, j);
      FreedGone(ss[j], o);
      StepFreed(ss[j], moves[j].0, moves[j].1, o);
    }
  }

  lemma FreedGone(s: State, o: Oid)
    requires Inv(s) && o in s.freed
    ensures o !in s.objs
  {
    hide NoTwice, NumOk, ThreadOk, NewOk;
    assert ObjOk(s, o);
  }

  lemma {:induction false} FirstIsOutcast(s: State, list: seq<Oid>)
    requires list != [] && s.Popularity(list[0]) == 0
    ensures Outcast(s, list) == list[0]
  {
    if |list| > 1 {
      FirstIsOutcast(s, list[..|list| - 1]);
    }
  }

  /** In every run, the outcast is a least popular object, and it is the one that the thread has just put into the list:
      a full cache takes nothing in. */
  lemma FullCacheRefuses(ss: seq<State>, moves: seq<(Tid, Action)>, i: nat)
    requires IsRun(ss, moves) && i < |moves| && moves[i].1.Choose?
    ensures
      var s := ss[i];
      && s.Pc(moves[i].0).Evicting? && var mine := s.Pc(moves[i].0).o;
      && s.list != [] && s.list[0] == mine && ss[i + 1].Pc(moves[i].0) == Deleting(mine)
      && forall o :: o in s.list ==> s.Popularity(mine) <= s.Popularity(o)
  {
    hide Step, NoTwice, NumOk, ObjOk, ThreadOk;
    var (s, t, a) := (ss[i], moves[i].0, moves[i].1);
    RunKeeps(ss, moves, i);
    assert NewOk(s, t);
    FirstIsOutcast(s, s.list);
    Pcs(s, t, a, t);
  }

  // ----- who gets what

  /** __cache_find: an object with the id, and none in front of it has the id; or no object has it. */
  lemma {:induction false} FirstIs(s: State, list: seq<Oid>, id: int)
    ensures
      match First(s, list, id)
      case None => forall o :: o in list && o in s.objs ==> s.objs[o].id != id
      case Some(o) =>
        && o in s.objs && s.objs[o].id == id
        && exists k :: 0 <= k < |list| && list[k] == o
             && forall j :: 0 <= j < k && list[j] in s.objs ==> s.objs[list[j]].id != id
  {
    if list != [] {
      FirstIs(s, list[1..], id);
      if !(list[0] in s.objs && s.objs[list[0]].id == id) && First(s, list, id).Some? {
        var k :| 0 <= k < |list[1..]| && list[1..][k] == First(s, list, id).value
                 && forall j :: 0 <= j < k && list[1..][j] in s.objs ==> s.objs[list[1..][j]].id != id;
        assert list[k + 1] == First(s, list, id).value;
        assert forall j :: 0 <= j < k + 1 && list[j] in s.objs ==> j == 0 || list[j] == list[1..][j - 1];
      }
    }
  }

  /** Whether o is the object that cache_find or cache_delete of thread t looks for: the first with the id. */
  ghost predicate Sought(s: State, id: int, o: Oid) {
    && o in s.list && o in s.objs && s.objs[o].id == id
    && exists k :: 0 <= k < |s.list| && s.list[k] == o
         && forall j :: 0 <= j < k && s.list[j] in s.objs ==> s.objs[s.list[j]].id != id
  }

  /** In every run, a thread that looks for an id with cache_find goes on with an object of that id; if there is none,
      it leaves without one. */
  lemma FindsTheId(ss: seq<State>, moves: seq<(Tid, Action)>, i: nat)
    requires IsRun(ss, moves) && i < |moves| && moves[i].1.ScanFind?
    ensures
      var (s, t) := (ss[i], moves[i].0);
      && s.Pc(t).FindScan?
      && match ss[i + 1].Pc(t)
         case Taking(o, id) => id == s.Pc(t).id && Sought(s, id, o)
         case next => next == Unlocking && forall o :: o in s.list ==> o in s.objs && s.objs[o].id != s.Pc(t).id
  {
    hide Step, NoTwice, NumOk, ThreadOk, NewOk, First;
    var (s, t, a) := (ss[i], moves[i].0, moves[i].1);
    RunKeeps(ss, moves, i);
    FirstIs(s, s.list, s.Pc(t).id);
    Pcs(s, t, a, t);
    forall o | o in s.list
      ensures o in s.objs
    {
      assert ObjOk(s, o);
    }
  }

  /** cache_delete unlinks the object with the id, and no other. */
  lemma DeletesTheId(ss: seq<State>, moves: seq<(Tid, Action)>, i: nat)
    requires IsRun(ss, moves) && i < |moves|
    ensures
      var (s, t) := (ss[i], moves[i].0);
      && (moves[i].1.ScanDelete? ==>
            s.Pc(t).DeleteScan? && ss[i + 1].Pc(t).Deleting? && Sought(s, s.Pc(t).id, ss[i + 1].Pc(t).o))
      && (moves[i].1.Unlink? ==> s.Pc(t).Deleting? && ss[i + 1].list == Without(s.list, s.Pc(t).o))
  {
    hide NoTwice, NumOk, ThreadOk, NewOk, First, NewObjs, Without, NewHeld, NewCarrier, NewFreer, Touched;
    var (s, t, a) := (ss[i], moves[i].0, moves[i].1);
    RunKeeps(ss, moves, i);
    if a.ScanDelete? {
      FirstIs(s, s.list, s.Pc(t).id);
      Pcs(s, t, a, t);
    }
  }

  /** In every run, a new object has the id it is added under and keeps it, and cache_add puts it in front of the
      list. */
  lemma AddsTheId(ss: seq<State>, moves: seq<(Tid, Action)>, i: nat, o: Oid)
    requires IsRun(ss, moves) && i < |moves|
    ensures
      var (s, z, (t, a)) := (ss[i], ss[i + 1], moves[i]);
      && (a.Alloc? ==> z.Pc(t) == AddWait(a.o) && z.objs == s.objs[a.o := Object(1, a.id, 0)])
      && (o in s.objs && o in z.objs ==> z.objs[o].id == s.objs[o].id)
      && (a.LockAdd? ==> s.Pc(t).AddWait? && z.Pc(t) == Adding(s.Pc(t).o))
      && (a.Insert? ==> s.Pc(t).Adding? && z.list == [s.Pc(t).o] + s.list)
  {
    hide First, Outcast, Without, NewHeld, NewCarrier, NewFreer, Touched;
  }

  // ----- popularity

  /** The step is a search that finds o. */
  ghost predicate Finds(s: State, t: Tid, a: Action, o: Oid) {
    Enabled(s, t, a) && (a.ScanFind? || a.ScanDelete?) && First(s, s.list, s.Pc(t).id) == Some(o)
  }

  /** How many of the first i moves do. */
  ghost function Searches(ss: seq<State>, moves: seq<(Tid, Action)>, i: nat, o: Oid): nat
    requires i <= |moves| < |ss|
  {
    if i == 0 then 0
    else Searches(ss, moves, i - 1, o) + if Finds(ss[i - 1], moves[i - 1].0, moves[i - 1].1, o) then 1 else 0
  }

  lemma PopularityStep(s: State, t: Tid, a: Action, o: Oid)
    requires Enabled(s, t, a)
    ensures
      var z, n := Step(s, t, a), if Finds(s, t, a, o) then 1 else 0;
      && (o in z.objs ==> z.objs[o].popularity == s.Popularity(o) + n && (o !in s.objs ==> o !in s.freed && n == 0))
      && (o !in z.objs && o !in z.freed ==> o !in s.objs && o !in s.freed && n == 0)
  {
    hide First, Outcast, Without, NextPc, NewList, NewHeld, NewCarrier, NewFreer, Touched;
    if a.ScanFind? || a.ScanDelete? {
      FirstIs(s, s.list, s.Pc(t).id);
    }
  }

  /** In every run, the popularity of an object is the number of searches that have found it. */
  lemma {:induction false} PopularityCounts(ss: seq<State>, moves: seq<(Tid, Action)>, i: nat, o: Oid)
    requires IsRun(ss, moves) && i < |ss|
    ensures o in ss[i].objs ==> ss[i].objs[o].popularity == Searches(ss, moves, i, o)
    ensures o !in ss[i].objs && o !in ss[i].freed ==> Searches(ss, moves, i, o) == 0
  {
    hide Step, Enabled, Finds;
    if i > 0 {
      PopularityCounts(ss, moves, i - 1, o);
      PopularityStep(ss[i - 1], moves[i - 1].0, moves[i - 1].1, o);
    }
  }
}
