/** The reference-counted cache with counts under the lock: whole critical sections as single steps. The atomic version
    refines it. */
module RefcntLocked {
  import opened Common
  import opened RefcntAtomic

  /** What there is between critical sections; cache_num is the length of the list. */
  datatype Cache = Cache(objs: map<Oid, Object>, list: seq<Oid>, held: multiset<Oid>)

  /** __object_put. */
  function Put1(objs: map<Oid, Object>, o: Oid): map<Oid, Object> {
    if o !in objs then objs else if objs[o].refcnt == 1 then objs - {o} else Bump(objs, o, -1)
  }

  datatype Call = Nothing | CacheAdd(id: int, o: Oid) | CacheFind(id: int) | CacheDelete(id: int) | ObjectGet(o: Oid)
    | ObjectPut(o: Oid)

  /** The state for the functions that look at a list of objects. */
  function View(c: Cache): State { Init().(objs := c.objs, list := c.list) }

  predicate Allowed(c: Cache, call: Call) {
    match call
    case Nothing => true
    case CacheAdd(_, o) => o !in c.objs
    case CacheFind(_) => true
    case CacheDelete(id) => First(View(c), c.list, id).Some?
    case ObjectGet(o) => c.held[o] > 0
    case ObjectPut(o) => c.held[o] > 0
  }

  function Perform(c: Cache, call: Call): Cache
    requires Allowed(c, call)
  {
    match call
    case Nothing => c
    case CacheAdd(id, o) =>
      var c1 := c.(objs := c.objs[o := Object(1, id, 0)], list := [o] + c.list);
      if |c1.list| > MAX_CACHE_SIZE then
        var out := Outcast(View(c1), c1.list);
        c1.(list := Without(c1.list, out), objs := Put1(c1.objs, out))
      else c1
    case CacheFind(id) =>
      (match First(View(c), c.list, id)
       case None => c
       case Some(o) => c.(objs := Bump(Praise(c.objs, o), o, 1), held := c.held + multiset{o}))
    case CacheDelete(id) =>
      var o := First(View(c), c.list, id).value;
      c.(list := Without(c.list, o), objs := Put1(Praise(c.objs, o), o))
    case ObjectGet(o) => c.(objs := Bump(c.objs, o, 1), held := c.held + multiset{o})
    case ObjectPut(o) => c.(objs := Put1(c.objs, o), held := c.held - multiset{o})
  }

  // ----- the abstraction

  /** The list as it will be when the thread in the critical section has done what it is about to do. */
  function AbsList(s: State): seq<Oid> {
    match s.lock
    case None => s.list
    case Some(t) =>
      match s.Pc(t)
      case Evicting(_) => if s.list == [] then [] else s.list[1..]
      case Deleting(o) => Without(s.list, o)
      case _ => s.list
  }

  function AbsCount(s: State, o: Oid): nat {
    (if o in AbsList(s) then 1 else 0) + s.held[o]
  }

  /** The praise that belongs to a cache_find that has not yet taken its reference. */
  function Early(s: State, o: Oid): nat {
    match s.lock
    case None => 0
    case Some(t) => if s.Pc(t).Taking? && s.Pc(t).o == o then 1 else 0
  }

  function AbsObject(s: State, o: Oid): Object
    requires o in s.objs
  {
    var x := s.objs[o];
    Object(AbsCount(s, o), x.id, if x.popularity >= Early(s, o) then x.popularity - Early(s, o) else 0)
  }

  function Abs(s: State): Cache {
    Cache(map o | o in s.objs && AbsCount(s, o) > 0 :: AbsObject(s, o), AbsList(s), s.held)
  }

  /** The call that a step of the atomic version completes. */
  function CallOf(s: State, t: Tid, a: Action): Call
    requires Enabled(s, t, a)
  {
    var p := s.Pc(t);
    match a
    case Insert => if p.o in s.objs then CacheAdd(s.objs[p.o].id, p.o) else Nothing
    case ScanFind => if First(s, s.list, p.id).None? then CacheFind(p.id) else Nothing
    case Take => CacheFind(p.id)
    case ScanDelete => CacheDelete(p.id)
    case Get(o) => ObjectGet(o)
    case Put(o) => ObjectPut(o)
    case _ => Nothing
  }

  // ----- two more facts that every step keeps

  /** Nobody holds a new object, and what a scan has found is still the first object with its id. */
  ghost predicate FoundOk(s: State, t: Tid) {
    match s.Pc(t)
    case AddWait(o) => s.held[o] == 0
    case Adding(o) => s.held[o] == 0
    case Taking(o, id) =>
      o in s.objs && s.objs[o].id == id && s.objs[o].popularity >= 1 && First(s, s.list, id) == Some(o)
    case _ => true
  }

  lemma {:induction false} FirstSame(s: State, z: State, list: seq<Oid>, id: int)
    requires forall o :: o in list ==> o in s.objs && o in z.objs && z.objs[o].id == s.objs[o].id
    ensures First(z, list, id) == First(s, list, id)
  {
    if list != [] {
      FirstSame(s, z, list[1..], id);
    }
  }

  /** Ids never change. */
  lemma IdsStay(s: State, t: Tid, a: Action, o: Oid)
    requires Enabled(s, t, a) && Knows(s, t) && o in s.objs && o in s.list
    ensures var z := Step(s, t, a); o in z.objs && z.objs[o].id == s.objs[o].id
  {
    hide First, Outcast, Without, NextPc, NewList, NewHeld, NewCarrier, NewFreer, Touched;
  }

  lemma FirstStays(s: State, t: Tid, a: Action, id: int)
    requires Inv(s) && Enabled(s, t, a)
    ensures First(Step(s, t, a), s.list, id) == First(s, s.list, id)
  {
    hide Outcast, Without, NewCarrier, NewFreer, Touched, NumOk, NoTwice, First, NewOk, NextPc, NewHeld;
    InvKnows(s, t);
    forall o | o in s.list
      ensures o in s.objs && o in Step(s, t, a).objs && Step(s, t, a).objs[o].id == s.objs[o].id
    {
      assert ObjOk(s, o);
      IdsStay(s, t, a, o);
    }
    FirstSame(s, Step(s, t, a), s.list, id);
  }

  lemma FoundKeeps(s: State, t: Tid, a: Action, u: Tid)
    requires Inv(s) && Enabled(s, t, a) && FoundOk(s, t) && FoundOk(s, u)
    ensures FoundOk(Step(s, t, a), u)
  {
    if t == u {
      FoundOwn(s, t, a);
    } else {
      FoundOther(s, t, a, u);
    }
  }

  lemma FoundOwn(s: State, t: Tid, a: Action)
    requires Inv(s) && Enabled(s, t, a) && FoundOk(s, t)
    ensures FoundOk(Step(s, t, a), t)
  {
    hide Outcast, Without, NewCarrier, NewFreer, Touched, NumOk, NoTwice, First, NewOk;
    var z := Step(s, t, a);
    InvKnows(s, t);
    ScanKnows(s, t);
    FirstOk(s, s.list, if a.ScanFind? then s.Pc(t).id else 0);
    Pcs(s, t, a, t);
    assert ThreadOk(s, t);
    if z.Pc(t).Taking? {
      FirstStays(s, t, a, s.objs[z.Pc(t).o].id);
    }
    if a.Alloc? {
      assert ObjOk(s, a.o);
    }
  }

  lemma FoundOther(s: State, t: Tid, a: Action, u: Tid)
    requires Inv(s) && Enabled(s, t, a) && FoundOk(s, t) && FoundOk(s, u) && t != u
    ensures FoundOk(Step(s, t, a), u)
  {
    hide Outcast, Without, NewCarrier, NewFreer, Touched, NumOk, NoTwice, First, NewOk;
    var z := Step(s, t, a);
    InvKnows(s, t);
    InvKnows(s, u);
    Pcs(s, t, a, u);
    assert ThreadOk(s, t) && ThreadOk(s, u);
    if z.Pc(u).Taking? {
      assert ObjOk(s, z.Pc(u).o);
      IdsStay(s, t, a, z.Pc(u).o);
      FirstStays(s, t, a, s.objs[z.Pc(u).o].id);
    }
  }

  // ----- every step is a call, or nothing

  lemma WithoutFirst(list: seq<Oid>)
    requires list != []
    ensures Without(list, list[0]) == list[1..]
  {
  }

  lemma ListAfter(s: State, t: Tid, a: Action)
    requires Inv(s) && Enabled(s, t, a)
    ensures
      var z, p := Step(s, t, a), s.Pc(t);
      AbsList(z) ==
        if a.Insert? && s.cacheNum < MAX_CACHE_SIZE then [p.o] + AbsList(s)
        else if a.ScanDelete? then Without(AbsList(s), First(s, s.list, p.id).value)
        else AbsList(s)
  {
    hide First, Outcast, Without, NewObjs, NewHeld, NewCarrier, NewFreer, Touched, NoTwice, ObjOk;
    assert ThreadOk(s, t) && NewOk(s, t);
    Pcs(s, t, a, t);
    if s.lock.Some? {
      Pcs(s, t, a, s.lock.value);
    }
    if a.Choose? {
      FirstIsOutcast(s, s.list);
      WithoutFirst(s.list);
    }
  }

  lemma AbsListPart(s: State, o: Oid)
    requires NoTwice(s.list)
    ensures o in AbsList(s) ==> o in s.list
  {
    hide Without;
    if s.lock.Some? && s.Pc(s.lock.value).Deleting? {
      WithoutOk(s.list, s.Pc(s.lock.value).o);
    }
  }

  /** An object of the abstraction. */
  ghost predicate AbsHas(s: State, o: Oid) { o in s.objs && AbsCount(s, o) > 0 }

  /** Steps that complete no call change nothing. */
  lemma QuietAt(s: State, t: Tid, a: Action, o: Oid)
    requires Inv(s) && Enabled(s, t, a) && (CallOf(s, t, a) == Nothing || a.ScanFind?) && !a.Insert? && !a.Take?
    ensures AbsHas(Step(s, t, a), o) <==> AbsHas(s, o)
    ensures AbsHas(s, o) ==> AbsObject(Step(s, t, a), o) == AbsObject(s, o)
  {
    hide First, Outcast, Without, NewList, NewCarrier, NewFreer, Touched, NoTwice, NumOk, AbsList, NewOk;
    var z := Step(s, t, a);
    ListAfter(s, t, a);
    AbsListPart(s, o);
    InvKnows(s, t);
    ScanKnows(s, t);
    assert ObjOk(s, o) && ThreadOk(s, t);
    Pcs(s, t, a, t);
    if s.lock.Some? {
      Pcs(s, t, a, s.lock.value);
    }
  }

  lemma Quiet(s: State, t: Tid, a: Action)
    requires Inv(s) && Enabled(s, t, a) && (CallOf(s, t, a) == Nothing || a.ScanFind?) && !a.Insert? && !a.Take?
    ensures Abs(Step(s, t, a)) == Abs(s)
  {
    hide Step, Inv, Enabled, AbsCount, AbsObject, AbsList, CallOf;
    var z := Step(s, t, a);
    forall o: Oid
      ensures (AbsHas(z, o) <==> AbsHas(s, o)) && (AbsHas(s, o) ==> AbsObject(z, o) == AbsObject(s, o))
    {
      QuietAt(s, t, a, o);
    }
    QuietRest(s, t, a);
  }

  lemma QuietRest(s: State, t: Tid, a: Action)
    requires Inv(s) && Enabled(s, t, a) && (CallOf(s, t, a) == Nothing || a.ScanFind?) && !a.Insert? && !a.Take?
    ensures AbsList(Step(s, t, a)) == AbsList(s) && Step(s, t, a).held == s.held
  {
    hide First, Outcast, Without, NewObjs, NewList, NewCarrier, NewFreer, Touched, NextPc, Inv, AbsList;
    ListAfter(s, t, a);
  }

  /** The map m says the same of o as the abstraction of z. */
  ghost predicate Agrees(z: State, m: map<Oid, Object>, o: Oid) {
    (AbsHas(z, o) <==> o in m) && (o in m && o in z.objs ==> AbsObject(z, o) == m[o])
  }

  lemma FromAgrees(z: State, m: map<Oid, Object>)
    requires forall o: Oid :: Agrees(z, m, o)
    ensures Abs(z).objs == m
  {
    hide AbsCount, AbsObject, AbsList;
    forall o: Oid
      ensures (o in Abs(z).objs <==> o in m) && (o in m ==> Abs(z).objs[o] == m[o])
    {
      assert Agrees(z, m, o);
    }
  }

  lemma AbsAt(s: State, o: Oid)
    ensures o in Abs(s).objs <==> AbsHas(s, o)
    ensures AbsHas(s, o) ==> Abs(s).objs[o] == AbsObject(s, o)
  {
    hide AbsCount, AbsObject, AbsList;
  }

  /** object_get. */
  lemma GetAgrees(s: State, t: Tid, a: Action, o: Oid)
    requires Inv(s) && Enabled(s, t, a) && a.Get?
    ensures Agrees(Step(s, t, a), Perform(Abs(s), CallOf(s, t, a)).objs, o)
  {
    hide First, Outcast, Without, NewList, NewCarrier, NewFreer, Touched, NoTwice, NumOk, AbsList, NewOk, Abs;
    ListAfter(s, t, a);
    AbsAt(s, o);
    AbsAt(s, a.o);
    assert ObjOk(s, o) && ObjOk(s, a.o) && ThreadOk(s, t);
    Pcs(s, t, a, t);
    if s.lock.Some? {
      Pcs(s, t, a, s.lock.value);
    }
    assert Abs(s).held == s.held by { AbsFields(s); }
  }

  /** object_put. */
  lemma PutAgrees(s: State, t: Tid, a: Action, o: Oid)
    requires Inv(s) && Enabled(s, t, a) && a.Put?
    ensures Agrees(Step(s, t, a), Perform(Abs(s), CallOf(s, t, a)).objs, o)
  {
    hide First, Outcast, Without, NewList, NewCarrier, NewFreer, Touched, NoTwice, NumOk, AbsList, NewOk, Abs;
    ListAfter(s, t, a);
    AbsAt(s, o);
    AbsAt(s, a.o);
    assert ObjOk(s, o) && ObjOk(s, a.o) && ThreadOk(s, t);
    Pcs(s, t, a, t);
    if s.lock.Some? {
      Pcs(s, t, a, s.lock.value);
    }
    assert Abs(s).held == s.held by { AbsFields(s); }
  }

  lemma AbsFields(s: State)
    ensures Abs(s).held == s.held && Abs(s).list == AbsList(s)
  {
  }

  /** The end of cache_find. */
  lemma TakeAgrees(s: State, t: Tid, a: Action, o: Oid)
    requires Inv(s) && FoundOk(s, t) && Enabled(s, t, a) && a.Take? && CallOf(s, t, a).CacheFind?
    requires First(View(Abs(s)), Abs(s).list, CallOf(s, t, a).id) == Some(s.Pc(t).o)
    ensures Agrees(Step(s, t, a), Perform(Abs(s), CallOf(s, t, a)).objs, o)
  {
    hide First, Outcast, Without, NewList, NewCarrier, NewFreer, Touched, NoTwice, NumOk, AbsList, NewOk, Abs;
    ListAfter(s, t, a);
    InvKnows(s, t);
    AbsAt(s, o);
    AbsAt(s, s.Pc(t).o);
    assert ObjOk(s, o) && ThreadOk(s, t);
    Pcs(s, t, a, t);
    TakingList(s, t);
  }

  lemma TakingList(s: State, t: Tid)
    requires Inv(s) && (s.Pc(t).Taking? || s.Pc(t).Adding? || s.Pc(t).DeleteScan? || s.Pc(t).FindScan?)
    ensures s.lock == Some(t) && AbsList(s) == s.list
  {
    hide ObjOk, NoTwice, NumOk, NewOk;
    assert ThreadOk(s, t);
  }

  /** cache_delete. */
  lemma DeleteAgrees(s: State, t: Tid, a: Action, o: Oid)
    requires Inv(s) && Enabled(s, t, a) && a.ScanDelete?
    requires First(View(Abs(s)), Abs(s).list, s.Pc(t).id) == First(s, s.list, s.Pc(t).id)
    ensures Agrees(Step(s, t, a), Perform(Abs(s), CallOf(s, t, a)).objs, o)
  {
    hide First, Outcast, Without, NewList, NewCarrier, NewFreer, Touched, NoTwice, NumOk, AbsList, NewOk, Abs;
    ListAfter(s, t, a);
    ScanKnows(s, t);
    var x := First(s, s.list, s.Pc(t).id).value;
    AbsAt(s, o);
    AbsAt(s, x);
    assert ObjOk(s, o) && ObjOk(s, x) && ThreadOk(s, t);
    Pcs(s, t, a, t);
    TakingList(s, t);
    WithoutOk(s.list, x);
  }

  /** cache_add. */
  lemma InsertAgrees(s: State, t: Tid, a: Action, o: Oid)
    requires Inv(s) && FoundOk(s, t) && Enabled(s, t, a) && a.Insert? && CallOf(s, t, a).CacheAdd?
    requires Allowed(Abs(s), CallOf(s, t, a))
    requires s.cacheNum < MAX_CACHE_SIZE
    ensures Agrees(Step(s, t, a), Abs(s).objs[s.Pc(t).o := Object(1, s.objs[s.Pc(t).o].id, 0)], o)
  {
    hide First, Outcast, Without, NewList, NewCarrier, NewFreer, Touched, NoTwice, NumOk, AbsList, Abs;
    ListAfter(s, t, a);
    InvKnows(s, t);
    AbsAt(s, o);
    AbsAt(s, s.Pc(t).o);
    assert ObjOk(s, o) && ThreadOk(s, t) && NewOk(s, t);
    Pcs(s, t, a, t);
    TakingList(s, t);
  }

  /** cache_add, when the cache is full: nothing changes. */
  lemma RefusedAgrees(s: State, t: Tid, a: Action, o: Oid)
    requires Inv(s) && FoundOk(s, t) && Enabled(s, t, a) && a.Insert? && s.cacheNum >= MAX_CACHE_SIZE
    ensures Agrees(Step(s, t, a), Abs(s).objs, o)
  {
    hide First, Outcast, Without, NewList, NewCarrier, NewFreer, Touched, NoTwice, NumOk, AbsList, Abs, NewOk;
    ListAfter(s, t, a);
    AbsAt(s, o);
    assert ObjOk(s, o) && ThreadOk(s, t);
    Pcs(s, t, a, t);
  }

  /** Looking in the abstraction finds what looking in the list finds. */
  lemma AbsFirst(s: State, t: Tid, id: int)
    requires Inv(s) && s.lock == Some(t) && AbsList(s) == s.list
    ensures First(View(Abs(s)), Abs(s).list, id) == First(s, s.list, id)
  {
    hide First, NoTwice, NumOk, NewOk, ThreadOk, Abs, AbsList;
    AbsFields(s);
    forall o | o in s.list
      ensures o in s.objs && o in Abs(s).objs && Abs(s).objs[o].id == s.objs[o].id
    {
      assert ObjOk(s, o);
      AbsAt(s, o);
    }
    FirstSame(s, View(Abs(s)), s.list, id);
  }

  lemma AllAgree(s: State, t: Tid, a: Action)
    requires Inv(s) && FoundOk(s, t) && Enabled(s, t, a) && !a.Insert? && !a.ScanFind? && CallOf(s, t, a) != Nothing
    requires Allowed(Abs(s), CallOf(s, t, a))
    ensures Abs(Step(s, t, a)).objs == Perform(Abs(s), CallOf(s, t, a)).objs
  {
    hide Step, Abs, Perform, Agrees, First, Outcast, Without, NoTwice, NumOk, ObjOk, ThreadOk, NewOk;
    var m := Perform(Abs(s), CallOf(s, t, a)).objs;
    forall o: Oid
      ensures Agrees(Step(s, t, a), m, o)
    {
      match a
      case Get(_) => GetAgrees(s, t, a, o);
      case Put(_) => PutAgrees(s, t, a, o);
      case Take =>
        TakingList(s, t);
        AbsFirst(s, t, CallOf(s, t, a).id);
        TakeAgrees(s, t, a, o);
      case ScanDelete =>
        TakingList(s, t);
        AbsFirst(s, t, s.Pc(t).id);
        DeleteAgrees(s, t, a, o);
    }
    FromAgrees(Step(s, t, a), m);
  }

  /** What a call does to the list and to the references held. */
  lemma RestAgrees(s: State, t: Tid, a: Action)
    requires Inv(s) && Enabled(s, t, a) && !a.Insert? && !a.ScanFind? && CallOf(s, t, a) != Nothing
    requires Allowed(Abs(s), CallOf(s, t, a))
    requires a.Take? ==> First(View(Abs(s)), Abs(s).list, CallOf(s, t, a).id) == Some(s.Pc(t).o)
    requires a.ScanDelete? ==> First(View(Abs(s)), Abs(s).list, s.Pc(t).id) == First(s, s.list, s.Pc(t).id)
    ensures
      var c, c' := Abs(Step(s, t, a)), Perform(Abs(s), CallOf(s, t, a));
      c.list == c'.list && c.held == c'.held
  {
    hide First, Outcast, Without, NewObjs, NewCarrier, NewFreer, NextPc, Touched, NoTwice, NumOk, ObjOk, ThreadOk,
         NewOk, AbsList, Abs, Put1, Bump, Praise;
    AbsFields(s);
    AbsFields(Step(s, t, a));
    ListAfter(s, t, a);
  }

  lemma CallRefines(s: State, t: Tid, a: Action)
    requires Inv(s) && FoundOk(s, t) && Enabled(s, t, a) && !a.Insert? && !a.ScanFind? && CallOf(s, t, a) != Nothing
    ensures Allowed(Abs(s), CallOf(s, t, a)) && Abs(Step(s, t, a)) == Perform(Abs(s), CallOf(s, t, a))
  {
    hide Step, Abs, Perform, First, NoTwice, NumOk, ObjOk, ThreadOk, NewOk, AbsList;
    AbsFields(s);
    InvKnows(s, t);
    if a.Take? || a.ScanDelete? {
      TakingList(s, t);
      AbsFirst(s, t, if a.Take? then CallOf(s, t, a).id else s.Pc(t).id);
    }
    AllAgree(s, t, a);
    RestAgrees(s, t, a);
  }

  /** Adding to a cache that is full changes nothing. */
  lemma AddToFull(c: Cache, id: int, o: Oid)
    requires o !in c.objs && |c.list| == MAX_CACHE_SIZE
    ensures Perform(c, CacheAdd(id, o)) == c
  {
    hide Outcast, Without;
    var c1 := c.(objs := c.objs[o := Object(1, id, 0)], list := [o] + c.list);
    FirstIsOutcast(View(c1), c1.list);
    WithoutFirst(c1.list);
    assert c.objs[o := Object(1, id, 0)] - {o} == c.objs;
  }

  lemma InsertAllowed(s: State, t: Tid, a: Action)
    requires Inv(s) && FoundOk(s, t) && Enabled(s, t, a) && a.Insert?
    ensures
      var o := s.Pc(t).o;
      && o in s.objs && CallOf(s, t, a) == CacheAdd(s.objs[o].id, o) && o !in Abs(s).objs
      && Abs(s).list == s.list && s.cacheNum == |s.list| <= MAX_CACHE_SIZE
  {
    hide First, NoTwice, ObjOk, NewOk, Abs, AbsList;
    InvKnows(s, t);
    TakingList(s, t);
    AbsFields(s);
    AbsAt(s, s.Pc(t).o);
  }

  lemma InsertRefines(s: State, t: Tid, a: Action)
    requires Inv(s) && FoundOk(s, t) && Enabled(s, t, a) && a.Insert?
    ensures Allowed(Abs(s), CallOf(s, t, a)) && Abs(Step(s, t, a)) == Perform(Abs(s), CallOf(s, t, a))
  {
    hide Step, Abs, AbsList, First, Outcast, NoTwice, NumOk, ObjOk, ThreadOk, NewOk, Agrees;
    InsertAllowed(s, t, a);
    var c, z := Abs(s), Step(s, t, a);
    var call := CallOf(s, t, a);
    AbsFields(s);
    AbsFields(z);
    ListAfter(s, t, a);
    InsertHeld(s, t, a);
    if s.cacheNum < MAX_CACHE_SIZE {
      var m := c.objs[call.o := Object(1, call.id, 0)];
      forall o: Oid
        ensures Agrees(z, m, o)
      {
        InsertAgrees(s, t, a, o);
      }
      FromAgrees(z, m);
    } else {
      forall o: Oid
        ensures Agrees(z, c.objs, o)
      {
        RefusedAgrees(s, t, a, o);
      }
      FromAgrees(z, c.objs);
      AddToFull(c, call.id, call.o);
    }
  }

  lemma InsertHeld(s: State, t: Tid, a: Action)
    requires Enabled(s, t, a) && a.Insert?
    ensures Step(s, t, a).held == s.held
  {
  }

  /** A cache_find that finds nothing. */
  lemma MissRefines(s: State, t: Tid, a: Action)
    requires Inv(s) && Enabled(s, t, a) && a.ScanFind? && CallOf(s, t, a) != Nothing
    ensures Abs(Step(s, t, a)) == Perform(Abs(s), CallOf(s, t, a))
  {
    hide Step, Abs, NoTwice, NumOk, ObjOk, ThreadOk, NewOk, First, AbsList;
    TakingList(s, t);
    AbsFirst(s, t, s.Pc(t).id);
    Quiet(s, t, a);
  }

  /** Every step of the atomic version is a call of the locked version, or no visible step at all. */
  lemma Refines(s: State, t: Tid, a: Action)
    requires Inv(s) && FoundOk(s, t) && Enabled(s, t, a)
    ensures Allowed(Abs(s), CallOf(s, t, a)) && Abs(Step(s, t, a)) == Perform(Abs(s), CallOf(s, t, a))
  {
    hide Step, Abs, NoTwice, NumOk, ObjOk, ThreadOk, NewOk, First;
    InvKnows(s, t);
    if a.Insert? {
      InsertRefines(s, t, a);
    } else if CallOf(s, t, a) == Nothing {
      Quiet(s, t, a);
    } else if a.ScanFind? {
      MissRefines(s, t, a);
    } else {
      CallRefines(s, t, a);
    }
  }

  lemma {:induction false} RunFound(ss: seq<State>, moves: seq<(Tid, Action)>, i: nat, u: Tid)
    requires IsRun(ss, moves) && i < |ss|
    ensures FoundOk(ss[i], u)
  {
    hide Inv, Step, Enabled, FoundOk;
    if i == 0 {
      InitFound(u);
    } else {
      RunKeeps(ss, moves, i - 1);
      RunFound(ss, moves, i - 1, u);
      RunFound(ss, moves, i - 1, moves[i - 1].0);
      FoundKeeps(ss[i - 1], moves[i - 1].0, moves[i - 1].1, u);
    }
  }

  lemma InitFound(u: Tid)
    ensures FoundOk(Init(), u)
  {
  }

  /** A run of the locked version, from the empty cache on, call by call. */
  ghost predicate IsLockedRun(cs: seq<Cache>, calls: seq<Call>) {
    && |cs| == |calls| + 1 && cs[0] == Cache(map[], [], multiset{})
    && forall i :: 0 <= i < |calls| ==> Allowed(cs[i], calls[i]) && cs[i + 1] == Perform(cs[i], calls[i])
  }

  ghost function AbsRun(ss: seq<State>): seq<Cache> { seq(|ss|, i requires 0 <= i < |ss| => Abs(ss[i])) }

  ghost function Calls(ss: seq<State>, moves: seq<(Tid, Action)>): seq<Call>
    requires IsRun(ss, moves)
  {
    seq(|moves|, i requires 0 <= i < |moves| => CallOf(ss[i], moves[i].0, moves[i].1))
  }

  /** Every run of the atomic version is, state by state, a run of the locked version. */
  lemma RunsRefine(ss: seq<State>, moves: seq<(Tid, Action)>)
    requires IsRun(ss, moves)
    ensures IsLockedRun(AbsRun(ss), Calls(ss, moves))
  {
    hide Abs, CallOf, Perform, Allowed, Enabled, Step;
    EmptyAtFirst();
    var cs, calls := AbsRun(ss), Calls(ss, moves);
    assert cs[0] == Abs(Init());
    forall i | 0 <= i < |calls|
      ensures Allowed(cs[i], calls[i]) && cs[i + 1] == Perform(cs[i], calls[i])
    {
      MoveRefines(ss, moves, i);
    }
  }

  lemma EmptyAtFirst()
    ensures Abs(Init()) == Cache(map[], [], multiset{})
  {
  }

  lemma MoveRefines(ss: seq<State>, moves: seq<(Tid, Action)>, i: nat)
    requires IsRun(ss, moves) && i < |moves|
    ensures
      var call := CallOf(ss[i], moves[i].0, moves[i].1);
      Allowed(Abs(ss[i]), call) && Abs(ss[i + 1]) == Perform(Abs(ss[i]), call)
  {
    hide Inv, Step, FoundOk, Abs;
    RunKeeps(ss, moves, i);
    RunFound(ss, moves, i, moves[i].0);
    Refines(ss[i], moves[i].0, moves[i].1);
  }

  /** In every run, the reference that cache_find hands out is one to the first object with the id that was asked
      for. */
  lemma TakesTheId(ss: seq<State>, moves: seq<(Tid, Action)>, i: nat)
    requires IsRun(ss, moves) && i < |moves| && moves[i].1.Take?
    ensures
      var (s, t) := (ss[i], moves[i].0);
      && s.Pc(t).Taking? && var Taking(o, id) := s.Pc(t);
      && Sought(s, id, o) && ss[i + 1].held == s.held + multiset{o} && ss[i + 1].Count(o) == s.Count(o) + 1
  {
    hide NoTwice, NumOk, NewOk, First, Outcast, Without, NewCarrier, NewFreer, NewList, NextPc, Touched;
    var (s, t) := (ss[i], moves[i].0);
    RunKeeps(ss, moves, i);
    RunFound(ss, moves, i, t);
    InvKnows(s, t);
    FirstIs(s, s.list, s.Pc(t).id);
  }
}
