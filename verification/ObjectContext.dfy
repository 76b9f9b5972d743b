/** A context: its objects with their counters, the slots between them, the autorelease queue and the
    registry. Each method does what Lifetime says, and keeps every counter equal to what it counts. */
module ObjectContext {
  import opened QueueClock
  import opened Sequences
  import opened Graph
  import opened Lifetime
  import opened StoreState
  import opened IdGenerator
  import opened Registry

  // ------------------------------------------------------------------ releases one by one

  lemma ReleaseOne(w: World, i: nat, b: Addr)
    requires i in w.links && w.links[i].target == b && b in w.objs
    ensures var t := w.(links := w.links - {i});
            Release(w, {i}) == if Owned(t, b) then t else Prolong(t, b)
  {
    var t := w.(links := w.links - {i});
    hide Linked;
    assert Targets(w.links, {i}) == {b};
    assert Orphans(w, {i}) == if Owned(t, b) then {} else {b};
    if Owned(t, b) {
      assert Release(w, {i}).queue == t.queue;
    } else {
      assert Release(w, {i}).queue == Prolong(t, b).queue;
    }
  }

  lemma ReleaseNone(w: World)
    ensures Release(w, {}) == w
  {
    hide Linked;
    assert Targets(w.links, {}) == {};
    assert w.links - {} == w.links;
    assert Release(w, {}).queue == w.queue;
  }

  lemma OrphansOneMore(w: World, ids: set<nat>, i: nat)
    requires i in w.links && i !in ids
    ensures Orphans(w, ids + {i}) == Orphans(w, ids) + Orphans(Release(w, ids), {i})
  {
    var u := Release(w, ids);
    assert w.links - (ids + {i}) == u.links - {i};
    forall x ensures x in Orphans(w, ids + {i}) <==> x in Orphans(w, ids) || x in Orphans(u, {i}) {
      StillLinked(w.links - ids, {i}, x);
      hide Linked;
      assert x in Targets(w.links, ids + {i}) <==> x in Targets(w.links, ids) || x == w.links[i].target;
      assert x in Targets(w.links - ids, {i}) <==> x == w.links[i].target;
    }
  }

  /** Emptying slots one after the other comes to the same as emptying them at once. */
  lemma ReleaseMore(w: World, ids: set<nat>, i: nat)
    requires i in w.links && i !in ids
    ensures Release(Release(w, ids), {i}) == Release(w, ids + {i})
  {
    OrphansOneMore(w, ids, i);
    var u := Release(w, ids);
    EntriesSplit(w, u, Orphans(w, ids), Orphans(u, {i}));
    hide Orphans, Entries;
    assert (w.links - ids) - {i} == w.links - (ids + {i});
  }

  lemma EntriesSplit(w: World, u: World, a: set<Addr>, b: set<Addr>)
    requires u.objs == w.objs
    ensures w.queue + Entries(w, a + b) == (w.queue + Entries(w, a)) + Entries(u, b)
  {
  }

  // ------------------------------------------------------------------ the locked phase of the tick

  predicate IsExpired(s: Store, x: Addr)
  {
    x in s.objects && Expires(TimeSubtract(s.now, s.objects[x].pushTime))
  }

  /** The entries of q that stay, in order. */
  function Kept(s: Store, q: seq<Addr>): seq<Addr>
  {
    if q == [] then [] else Kept(s, q[..|q| - 1]) + (if IsExpired(s, q[|q| - 1]) then [] else [q[|q| - 1]])
  }

  /** The entries of q that leave, in order. */
  function Expired(s: Store, q: seq<Addr>): seq<Addr>
  {
    if q == [] then [] else Expired(s, q[..|q| - 1]) + (if IsExpired(s, q[|q| - 1]) then [q[|q| - 1]] else [])
  }

  /** Both are what the queue holds of them, in its order. */
  lemma {:induction false} FilterFront(s: Store, x: Addr, q: seq<Addr>)
    ensures Kept(s, [x] + q) == (if IsExpired(s, x) then [] else [x]) + Kept(s, q)
    ensures Expired(s, [x] + q) == (if IsExpired(s, x) then [x] else []) + Expired(s, q)
    ensures Kept(s, []) == [] && Expired(s, []) == []
  {
    var all := [x] + q;
    hide IsExpired;
    if q == [] {
      assert all[..0] == [];
    } else {
      FilterFront(s, x, q[..|q| - 1]);
      assert all[..|q|] == [x] + q[..|q| - 1];
    }
  }

  lemma {:induction false} FilterFacts(s: Store, q: seq<Addr>)
    requires Distinct(q)
    ensures Distinct(Kept(s, q)) && Distinct(Expired(s, q))
    ensures forall x :: x in Kept(s, q) <==> x in q && !IsExpired(s, x)
    ensures forall x :: x in Expired(s, q) <==> x in q && IsExpired(s, x)
  {
    if q != [] {
      var front, x := q[..|q| - 1], q[|q| - 1];
      FilterFacts(s, front);
      assert x !in front;
      assert forall y :: y in q <==> y in front || y == x;
      hide IsExpired;
    }
  }

  /** The state half way through the locked phase: i entries have been looked at. */
  function Partly(s: Store, i: nat): Store
    requires i <= |s.queue|
  {
    s.(queue := Kept(s, s.queue[..i]) + s.queue[i..], toRelease := s.toRelease + Expired(s, s.queue[..i]))
  }

  lemma PartlyNext(s: Store, i: nat)
    requires i < |s.queue|
    ensures
      var pos, x := |Kept(s, s.queue[..i])|, s.queue[i];
      && pos < |Partly(s, i).queue| && Partly(s, i).queue[pos] == x
      && Partly(s, i + 1) ==
         (if IsExpired(s, x)
          then s.(queue := Partly(s, i).queue[..pos] + Partly(s, i).queue[pos + 1..],
            toRelease := Partly(s, i).toRelease + [x])
          else Partly(s, i))
      && |Kept(s, s.queue[..i + 1])| == (if IsExpired(s, x) then pos else pos + 1)
  {
    FilterNext(s, i);
    hide IsExpired, Kept, Expired;
    RemoveFirst(Kept(s, s.queue[..i]), s.queue, i);
  }

  lemma FilterNext(s: Store, i: nat)
    requires i < |s.queue|
    ensures Kept(s, s.queue[..i + 1]) == Kept(s, s.queue[..i]) + (if IsExpired(s, s.queue[i]) then [] else [s.queue[i]])
    ensures Expired(s, s.queue[..i + 1])
         == Expired(s, s.queue[..i]) + (if IsExpired(s, s.queue[i]) then [s.queue[i]] else [])
  {
    assert s.queue[..i + 1][..i] == s.queue[..i];
    hide IsExpired;
  }

  lemma RemoveFirst(front: seq<Addr>, q: seq<Addr>, i: nat)
    requires i < |q|
    ensures (front + q[i..])[|front|] == q[i]
    ensures (front + q[i..])[..|front|] + (front + q[i..])[|front| + 1..] == (front + []) + q[i + 1..]
    ensures front + q[i..] == (front + [q[i]]) + q[i + 1..]
  {
  }

  lemma PartlyConsistent(s: Store, i: nat)
    requires Consistent(s) && s.toRelease == [] && i <= |s.queue|
    ensures Consistent(Partly(s, i)) && Handles(Partly(s, i)) == Handles(s)
  {
    var t, front := Partly(s, i), s.queue[..i];
    DistinctSplit(s.queue, i);
    FilterFacts(s, front);
    hide Into, Kept, Expired, IsExpired;
    InSplit(s.queue, i);
    InJoin(Kept(s, front), s.queue[i..]);
    DistinctJoin(Kept(s, front), s.queue[i..]);
    hide Distinct;
    forall x | x in t.objects ensures Counted(t, x) {
      assert Counted(s, x);
    }
  }

  lemma InSplit(q: seq<Addr>, i: nat)
    requires i <= |q|
    ensures forall x :: x in q <==> x in q[..i] || x in q[i..]
  {
  }

  lemma InJoin(a: seq<Addr>, b: seq<Addr>)
    ensures forall x :: x in a + b <==> x in a || x in b
  {
  }

  lemma DistinctSplit(q: seq<Addr>, i: nat)
    requires Distinct(q) && i <= |q|
    ensures Distinct(q[..i]) && Distinct(q[i..]) && forall x | x in q[..i] :: x !in q[i..]
  {
  }

  lemma DistinctJoin(a: seq<Addr>, b: seq<Addr>)
    requires Distinct(a) && Distinct(b) && forall x | x in a :: x !in b
    ensures Distinct(a + b)
  {
    assert forall i | 0 <= i < |a| :: a[i] in a;
    assert forall i | 0 <= i < |b| :: b[i] in b;
  }

  lemma LockedResult(s: Store)
    requires Consistent(s) && s.toRelease == [] && QueueLive(Abs(s))
    ensures var t := s.(queue := Kept(s, s.queue), toRelease := Expired(s, s.queue), now := NextTick(s.now));
            Consistent(t) && Handles(t) == Handles(s) && Abs(t) == Expire(Abs(s))
  {
    var t := s.(queue := Kept(s, s.queue), toRelease := Expired(s, s.queue), now := NextTick(s.now));
    PartlyConsistent(s, |s.queue|);
    assert s.queue[..|s.queue|] == s.queue;
    FilterFacts(s, s.queue);
    assert Consistent(t) by {
      hide Kept, Expired, Into, Distinct;
      forall x | x in t.objects ensures Counted(t, x) {
        assert Counted(Partly(s, |s.queue|), x);
      }
    }
    hide Consistent, Kept, Expired, Into, Distinct;
    LockedAges(s, t);
    hide QueueAges, Expire;
    assert Cells(t) == Cells(s) && Handles(t) == Handles(s);
  }

  lemma LockedAges(s: Store, t: Store)
    requires QueueLive(Abs(s)) && t.objects == s.objects && t.now == NextTick(s.now) && t.links == s.links
    requires forall x :: x in t.queue <==> x in s.queue && !IsExpired(s, x)
    requires forall x :: x in t.toRelease <==> x in s.queue && IsExpired(s, x)
    requires forall x | x in s.queue :: x in s.objects
    ensures QueueAges(t) == Expire(Abs(s)).queue && (set x | x in t.toRelease) == Expire(Abs(s)).releasing
    ensures Abs(t).links == Expire(Abs(s)).links
  {
    forall x | x in t.queue ensures Age(t.now, t.objects[x].pushTime) == Abs(s).queue[x] + 1 {
      assert x in Abs(s).queue;
      Ages(s.now, s.objects[x].pushTime);
    }
    assert forall x | x in s.queue :: IsExpired(s, x) <==> Expires(Abs(s).queue[x]);
  }

  // ------------------------------------------------------------------ one reference let go by the queue

  /** x with one queue reference less. */
  function Returned(s: Store, x: Addr): Store
    requires x in s.objects
  {
    WithRecord(s, x, s.objects[x].(aqueue := s.objects[x].aqueue - 1))
  }

  function Without1(q: seq<Addr>, k: nat): (r: seq<Addr>)
    requires k < |q|
    ensures |r| == |q| - 1
  {
    q[..k] + q[k + 1..]
  }

  lemma Without1Facts(q: seq<Addr>, k: nat)
    requires Distinct(q) && k < |q|
    ensures Distinct(Without1(q, k)) && forall x :: x in Without1(q, k) <==> x in q && x != q[k]
  {
    var t := Without1(q, k);
    forall x | x in q && x != q[k] ensures x in t {
      var i :| 0 <= i < |q| && q[i] == x;
      assert t[if i < k then i else i - 1] == x;
    }
  }

  lemma DroppedConsistent(s: Store, k: nat)
    requires Consistent(s) && k < |s.toRelease|
    ensures s.toRelease[k] in s.objects && s.objects[s.toRelease[k]].aqueue == 1
    ensures Consistent(Returned(s.(toRelease := Without1(s.toRelease, k)), s.toRelease[k]))
  {
    var x := s.toRelease[k];
    var t := Returned(s.(toRelease := Without1(s.toRelease, k)), x);
    Without1Facts(s.toRelease, k);
    hide Into, Distinct, Without1;
    assert Counted(s, x);
    forall y | y in t.objects ensures Counted(t, y) {
      assert Counted(s, y);
    }
  }

  lemma DroppedAbs(s: Store, k: nat)
    requires Consistent(s) && k < |s.toRelease|
    ensures s.toRelease[k] in s.objects
    ensures var x, w := s.toRelease[k], Abs(s);
            Abs(Returned(s.(toRelease := Without1(s.toRelease, k)), x)) == w.(releasing := w.releasing - {x})
  {
    var x, w := s.toRelease[k], Abs(s);
    var t := Returned(s.(toRelease := Without1(s.toRelease, k)), x);
    Without1Facts(s.toRelease, k);
    assert x in s.objects;
    hide Consistent, Without1, Distinct;
    SameCells(s, t);
    hide Cells, QueueAges;
  }

  lemma SameDelete(w: World, x: Addr)
    ensures Delete(w.(releasing := w.releasing - {x}), x) == Delete(w, x)
  {
    hide Release;
    var u := w.(releasing := w.releasing - {x});
    assert Removed(u, x) == Removed(w, x);
    assert LinksOf(u, x) == LinksOf(w, x);
  }

  lemma IndexAfterRemoval(m: map<Handle, Addr>, handles: map<Addr, Handle>, x: Addr)
    requires Indexes(m, handles) && x in handles
    ensures handles[x] != NULL_HANDLE ==> handles[x] in m && m[handles[x]] == x
    ensures forall h | h in m && m[h] == x :: h == handles[x]
    ensures Indexes(m - {handles[x]}, handles - {x})
  {
  }

  lemma ReleasedRecord(s: Store, i: nat)
    requires Consistent(s) && i in s.links && s.links[i].target in s.objects
    ensures
      var b, u := s.links[i].target, Unlinking(s, i);
      && s.objects[b].refCount > 0 && Consistent(u) && Handles(u) == Handles(s)
      && Abs(u) == Abs(s).(links := s.links - {i})
      && (NoOwners(u.objects[b]) <==> !Owned(Abs(u), b))
      && Release(Abs(s), {i}) == (if Owned(Abs(u), b) then Abs(u)
         else Enqueue(Abs(u), b, u.objects[b].handle != NULL_HANDLE))
  {
    var b, u := s.links[i].target, Unlinking(s, i);
    UnlinkingFacts(s, i);
    hide Unlinking;
    OwnersSeen(u, b);
    AllNonNegative(s);
    ReleaseOne(Abs(s), i, b);
    hide Consistent, Owned, Release, Cells, QueueAges, NoOwners;
  }

  lemma QueuedAgain(s: Store, x: Addr, pushTime: Moment)
    requires Consistent(s) && x in s.objects && InAQueue(s.objects[x])
    ensures var t := WithRecord(s, x, s.objects[x].(pushTime := pushTime));
            && Consistent(t) && Handles(t) == Handles(s)
            && Abs(t) == if x in s.queue then Abs(s).(queue := Abs(s).queue[x := Age(s.now, pushTime)]) else Abs(s)
  {
    var r := s.objects[x].(pushTime := pushTime);
    assert Counted(s, x);
    RecordConsistent(s, x, r);
    RecordAbs(s, x, r);
    OwnersSeen(s, x);
    hide Consistent, Counted, Age;
    assert Abs(s).objs[x := CellOf(r)] == Abs(s).objs;
    assert Handles(s)[x := r.handle] == Handles(s);
    hide Cells, QueueAges, Handles;
  }

  lemma EnqueueEffect(s: Store, x: Addr, isPublic: bool, pushTime: Moment)
    requires Consistent(s) && x in s.objects && pushTime == if isPublic then s.now else Overdue(s.now)
    ensures var t := if InAQueue(s.objects[x]) then WithRecord(s, x, s.objects[x].(pushTime := pushTime))
            else Pushed(s, x, pushTime);
            Consistent(t) && Handles(t) == Handles(s) && Abs(t) == Enqueue(Abs(s), x, isPublic)
  {
    OwnersSeen(s, x);
    Ages(s.now, s.now);
    assert x in s.queue ==> x !in s.toRelease;
    if InAQueue(s.objects[x]) {
      QueuedAgain(s, x, pushTime);
    } else {
      PushedFacts(s, x, pushTime);
    }
    hide Consistent, Cells, QueueAges, Handles, Pushed;
  }

  lemma ZeroEffect(s: Store, x: Addr)
    requires Consistent(s) && x in s.objects
    ensures var t := if InAQueue(s.objects[x]) then WithRecord(s, x, s.objects[x].(pushTime := Overdue(s.now))) else s;
            Consistent(t) && Handles(t) == Handles(s) && Abs(t) == Zero(Abs(s), x)
  {
    OwnersSeen(s, x);
    Ages(s.now, s.now);
    if InAQueue(s.objects[x]) {
      QueuedAgain(s, x, Overdue(s.now));
    }
    hide Consistent, Cells, QueueAges, Handles;
  }

  /** New reference counts of the user or the stack. */
  lemma RefsChanged(s: Store, x: Addr, r: Record)
    requires Consistent(s) && x in s.objects && r.tes >= 0 && r.stack >= 0
    requires r == s.objects[x].(tes := r.tes, stack := r.stack, handle := r.handle)
    ensures var t := WithRecord(s, x, r);
            && Consistent(t) && Handles(t) == Handles(s)[x := r.handle]
            && x in Abs(s).objs && Abs(t) == Abs(s).(objs := Abs(s).objs[x := CellOf(r)])
            && (NoOwners(r) <==> !Owned(Abs(t), x))
            && (r.refCount == 0 <==> !Linked(s.links, x))
            && Abs(s).objs[x] == CellOf(s.objects[x])
  {
    var t := WithRecord(s, x, r);
    RecordConsistent(s, x, r);
    RecordAbs(s, x, r);
    OwnersSeen(s, x);
    OwnersSeen(t, x);
    hide Consistent, Owned, Linked, NoOwners;
    assert x in s.queue ==> QueueAges(s)[x := Age(s.now, r.pushTime)] == QueueAges(s);
  }

  class Context {
    var objects: map<Addr, Record>
    var links: Links
    var queue: seq<Addr>
    var toRelease: seq<Addr>
    var tickCounter: Moment
    const registry: ObjectRegistry

    ghost function State(): Store
      reads this
    {
      Store(objects, links, queue, toRelease, tickCounter)
    }

    ghost function View(): World
      reads this
    {
      Abs(State())
    }

    ghost predicate Valid()
      reads this, registry, registry.idGen
    {
      && Consistent(State()) && registry.Valid()
      && registry.allObjects == objects.Keys && Indexes(registry.index, Handles(State()))
    }

    /** The state between two calls. */
    ghost predicate Ready()
      reads this, registry, registry.idGen
    {
      Valid() && Settled(View())
    }

    /** The step from w is the given one. */
    ghost predicate Did(w: World, act: Action)
      reads this
    {
      Enabled(w, act) && View() == Apply(w, act)
    }

    constructor ()
      ensures Ready() && View() == EMPTY && fresh(registry) && fresh(registry.idGen)
    {
      objects, links, queue, toRelease, tickCounter := map[], map[], [], [], 0;
      registry := new ObjectRegistry();
      new;
      assert View() == EMPTY;
      EmptyIsSettled();
    }

    // ---------------------------------------------------------------- the queue

    /** autorelease_queue::prolong_lifetime */
    method QueueProlong(x: Addr, isPublic: bool)
      requires Valid() && x in objects
      modifies this`objects, this`queue
      ensures Valid() && View() == Enqueue(old(View()), x, isPublic) && objects.Keys == old(objects.Keys)
    {
      hide Consistent, Abs, Enqueue, Indexes, Handles, Overdue, InAQueue, ObjectRegistry.Valid;
      var pushTime := if isPublic then tickCounter else Overdue(tickCounter);
      EnqueueEffect(State(), x, isPublic, pushTime);
      var r := objects[x];
      if InAQueue(r) {
        objects := objects[x := r.(pushTime := pushTime)];
      } else {
        objects := objects[x := r.(aqueue := r.aqueue + 1, pushTime := pushTime)];
        queue := queue + [x];
      }
    }

    /** autorelease_queue::not_prolong_lifetime */
    method NotProlong(x: Addr)
      requires Valid() && x in objects
      modifies this`objects
      ensures Valid() && View() == Zero(old(View()), x) && objects.Keys == old(objects.Keys)
    {
      hide Consistent, Abs, Zero, Indexes, Handles, Overdue, InAQueue, ObjectRegistry.Valid;
      ZeroEffect(State(), x);
      var r := objects[x];
      if InAQueue(r) {
        objects := objects[x := r.(pushTime := Overdue(tickCounter))];
      }
    }

    // ---------------------------------------------------------------- calls on one object

    method Make(x: Addr)
      requires Ready() && x !in objects
      modifies this, registry
      ensures Ready() && Did(old(View()), DoMake(x))
    {
      hide Consistent, Settled, Abs, Indexes, Handles, Enabled, Apply, ObjectRegistry.Valid;
      MakeStep(State(), x);
      NewIndex(registry.index, Handles(State()), x);
      registry.RegisterNewObject(x);
      objects := objects[x := NEW_RECORD];
    }

    method TesRetain(x: Addr)
      requires Ready() && x in objects
      modifies this`objects
      ensures Ready() && Did(old(View()), DoTesRetain(x))
    {
      hide Consistent, Settled, Abs, Indexes, Handles, Enabled, Apply, ObjectRegistry.Valid;
      TesRetainStep(State(), x);
      objects := objects[x := objects[x].(tes := objects[x].tes + 1)];
      NotProlong(x);
    }

    /** A release without a matching retain does nothing. */
    method TesRelease(x: Addr)
      requires Ready() && x in objects
      modifies this`objects, this`queue
      ensures Ready() && Did(old(View()), DoTesRelease(x))
    {
      hide Consistent, Settled, Abs, Indexes, Handles, Enabled, Apply, ObjectRegistry.Valid, NoOwners;
      TesReleaseStep(State(), x);
      if objects[x].tes > 0 {
        objects := objects[x := objects[x].(tes := objects[x].tes - 1)];
        if NoOwners(objects[x]) {
          QueueProlong(x, true);
        }
      }
    }

    method StackRetain(x: Addr)
      requires Ready() && x in objects
      modifies this`objects
      ensures Ready() && Did(old(View()), DoStackRetain(x))
    {
      hide Consistent, Settled, Abs, Indexes, Handles, Enabled, Apply, ObjectRegistry.Valid;
      StackRetainStep(State(), x);
      objects := objects[x := objects[x].(stack := objects[x].stack + 1)];
    }

    method StackRelease(x: Addr)
      requires Ready() && x in objects
      modifies this`objects, this`queue
      ensures Ready() && Did(old(View()), DoStackRelease(x))
    {
      hide Consistent, Settled, Abs, Indexes, Handles, Enabled, Apply, ObjectRegistry.Valid, NoOwners;
      StackReleaseStep(State(), x);
      if objects[x].stack > 0 {
        objects := objects[x := objects[x].(stack := objects[x].stack - 1)];
        if NoOwners(objects[x]) {
          QueueProlong(x, objects[x].handle != NULL_HANDLE);
        }
      }
    }

    method ProlongLifetime(x: Addr)
      requires Ready() && x in objects
      modifies this`objects, this`queue
      ensures Ready() && Did(old(View()), DoProlong(x))
    {
      hide Consistent, Settled, Abs, Indexes, Handles, Enabled, Apply, ObjectRegistry.Valid;
      ProlongStep(State(), x);
      QueueProlong(x, objects[x].handle != NULL_HANDLE);
    }

    method ZeroLifetime(x: Addr)
      requires Ready() && x in objects
      modifies this`objects
      ensures Ready() && Did(old(View()), DoZero(x))
    {
      hide Consistent, Settled, Abs, Indexes, Handles, Enabled, Apply, ObjectRegistry.Valid;
      ProlongStep(State(), x);
      NotProlong(x);
    }

    /** The handle of an object, given to it on the first call. */
    method Uid(x: Addr) returns (h: Handle)
      requires Ready() && x in objects
      requires objects[x].handle == NULL_HANDLE ==> registry.idGen.CursorOk()
      modifies this`objects, this`queue, registry, registry.idGen
      ensures Ready() && h != NULL_HANDLE && Did(old(View()), DoUid(x, h))
      ensures old(objects[x].handle) != NULL_HANDLE ==> h == old(objects[x].handle)
    {
      hide Consistent, Settled, Abs, Indexes, Handles, Enabled, Apply, ObjectRegistry.Valid;
      h := objects[x].handle;
      if h == NULL_HANDLE {
        ghost var before := registry.index;
        h := registry.RegisterNewObjectId(x);
        FreshHandle(before, State(), x, h);
        UidStep(State(), x, h);
        objects := objects[x := objects[x].(handle := h)];
        if objects[x].refCount == 0 {
          QueueProlong(x, true);
        }
      } else {
        PublicStep(State(), x);
      }
    }

    // ---------------------------------------------------------------- slots

    /** retain() by a new slot. */
    method Retain(i: nat, owner: Addr, target: Addr)
      requires Valid() && i !in links && target in objects
      modifies this`objects, this`links
      ensures Valid() && View() == Insert(old(View()), i, owner, target)
      ensures links == old(links)[i := Link(owner, target)] && objects.Keys == old(objects.Keys)
    {
      hide Consistent, Abs, Indexes, Handles, ObjectRegistry.Valid;
      LinkingFacts(State(), i, owner, target);
      links := links[i := Link(owner, target)];
      objects := objects[target := objects[target].(refCount := objects[target].refCount + 1)];
    }

    /** release() by slot i. */
    method ReleaseSlot(i: nat)
      requires Valid() && i in links && links[i].target in objects
      modifies this`objects, this`links, this`queue
      ensures Valid() && View() == Release(old(View()), {i})
      ensures links == old(links) - {i} && objects.Keys == old(objects.Keys)
    {
      hide Consistent, Abs, Indexes, Handles, Owned, Release, NoOwners, ObjectRegistry.Valid;
      var x := links[i].target;
      ReleasedRecord(State(), i);
      links := links - {i};
      if objects[x].refCount > 0 {
        objects := objects[x := objects[x].(refCount := objects[x].refCount - 1)];
        if NoOwners(objects[x]) {
          QueueProlong(x, objects[x].handle != NULL_HANDLE);
        }
      }
    }

    /** A slot that comes to hold an object. */
    method PutObject(i: nat, owner: Addr, target: Addr)
      requires Ready() && i !in links && owner in objects && target in objects
      modifies this`objects, this`links
      ensures Ready() && Did(old(View()), DoInsert(i, owner, target))
    {
      hide Consistent, Settled, Abs, Indexes, Handles, Enabled, Apply, Insert, ObjectRegistry.Valid;
      InsertStep(State(), i, owner, target);
      links := links[i := Link(owner, target)];
      objects := objects[target := objects[target].(refCount := objects[target].refCount + 1)];
    }

    /** Assignment to a slot that holds an object: the new object is retained before the old is released. */
    method ReplaceObject(i: nat, j: nat, owner: Addr, target: Addr)
      requires Ready() && i in links && links[i].owner == owner && j !in links && owner in objects && target in objects
      modifies this`objects, this`links, this`queue
      ensures Ready() && Did(old(View()), DoReplace(i, j, owner, target))
    {
      hide Consistent, Settled, Abs, Indexes, Handles, Enabled, Apply, Insert, Release, ObjectRegistry.Valid;
      ReplaceStep(State(), i, j, owner, target);
      Retain(j, owner, target);
      ReleaseSlot(i);
    }

    method ReleaseSlots(ids: set<nat>)
      requires Valid() && ids <= links.Keys && forall i | i in ids :: links[i].target in objects
      modifies this`objects, this`links, this`queue
      ensures Valid() && View() == Release(old(View()), ids)
      ensures links == old(links) - ids && objects.Keys == old(objects.Keys)
    {
      hide Consistent, Abs, Indexes, Handles, Owned, Release, ObjectRegistry.Valid;
      ReleaseNone(View());
      AbsLinks(State());
      var todo := ids;
      assert ids - todo == {};
      while todo != {}
        invariant todo <= ids && links == old(links) - (ids - todo) && objects.Keys == old(objects.Keys)
        invariant Valid() && View() == Release(old(View()), ids - todo)
      {
        var i :| i in todo;
        ReleaseMoreOf(old(View()), old(links), ids, todo, i);
        ReleaseSlot(i);
        todo := todo - {i};
      }
      assert ids - todo == ids;
    }

    // ---------------------------------------------------------------- deletion

    /** _delete_self: out of the registry first, then the destructor empties the slots. */
    method DeleteSelf(x: Addr)
      requires Valid() && x in objects && x !in queue && x !in toRelease
      requires forall i | i in links :: links[i].target in objects && links[i].target != x
      modifies this`objects, this`links, this`queue, registry, registry.idGen
      ensures Valid() && View() == Delete(old(View()), x) && objects.Keys == old(objects.Keys) - {x}
    {
      hide Consistent, Abs, Indexes, Handles, Release, ObjectRegistry.Valid;
      WithoutFacts(State(), x);
      HandleOf(State(), x);
      IndexAfterRemoval(registry.index, Handles(State()), x);
      AbsLinks(State());
      registry.RemoveObject(x, objects[x].handle);
      objects := objects - {x};
      var ids := set i | i in links && links[i].owner == x;
      ReleaseSlots(ids);
    }

    /** The state with one queue reference to x that is neither in the queue nor waiting to be let go. */
    ghost predicate ValidBut(x: Addr)
      reads this, registry, registry.idGen
    {
      && x in objects && objects[x].aqueue > 0 && Consistent(Returned(State(), x)) && registry.Valid()
      && registry.allObjects == objects.Keys && Indexes(registry.index, Handles(State()))
    }

    /** True if the object was deleted: the reference let go was the only owner. */
    method AqueueRelease(x: Addr) returns (deleted: bool)
      requires ValidBut(x) && x !in queue
      requires forall i | i in links :: links[i].target in objects
      modifies this`objects, this`links, this`queue, registry, registry.idGen
      ensures Valid() && deleted == (TotalRefs(old(objects)[x]) <= 1)
      ensures View() == var w := Abs(Returned(old(State()), x)); if deleted then Delete(w, x) else w
      ensures !deleted ==> State() == Returned(old(State()), x) && registry.index == old(registry.index)
      ensures toRelease == old(toRelease) && tickCounter == old(tickCounter)
    {
      hide Consistent, Abs, Indexes, Handles, Delete, ObjectRegistry.Valid;
      ReturnedFacts(State(), x);
      if TotalRefs(objects[x]) <= 1 {
        objects := objects[x := objects[x].(aqueue := 0)];
        DeleteSelf(x);
        deleted := true;
      } else {
        objects := objects[x := objects[x].(aqueue := objects[x].aqueue - 1)];
        deleted := false;
      }
    }

    // ---------------------------------------------------------------- the tick

    /** Expired entries move from the queue to _toRelease, the others stay in order, and no object is
        deleted: each reference let go here has a copy in _toRelease, so two are counted. */
    method LockedPhase()
      requires Ready()
      modifies this, registry, registry.idGen
      ensures Valid() && View() == Expire(old(View())) && tickCounter == NextTick(old(tickCounter))
      ensures objects == old(objects) && links == old(links)
      ensures queue == Kept(old(State()), old(queue)) && toRelease == Expired(old(State()), old(queue))
    {
      hide Consistent, Settled, Abs, Indexes, Handles, ObjectRegistry.Valid, Partly, Kept, Expired, QueueLive;
      ghost var s := State();
      LockedStart(s);
      var pos := 0;
      ghost var i := 0;
      while pos < |queue|
        invariant i <= |s.queue| && State() == Partly(s, i) && pos == |Kept(s, s.queue[..i])|
        invariant |queue| == pos + |s.queue| - i && Valid()
        decreases |s.queue| - i
      {
        var leaves := LookAt(pos, s, i);
        if !leaves {
          pos := pos + 1;
        }
        i := i + 1;
      }
      LockedEnd(s);
      tickCounter := TimeAdd(tickCounter, 1);
    }

    /** One entry of the queue tested; true if it moved to _toRelease. */
    method LookAt(pos: nat, ghost s: Store, ghost i: nat) returns (leaves: bool)
      requires Valid() && i < |s.queue| && State() == Partly(s, i) && pos == |Kept(s, s.queue[..i])|
      requires Consistent(s) && s.toRelease == [] && forall k | k in s.links :: s.links[k].target in s.objects
      modifies this, registry, registry.idGen
      ensures Valid() && State() == Partly(s, i + 1) && |queue| == old(|queue|) - (if leaves then 1 else 0)
      ensures |Kept(s, s.queue[..i + 1])| == if leaves then pos else pos + 1
    {
      hide Consistent, Abs, Indexes, Handles, ObjectRegistry.Valid, Partly, Kept, Expired, Returned, TimeSubtract,
        IsExpired, TotalRefs;
      LockedStep(s, i);
      var x := queue[pos];
      var diff := TimeSubtract(tickCounter, objects[x].pushTime) + 1;
      leaves := diff >= LIFE_IN_TICKS;
      if leaves {
        toRelease := toRelease + [x];
        objects := objects[x := objects[x].(aqueue := objects[x].aqueue + 1)];
        queue := Without1(queue, pos);
        var deleted := AqueueRelease(x);
        assert !deleted;
      }
    }

    /** _toRelease.clear(), in any order. */
    method ClearToRelease() returns (ghost order: seq<Addr>)
      requires Valid() && Safe(View())
      modifies this, registry, registry.idGen
      ensures Valid() && toRelease == [] && View() == Drops(old(View()), order)
      ensures Lists(order, old(View()).releasing)
    {
      hide Consistent, Abs, Indexes, Handles, ObjectRegistry.Valid, Returned, Safe, Drops, Drop, Lists, Delete,
        Without1, LinksLive;
      order := [];
      ghost var w := View();
      DropsNone(State());
      while toRelease != []
        invariant Valid() && View() == Drops(w, order) && Safe(View()) && Remaining(w, order, toRelease)
        decreases |toRelease|
      {
        var k :| 0 <= k < |toRelease|;
        var x := toRelease[k];
        ghost var s := State();
        DropStep(s, k);
        DropsOneMore(w, order, s.toRelease, k);
        toRelease := Without1(toRelease, k);
        var deleted := AqueueRelease(x);
        order := order + [x];
      }
      AllDropped(w, order);
    }

    /** One tick. */
    method Tick() returns (ghost order: seq<Addr>)
      requires Ready()
      modifies this, registry, registry.idGen
      ensures Ready() && Did(old(View()), DoTick(order))
    {
      hide Consistent, Abs, Indexes, Handles, ObjectRegistry.Valid, Safe, Drops, Lists, Settled, Kept, Expired;
      SettledIsSafe(View());
      LockedPhase();
      order := ClearToRelease();
      StepFacts(old(View()), DoTick(order));
    }

    /** Slots emptied: an erased item, or all slots of a cleared container. */
    method Erase(ids: set<nat>)
      requires Ready() && ids <= links.Keys
      modifies this`objects, this`links, this`queue
      ensures Ready() && Did(old(View()), DoErase(ids))
    {
      hide Consistent, Settled, Abs, Indexes, Handles, Enabled, Apply, Release, ObjectRegistry.Valid;
      EraseStep(State(), ids);
      ReleaseSlots(ids);
    }
  }

  lemma MakeStep(s: Store, x: Addr)
    requires Consistent(s) && Settled(Abs(s)) && x !in s.objects
    ensures var t := WithRecord(s, x, NEW_RECORD);
            && Consistent(t) && Handles(t) == Handles(s)[x := NULL_HANDLE] && x !in Handles(s)
            && Enabled(Abs(s), DoMake(x)) && Abs(t) == Apply(Abs(s), DoMake(x)) && Settled(Abs(t))
  {
    NothingInto(s, x);
    MadeFacts(s, x);
    hide Consistent, Settled, Linked, Abs, Handles;
    StepFacts(Abs(s), DoMake(x));
  }

  lemma NewIndex(m: map<Handle, Addr>, handles: map<Addr, Handle>, x: Addr)
    requires Indexes(m, handles) && x !in handles
    ensures Indexes(m, handles[x := NULL_HANDLE])
  {
  }

  lemma TesRetainStep(s: Store, x: Addr)
    requires Consistent(s) && Settled(Abs(s)) && x in s.objects
    ensures var act, t := DoTesRetain(x), WithRecord(s, x, s.objects[x].(tes := s.objects[x].tes + 1));
            && Consistent(t) && Handles(t) == Handles(s)
            && Enabled(Abs(s), act) && Zero(Abs(t), x) == Apply(Abs(s), act) && Settled(Apply(Abs(s), act))
  {
    hide Consistent, Settled, Linked, Abs, Owned, Zero, NoOwners, Handles;
    var r := s.objects[x];
    NonNegative(s, x);
    RefsChanged(s, x, r.(tes := r.tes + 1));
    StepFacts(Abs(s), DoTesRetain(x));
  }

  lemma TesReleaseStep(s: Store, x: Addr)
    requires Consistent(s) && Settled(Abs(s)) && x in s.objects
    ensures var act, r := DoTesRelease(x), s.objects[x];
            && Enabled(Abs(s), act) && Settled(Apply(Abs(s), act))
            && (r.tes <= 0 ==> Apply(Abs(s), act) == Abs(s))
            && (r.tes > 0 ==>
                  var t := WithRecord(s, x, r.(tes := r.tes - 1));
                  && Consistent(t) && Handles(t) == Handles(s)
                  && Apply(Abs(s), act) == if NoOwners(t.objects[x]) then Enqueue(Abs(t), x, true) else Abs(t))
  {
    hide Consistent, Settled, Linked, Abs, Owned, Enqueue, NoOwners, Handles;
    var r := s.objects[x];
    NonNegative(s, x);
    RefsChanged(s, x, r);
    if r.tes > 0 {
      RefsChanged(s, x, r.(tes := r.tes - 1));
    }
    StepFacts(Abs(s), DoTesRelease(x));
  }

  lemma StackRetainStep(s: Store, x: Addr)
    requires Consistent(s) && Settled(Abs(s)) && x in s.objects
    ensures var act, t := DoStackRetain(x), WithRecord(s, x, s.objects[x].(stack := s.objects[x].stack + 1));
            && Consistent(t) && Handles(t) == Handles(s)
            && Enabled(Abs(s), act) && Abs(t) == Apply(Abs(s), act) && Settled(Apply(Abs(s), act))
  {
    hide Consistent, Settled, Linked, Abs, Owned, NoOwners, Handles;
    var r := s.objects[x];
    NonNegative(s, x);
    RefsChanged(s, x, r.(stack := r.stack + 1));
    StepFacts(Abs(s), DoStackRetain(x));
  }

  lemma StackReleaseStep(s: Store, x: Addr)
    requires Consistent(s) && Settled(Abs(s)) && x in s.objects
    ensures var act, r := DoStackRelease(x), s.objects[x];
            && Enabled(Abs(s), act) && Settled(Apply(Abs(s), act))
            && (r.stack <= 0 ==> Apply(Abs(s), act) == Abs(s))
            && (r.stack > 0 ==>
                  var t := WithRecord(s, x, r.(stack := r.stack - 1));
                  && Consistent(t) && Handles(t) == Handles(s)
                  && Apply(Abs(s), act) == if NoOwners(t.objects[x]) then Enqueue(Abs(t), x, r.handle != NULL_HANDLE)
                     else Abs(t))
  {
    hide Consistent, Settled, Linked, Abs, Owned, Enqueue, NoOwners, Handles;
    var r := s.objects[x];
    NonNegative(s, x);
    RefsChanged(s, x, r);
    if r.stack > 0 {
      RefsChanged(s, x, r.(stack := r.stack - 1));
    }
    StepFacts(Abs(s), DoStackRelease(x));
  }

  lemma ProlongStep(s: Store, x: Addr)
    requires Consistent(s) && Settled(Abs(s)) && x in s.objects
    ensures Enabled(Abs(s), DoProlong(x)) && Settled(Apply(Abs(s), DoProlong(x)))
    ensures Apply(Abs(s), DoProlong(x)) == Enqueue(Abs(s), x, s.objects[x].handle != NULL_HANDLE)
    ensures Enabled(Abs(s), DoZero(x)) && Settled(Apply(Abs(s), DoZero(x))) &&
            Apply(Abs(s), DoZero(x)) == Zero(Abs(s), x)
  {
    hide Consistent, Settled, Linked, Abs, Owned, Enqueue, Zero, NoOwners, Handles;
    NonNegative(s, x);
    RefsChanged(s, x, s.objects[x]);
    StepFacts(Abs(s), DoProlong(x));
    StepFacts(Abs(s), DoZero(x));
  }

  lemma UidStep(s: Store, x: Addr, h: Handle)
    requires Consistent(s) && Settled(Abs(s)) && x in s.objects && h != NULL_HANDLE
    requires s.objects[x].handle == NULL_HANDLE && forall y | y in s.objects :: s.objects[y].handle != h
    ensures var act, r := DoUid(x, h), s.objects[x];
            var t := WithRecord(s, x, r.(handle := h));
            && Enabled(Abs(s), act) && Settled(Apply(Abs(s), act))
            && Consistent(t) && Handles(t) == Handles(s)[x := h]
            && Apply(Abs(s), act) == if r.refCount == 0 then Enqueue(Abs(t), x, true) else Abs(t)
  {
    hide Consistent, Settled, Linked, Owned, Enqueue, NoOwners, Handles, Safe;
    var r, act := s.objects[x], DoUid(x, h);
    NonNegative(s, x);
    NoSuchHandle(s, h);
    hide Abs;
    RefsChanged(s, x, r.(handle := h));
    StepFacts(Abs(s), act);
  }

  lemma NoSuchHandle(s: Store, h: Handle)
    requires Consistent(s) && forall y | y in s.objects :: s.objects[y].handle != h
    ensures forall y | IsPublic(Abs(s), y) :: Abs(s).objs[y].handle != h
  {
    AllNonNegative(s);
    hide Consistent;
  }

  lemma PublicStep(s: Store, x: Addr)
    requires Consistent(s) && Settled(Abs(s)) && x in s.objects && s.objects[x].handle != NULL_HANDLE
    ensures var act := DoUid(x, s.objects[x].handle);
            Enabled(Abs(s), act) && Apply(Abs(s), act) == Abs(s)
  {
    hide Consistent, Settled, Linked, Owned, Enqueue, NoOwners, Handles, Cells, QueueAges;
    NonNegative(s, x);
    OwnersSeen(s, x);
  }

  lemma FreshHandle(m: map<Handle, Addr>, s: Store, x: Addr, h: Handle)
    requires Indexes(m, Handles(s)) && h !in m && h != NULL_HANDLE && x in s.objects &&
             s.objects[x].handle == NULL_HANDLE
    ensures forall y | y in s.objects :: s.objects[y].handle != h
    ensures Indexes(m[h := x], Handles(s)[x := h])
  {
    assert forall y | y in s.objects :: Handles(s)[y] == s.objects[y].handle;
  }

  lemma InsertStep(s: Store, i: nat, a: Addr, b: Addr)
    requires Consistent(s) && Settled(Abs(s)) && i !in s.links && a in s.objects && b in s.objects
    ensures var act, t := DoInsert(i, a, b), Linking(s, i, a, b);
            && Consistent(t) && Handles(t) == Handles(s)
            && Enabled(Abs(s), act) && Abs(t) == Apply(Abs(s), act) && Settled(Abs(t))
  {
    LinkingFacts(s, i, a, b);
    AllNonNegative(s);
    hide Consistent, Settled, Linked, Cells, QueueAges, Handles, Linking;
    StepFacts(Abs(s), DoInsert(i, a, b));
  }

  lemma ReplaceStep(s: Store, i: nat, j: nat, a: Addr, b: Addr)
    requires Consistent(s) && Settled(Abs(s)) && i in s.links && s.links[i].owner == a
    requires j !in s.links && a in s.objects && b in s.objects
    ensures var act := DoReplace(i, j, a, b);
            && s.links[i].target in s.objects
            && Enabled(Abs(s), act) && Settled(Apply(Abs(s), act))
            && Apply(Abs(s), act) == Release(Insert(Abs(s), j, a, b), {i})
  {
    AllNonNegative(s);
    assert LinksLive(Abs(s));
    hide Consistent, Settled, Linked, Cells, QueueAges, Handles, Release;
    StepFacts(Abs(s), DoReplace(i, j, a, b));
  }

  lemma EraseStep(s: Store, ids: set<nat>)
    requires Consistent(s) && Settled(Abs(s))
    ensures var act := DoErase(ids);
            && Enabled(Abs(s), act) && Settled(Apply(Abs(s), act)) && Apply(Abs(s), act) == Release(Abs(s), ids)
    ensures forall i | i in s.links :: s.links[i].target in s.objects
    ensures Release(Abs(s), {}) == Abs(s)
  {
    AllNonNegative(s);
    assert LinksLive(Abs(s));
    hide Consistent, Settled, Linked, Cells, QueueAges, Release;
    ReleaseNone(Abs(s));
    StepFacts(Abs(s), DoErase(ids));
  }

  lemma NonNegative(s: Store, x: Addr)
    requires Consistent(s) && x in s.objects
    ensures s.objects[x].tes >= 0 && s.objects[x].stack >= 0 && s.objects[x].refCount >= 0 && s.objects[x].aqueue >= 0
    ensures Handles(s)[x := s.objects[x].handle] == Handles(s)
  {
    assert Counted(s, x);
  }

  lemma LockedStart(s: Store)
    requires Consistent(s) && Settled(Abs(s))
    ensures s.toRelease == [] && Partly(s, 0) == s && |Kept(s, s.queue[..0])| == 0
    ensures QueueLive(Abs(s)) && forall i | i in s.links :: s.links[i].target in s.objects
  {
    AllNonNegative(s);
    assert LinksLive(Abs(s));
    assert s.toRelease != [] ==> s.toRelease[0] in s.toRelease;
    assert forall x | x in s.toRelease :: x in Abs(s).releasing;
    hide Consistent, Settled;
    assert s.queue[0..] == s.queue;
  }

  lemma LockedStep(s: Store, i: nat)
    requires Consistent(s) && s.toRelease == [] && i < |s.queue|
    ensures
      var p, pos, x := Partly(s, i), |Kept(s, s.queue[..i])|, s.queue[i];
      && Consistent(Partly(s, i + 1)) && Handles(Partly(s, i + 1)) == Handles(s) == Handles(p)
      && |Partly(s, i + 1).queue| == |p.queue| - (if IsExpired(s, x) then 1 else 0)
      && x in s.objects && p.objects == s.objects && p.links == s.links && p.now == s.now && pos < |p.queue| &&
         p.queue[pos] == x
      && |Kept(s, s.queue[..i + 1])| == (if IsExpired(s, x) then pos else pos + 1)
      && (IsExpired(s, x) <==> TimeSubtract(s.now, s.objects[x].pushTime) + 1 >= LIFE_IN_TICKS)
      && (if IsExpired(s, x) then
            var r := s.objects[x].(aqueue := s.objects[x].aqueue + 1);
            var t := p.(objects := p.objects[x := r], toRelease := p.toRelease + [x], queue := Without1(p.queue, pos));
            && Returned(t, x) == Partly(s, i + 1) && Handles(t) == Handles(s) && TotalRefs(r) >= 2 && r.aqueue > 0 &&
               x !in t.queue
          else Partly(s, i + 1) == p)
  {
    var x := s.queue[i];
    PartlyConsistent(s, i);
    PartlyConsistent(s, i + 1);
    PartlyNext(s, i);
    QueuedRecord(s, x);
    hide Kept, Expired, Consistent, Handles;
    if IsExpired(s, x) {
      Without1Queue(Partly(s, i), |Kept(s, s.queue[..i])|);
      BackAgain(s, x, Without1(Partly(s, i).queue, |Kept(s, s.queue[..i])|), Partly(s, i).toRelease + [x]);
      hide IsExpired, Expires;
    }
  }

  lemma BackAgain(s: Store, x: Addr, q: seq<Addr>, rest: seq<Addr>)
    requires x in s.objects
    ensures var r := s.objects[x].(aqueue := s.objects[x].aqueue + 1);
            s.objects[x := r][x := s.objects[x]] == s.objects && r.(aqueue := r.aqueue - 1) == s.objects[x]
    ensures var r := s.objects[x].(aqueue := s.objects[x].aqueue + 1);
            Handles(s.(objects := s.objects[x := r], toRelease := rest, queue := q)) == Handles(s)
  {
  }

  lemma QueuedRecord(s: Store, x: Addr)
    requires Consistent(s) && x in s.queue
    ensures x in s.objects && s.objects[x].aqueue >= 1 && s.objects[x].refCount >= 0 && s.objects[x].tes >= 0 &&
            s.objects[x].stack >= 0
  {
    assert Counted(s, x);
  }

  lemma Without1Queue(s: Store, k: nat)
    requires Consistent(s) && k < |s.queue|
    ensures s.queue[k] !in Without1(s.queue, k)
  {
    Without1Facts(s.queue, k);
  }

  lemma LockedEnd(s: Store)
    requires Consistent(s) && s.toRelease == [] && QueueLive(Abs(s))
    ensures Partly(s, |s.queue|) == s.(queue := Kept(s, s.queue), toRelease := Expired(s, s.queue))
    ensures Handles(Partly(s, |s.queue|)) == Handles(s)
    ensures var t := s.(queue := Kept(s, s.queue), toRelease := Expired(s, s.queue), now := NextTick(s.now));
            Consistent(t) && Handles(t) == Handles(s) && Abs(t) == Expire(Abs(s))
  {
    LockedResult(s);
    PartlyConsistent(s, |s.queue|);
    assert s.queue[..|s.queue|] == s.queue;
    hide Consistent, Abs, Handles, Kept, Expired;
    assert Partly(s, |s.queue|).queue == Kept(s, s.queue);
  }

  // ------------------------------------------------------------------ clearing _toRelease

  /** rest holds what is still to be dropped after order has been. */
  ghost predicate Remaining(w: World, order: seq<Addr>, rest: seq<Addr>)
  {
    && (forall i | 0 <= i < |order| :: order[i] in w.releasing && order[i] !in rest)
    && (forall i, j | 0 <= i < j < |order| :: order[i] != order[j])
    && (forall x | x in rest :: x in w.releasing)
    && (forall x | x in w.releasing :: x in order || x in rest)
    && Distinct(rest)
  }

  lemma DropsNone(s: Store)
    requires Consistent(s)
    ensures Drops(Abs(s), []) == Abs(s) && Remaining(Abs(s), [], s.toRelease)
  {
  }

  lemma DropsOneMore(w: World, order: seq<Addr>, rest: seq<Addr>, k: nat)
    requires Remaining(w, order, rest) && k < |rest| && rest[k] in Drops(w, order).objs
    ensures Remaining(w, order + [rest[k]], Without1(rest, k))
    ensures Drops(w, order + [rest[k]]) == Drop(Drops(w, order), rest[k])
  {
    Without1Facts(rest, k);
    hide Without1, Drop;
    assert (order + [rest[k]])[..|order|] == order;
  }

  lemma AllDropped(w: World, order: seq<Addr>)
    requires Remaining(w, order, [])
    ensures Lists(order, w.releasing)
  {
  }

  /** Letting go of one reference in _toRelease is one Drop. */
  lemma DropStep(s: Store, k: nat)
    requires Consistent(s) && k < |s.toRelease| && Safe(Abs(s))
    ensures
      var x, w, t := s.toRelease[k], Abs(s), s.(toRelease := Without1(s.toRelease, k));
      && x in s.objects && s.objects[x].aqueue > 0 && x !in s.queue && x in w.objs
      && Consistent(Returned(t, x)) && Safe(Drop(w, x))
      && (forall i | i in s.links :: s.links[i].target in s.objects)
      && Handles(t) == Handles(s)
      && Drop(w, x) == (if TotalRefs(s.objects[x]) <= 1 then Delete(Abs(Returned(t, x)), x) else Abs(Returned(t, x)))
  {
    var x, w := s.toRelease[k], Abs(s);
    var t := s.(toRelease := Without1(s.toRelease, k));
    DroppedConsistent(s, k);
    DroppedAbs(s, k);
    SafeStore(s, x);
    hide Without1;
    ReturnedFacts(t, x);
    hide Consistent, Returned;
    SameDelete(w, x);
    hide Abs, Delete, Linked, Safe;
    DropFacts(w, x);
  }

  lemma SafeStore(s: Store, x: Addr)
    requires Consistent(s) && Safe(Abs(s)) && x in s.toRelease
    ensures x !in s.queue && x in s.objects && x in Abs(s).objs && x in Abs(s).releasing &&
            Abs(s).objs[x] == CellOf(s.objects[x])
    ensures s.objects[x].tes >= 0 && s.objects[x].stack >= 0 && Abs(s).links == s.links
    ensures forall i | i in s.links :: s.links[i].target in s.objects
  {
    AllNonNegative(s);
    assert LinksLive(Abs(s));
  }

  lemma SettledIsSafe(w: World)
    requires Settled(w)
    ensures Safe(w) && w.releasing == {} && Safe(Expire(w))
  {
    ExpireFacts(w);
  }

  lemma HandleOf(s: Store, x: Addr)
    requires x in s.objects
    ensures x in Handles(s) && Handles(s)[x] == s.objects[x].handle
  {
  }

  lemma ReturnedFacts(s: Store, x: Addr)
    requires x in s.objects && s.objects[x].aqueue > 0 && Consistent(Returned(s, x)) && x !in s.queue
    ensures Handles(Returned(s, x)) == Handles(s)
    ensures TotalRefs(s.objects[x]) <= 1 ==>
              && s.objects[x].aqueue == 1 && x !in s.toRelease && forall i | i in s.links :: s.links[i].target != x
    ensures TotalRefs(s.objects[x]) <= 1 <==>
              s.objects[x].aqueue == 1 && s.objects[x].tes == 0 && s.objects[x].stack == 0 && !Linked(s.links, x)
  {
    var t := Returned(s, x);
    NonNegative(t, x);
    OwnersSeen(t, x);
    hide Consistent, Cells, QueueAges;
    assert Handles(t) == Handles(s);
    hide Handles;
    assert !Linked(s.links, x) ==> forall i | i in s.links :: s.links[i].target != x;
  }

  lemma AbsLinks(s: Store)
    ensures Abs(s).links == s.links
  {
  }

  lemma ReleaseMoreOf(w: World, links: Links, ids: set<nat>, todo: set<nat>, i: nat)
    requires w.links == links && ids <= links.Keys && todo <= ids && i in todo
    ensures Release(Release(w, ids - todo), {i}) == Release(w, ids - (todo - {i}))
    ensures i in links - (ids - todo) && (links - (ids - todo))[i] == links[i]
    ensures (links - (ids - todo)) - {i} == links - (ids - (todo - {i}))
  {
    assert ids - (todo - {i}) == (ids - todo) + {i};
    ReleaseMore(w, ids - todo, i);
  }

  lemma NothingInto(s: Store, x: Addr)
    requires Consistent(s) && Settled(Abs(s)) && x !in s.objects
    ensures !Linked(s.links, x) && x !in Abs(s).objs
  {
  }

  /** Between two calls every counter equals what it counts, none is negative, no object is queued twice,
      slots and queue entries refer to objects that are there, and an object with a handle has an owner. */
  lemma CountersCoherent(c: Context, x: Addr)
    requires c.Ready() && x in c.objects
    ensures c.objects[x].refCount == |Into(c.links, x)|
    ensures c.objects[x].aqueue == Occurrences(c.queue, x) && Distinct(c.queue) && c.toRelease == []
    ensures c.objects[x].tes >= 0 && c.objects[x].stack >= 0
    ensures c.objects[x].handle != NULL_HANDLE ==> !NoOwners(c.objects[x]) && TotalRefs(c.objects[x]) > 0
    ensures forall i | i in c.links :: c.links[i].owner in c.objects && c.links[i].target in c.objects
    ensures forall y | y in c.queue :: y in c.objects && Age(c.tickCounter, c.objects[y].pushTime) <= 5
  {
    hide Owned, Settled, Consistent, Counted, NoOwners, Into, Abs, Distinct, ObjectRegistry.Valid, Indexes, Handles;
    var s := c.State();
    LockedStart(s);
    NonNegative(s, x);
    OwnersSeen(s, x);
    QueueSeen(s);
    CountsSeen(s, x);
    if s.objects[x].handle != NULL_HANDLE {
      OwnedIfPublic(s, x);
    }
    NobodyOwns(s.objects[x]);
  }

  lemma CountsSeen(s: Store, x: Addr)
    requires Consistent(s) && x in s.objects
    ensures s.objects[x].refCount == |Into(s.links, x)|
    ensures s.objects[x].aqueue == Occurrences(s.queue, x) + Occurrences(s.toRelease, x)
  {
    assert Counted(s, x);
  }

  lemma NobodyOwns(r: Record)
    requires r.tes >= 0 && r.stack >= 0 && r.refCount >= 0 && r.aqueue >= 0
    ensures NoOwners(r) <==> TotalRefs(r) == 0
  {
  }

  lemma OwnedIfPublic(s: Store, x: Addr)
    requires Consistent(s) && Settled(Abs(s)) && x in s.objects && s.objects[x].handle != NULL_HANDLE
    ensures Owned(Abs(s), x)
  {
    AllNonNegative(s);
    hide Owned, Safe, Consistent;
    assert IsPublic(Abs(s), x);
  }

  lemma QueueSeen(s: Store)
    requires Consistent(s) && Settled(Abs(s))
    ensures Distinct(s.queue)
    ensures forall i | i in s.links :: s.links[i].owner in s.objects && s.links[i].target in s.objects
    ensures forall y | y in s.queue :: y in s.objects && Age(s.now, s.objects[y].pushTime) <= LIFE_IN_TICKS
  {
    AllNonNegative(s);
    assert LinksLive(Abs(s));
    forall y | y in s.queue ensures y in s.objects && Age(s.now, s.objects[y].pushTime) <= LIFE_IN_TICKS {
      assert y in Abs(s).queue;
    }
  }

  /** Between two calls the registry finds exactly the objects that carry a handle, no two objects share
      one, and the generator's free ids are exactly the handles nobody has. */
  lemma HandlesCoherent(c: Context, h: Handle, x: Addr, y: Addr)
    requires c.Ready() && x in c.objects && y in c.objects
    ensures c.objects[x].handle != NULL_HANDLE ==>
              c.objects[x].handle in c.registry.index && c.registry.index[c.objects[x].handle] == x
    ensures h in c.registry.index ==>
              h != NULL_HANDLE && c.registry.index[h] in c.objects && c.objects[c.registry.index[h]].handle == h
    ensures c.objects[x].handle == c.objects[y].handle != NULL_HANDLE ==> x == y
    ensures MIN_ID <= h <= MAX_ID ==>
              (Free(c.registry.idGen.ranges, h) <==> forall z | z in c.objects :: c.objects[z].handle != h)
  {
    HandleOf(c.State(), x);
    HandleOf(c.State(), y);
    assert forall z | z in c.objects :: Handles(c.State())[z] == c.objects[z].handle;
    hide Consistent, Settled, Free, Separated;
    assert c.objects[x].handle == h != NULL_HANDLE ==> h in c.registry.index;
  }
}
