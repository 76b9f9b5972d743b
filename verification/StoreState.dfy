/** The state the code keeps, with its counters and push times, and how it stands for a World. */
module StoreState {
  import opened QueueClock
  import opened Sequences
  import opened Graph
  import opened Lifetime

  /** The fields of object_base. */
  datatype Record = Record(refCount: int, tes: int, stack: int, aqueue: int, pushTime: Moment, handle: Handle)

  datatype Store = Store(
    objects: map<Addr, Record>,
    links: Links,
    queue: seq<Addr>,            // _queue
    toRelease: seq<Addr>,        // _toRelease
    now: Moment)                 // _tickCounter

  const NEW_RECORD := Record(0, 0, 0, 0, 0, NULL_HANDLE)

  function TotalRefs(r: Record): int
  {
    r.refCount + r.tes + r.stack + r.aqueue
  }

  predicate NoOwners(r: Record)
  {
    r.refCount <= 0 && r.tes <= 0 && r.aqueue <= 0 && r.stack <= 0
  }

  predicate InAQueue(r: Record)
  {
    r.aqueue > 0
  }

  // ------------------------------------------------------------------ what the counters count

  /** The slots that hold x. */
  function Into(links: Links, x: Addr): set<nat>
  {
    set i | i in links && links[i].target == x
  }

  function Occurrences(q: seq<Addr>, x: Addr): nat
  {
    if x in q then 1 else 0
  }

  ghost predicate Counted(s: Store, x: Addr)
    requires x in s.objects
  {
    var r := s.objects[x];
    && r.refCount == |Into(s.links, x)|
    && r.aqueue == Occurrences(s.queue, x) + Occurrences(s.toRelease, x)
    && r.tes >= 0 && r.stack >= 0
  }

  /** Every counter equals what it counts, no counter is negative, no object is queued twice. */
  ghost predicate Consistent(s: Store)
  {
    && (forall x | x in s.objects :: Counted(s, x))
    && (forall x | x in s.queue :: x in s.objects && x !in s.toRelease)
    && (forall x | x in s.toRelease :: x in s.objects)
    && Distinct(s.queue) && Distinct(s.toRelease)
  }

  function CellOf(r: Record): Cell
    requires r.tes >= 0 && r.stack >= 0
  {
    Cell(r.tes, r.stack, r.handle)
  }

  function QueueAges(s: Store): map<Addr, nat>
  {
    map x | x in s.queue && x in s.objects :: Age(s.now, s.objects[x].pushTime)
  }

  /** The World a state stands for. */
  function Abs(s: Store): World
  {
    World(Cells(s), s.links, QueueAges(s), set x | x in s.toRelease)
  }

  function Cells(s: Store): map<Addr, Cell>
  {
    map x | x in s.objects && s.objects[x].tes >= 0 && s.objects[x].stack >= 0 :: CellOf(s.objects[x])
  }

  /** The states differ in counts of slots and queue entries only. */
  ghost predicate SameVisible(s: Store, t: Store)
  {
    && s.objects.Keys == t.objects.Keys && s.now == t.now
    && forall y | y in s.objects :: CellPart(s.objects[y]) == CellPart(t.objects[y])
  }

  function CellPart(r: Record): Record
  {
    r.(refCount := 0, aqueue := 0)
  }

  lemma SameCells(s: Store, t: Store)
    requires SameVisible(s, t)
    ensures Cells(t) == Cells(s) && Handles(t) == Handles(s)
    ensures t.queue == s.queue ==> QueueAges(t) == QueueAges(s)
  {
  }

  function Handles(s: Store): map<Addr, Handle>
  {
    map x | x in s.objects :: s.objects[x].handle
  }

  lemma IntoInserted(links: Links, i: nat, a: Addr, b: Addr, x: Addr)
    requires i !in links
    ensures |Into(links[i := Link(a, b)], x)| == |Into(links, x)| + (if x == b then 1 else 0)
  {
    assert Into(links[i := Link(a, b)], x) == if x == b then Into(links, x) + {i} else Into(links, x);
  }

  lemma IntoRemoved(links: Links, i: nat, x: Addr)
    requires i in links
    ensures |Into(links - {i}, x)| == |Into(links, x)| - (if x == links[i].target then 1 else 0)
  {
    assert Into(links - {i}, x) == if x == links[i].target then Into(links, x) - {i} else Into(links, x);
  }

  lemma IntoLinked(links: Links, x: Addr)
    ensures |Into(links, x)| == 0 <==> !Linked(links, x)
  {
    if Linked(links, x) {
      var i :| i in links && links[i].target == x;
      assert i in Into(links, x);
    }
    if Into(links, x) != {} {
      var i :| i in Into(links, x);
    }
  }

  /** The counters are zero exactly when nothing owns the object. */
  lemma OwnersSeen(s: Store, x: Addr)
    requires Consistent(s) && x in s.objects
    ensures NoOwners(s.objects[x]) <==> !Owned(Abs(s), x)
    ensures s.objects[x].refCount == 0 <==> !Linked(s.links, x)
    ensures InAQueue(s.objects[x]) <==> x in s.queue || x in s.toRelease
    ensures x in Abs(s).objs && Abs(s).objs[x] == CellOf(s.objects[x])
    ensures x in Abs(s).queue <==> x in s.queue
    ensures x in Abs(s).releasing <==> x in s.toRelease
  {
    IntoLinked(s.links, x);
    assert Counted(s, x);
    hide Into, Linked, Distinct;
  }

  // ------------------------------------------------------------------ changes of one record

  function WithRecord(s: Store, x: Addr, r: Record): Store
  {
    s.(objects := s.objects[x := r])
  }

  lemma RecordAbs(s: Store, x: Addr, r: Record)
    requires Consistent(s) && x in s.objects && r.tes >= 0 && r.stack >= 0
    ensures var t, w := Abs(WithRecord(s, x, r)), Abs(s);
            && t.objs == w.objs[x := CellOf(r)] && t.links == w.links && t.releasing == w.releasing
            && t.queue == if x in s.queue then w.queue[x := Age(s.now, r.pushTime)] else w.queue
    ensures Handles(WithRecord(s, x, r)) == Handles(s)[x := r.handle]
  {
    var t := WithRecord(s, x, r);
    hide Consistent, QueueAges, Handles, Age;
    assert Cells(t) == Cells(s)[x := CellOf(r)];
    RecordAges(s, x, r);
    RecordHandles(s, x, r);
    hide Cells;
  }

  lemma RecordAges(s: Store, x: Addr, r: Record)
    requires x in s.objects
    ensures QueueAges(WithRecord(s, x, r)) == if x in s.queue then QueueAges(s)[x := Age(s.now, r.pushTime)]
            else QueueAges(s)
  {
    hide Age;
  }

  lemma RecordHandles(s: Store, x: Addr, r: Record)
    ensures Handles(WithRecord(s, x, r)) == Handles(s)[x := r.handle]
  {
  }

  lemma AllNonNegative(s: Store)
    requires Consistent(s)
    ensures forall y | y in s.objects :: s.objects[y].tes >= 0 && s.objects[y].stack >= 0
    ensures Abs(s).objs.Keys == s.objects.Keys
  {
    assert forall y | y in s.objects :: Counted(s, y);
  }

  lemma RecordConsistent(s: Store, x: Addr, r: Record)
    requires Consistent(s) && x in s.objects && r.tes >= 0 && r.stack >= 0
    requires r.refCount == s.objects[x].refCount && r.aqueue == s.objects[x].aqueue
    ensures Consistent(WithRecord(s, x, r))
  {
    var t := WithRecord(s, x, r);
    hide Into, Distinct;
    forall y | y in t.objects ensures Counted(t, y) {
      assert Counted(s, y);
    }
  }

  /** x pushed into the queue. */
  function Pushed(s: Store, x: Addr, pushTime: Moment): Store
    requires x in s.objects
  {
    var r := s.objects[x];
    s.(objects := s.objects[x := r.(aqueue := r.aqueue + 1, pushTime := pushTime)], queue := s.queue + [x])
  }

  lemma PushedFacts(s: Store, x: Addr, pushTime: Moment)
    requires Consistent(s) && x in s.objects && !InAQueue(s.objects[x])
    ensures Consistent(Pushed(s, x, pushTime)) && Handles(Pushed(s, x, pushTime)) == Handles(s)
    ensures Abs(Pushed(s, x, pushTime)) == Abs(s).(queue := Abs(s).queue[x := Age(s.now, pushTime)])
  {
    PushedConsistent(s, x, pushTime);
    hide Consistent, InAQueue;
    var t := Pushed(s, x, pushTime);
    assert Cells(t) == Cells(s) && Handles(t) == Handles(s);
    hide Cells;
    assert forall y :: y in t.queue <==> y in s.queue || y == x;
    assert QueueAges(t) == QueueAges(s)[x := Age(s.now, pushTime)];
  }

  lemma PushedConsistent(s: Store, x: Addr, pushTime: Moment)
    requires Consistent(s) && x in s.objects && !InAQueue(s.objects[x])
    ensures Consistent(Pushed(s, x, pushTime))
  {
    var t := Pushed(s, x, pushTime);
    assert Counted(s, x);
    assert forall y :: y in t.queue <==> y in s.queue || y == x;
    hide Into;
    assert Distinct(t.queue);
    hide Distinct;
    forall y | y in t.objects ensures Counted(t, y) {
      assert Counted(s, y);
    }
  }

  // ------------------------------------------------------------------ changes of the slots

  function Linking(s: Store, i: nat, a: Addr, b: Addr): Store
    requires b in s.objects
  {
    s.(links := s.links[i := Link(a, b)],
      objects := s.objects[b := s.objects[b].(refCount := s.objects[b].refCount + 1)])
  }

  lemma LinkingFacts(s: Store, i: nat, a: Addr, b: Addr)
    requires Consistent(s) && i !in s.links && b in s.objects
    ensures Consistent(Linking(s, i, a, b)) && Handles(Linking(s, i, a, b)) == Handles(s)
    ensures Abs(Linking(s, i, a, b)) == Insert(Abs(s), i, a, b)
  {
    LinkingConsistent(s, i, a, b);
    hide Consistent, Cells, QueueAges, Handles;
    SameCells(s, Linking(s, i, a, b));
  }

  lemma LinkingConsistent(s: Store, i: nat, a: Addr, b: Addr)
    requires Consistent(s) && i !in s.links && b in s.objects
    ensures Consistent(Linking(s, i, a, b))
  {
    var t := Linking(s, i, a, b);
    hide Into, Distinct;
    forall y | y in t.objects ensures Counted(t, y) {
      assert Counted(s, y);
      IntoInserted(s.links, i, a, b, y);
    }
    hide Counted;
  }

  function Unlinking(s: Store, i: nat): Store
    requires i in s.links && s.links[i].target in s.objects
  {
    var b := s.links[i].target;
    s.(links := s.links - {i}, objects := s.objects[b := s.objects[b].(refCount := s.objects[b].refCount - 1)])
  }

  lemma UnlinkingFacts(s: Store, i: nat)
    requires Consistent(s) && i in s.links && s.links[i].target in s.objects
    ensures s.objects[s.links[i].target].refCount > 0
    ensures Consistent(Unlinking(s, i)) && Handles(Unlinking(s, i)) == Handles(s)
    ensures Abs(Unlinking(s, i)) == Abs(s).(links := s.links - {i})
  {
    UnlinkingConsistent(s, i);
    hide Consistent, Cells, QueueAges, Handles;
    SameCells(s, Unlinking(s, i));
  }

  lemma UnlinkingConsistent(s: Store, i: nat)
    requires Consistent(s) && i in s.links && s.links[i].target in s.objects
    ensures Consistent(Unlinking(s, i)) && s.objects[s.links[i].target].refCount > 0
  {
    var t, b := Unlinking(s, i), s.links[i].target;
    assert Counted(s, b) && i in Into(s.links, b);
    hide Into, Distinct;
    forall y | y in t.objects ensures Counted(t, y) {
      assert Counted(s, y);
      IntoRemoved(s.links, i, y);
    }
    hide Counted;
  }

  // ------------------------------------------------------------------ objects made and removed

  lemma MadeFacts(s: Store, x: Addr)
    requires Consistent(s) && x !in s.objects && !Linked(s.links, x)
    ensures Consistent(WithRecord(s, x, NEW_RECORD)) &&
            Handles(WithRecord(s, x, NEW_RECORD)) == Handles(s)[x := NULL_HANDLE]
    ensures Abs(WithRecord(s, x, NEW_RECORD)) == Abs(s).(objs := Abs(s).objs[x := Cell(0, 0, NULL_HANDLE)])
  {
    var t := WithRecord(s, x, NEW_RECORD);
    MadeConsistent(s, x);
    assert x !in s.queue;
    hide Consistent, Linked, Age, Handles, QueueAges;
    assert Cells(t) == Cells(s)[x := Cell(0, 0, NULL_HANDLE)];
    hide Cells;
    RecordHandles(s, x, NEW_RECORD);
    MadeAges(s, x);
  }

  lemma MadeAges(s: Store, x: Addr)
    requires x !in s.queue
    ensures QueueAges(WithRecord(s, x, NEW_RECORD)) == QueueAges(s)
  {
    hide Age;
  }

  lemma MadeConsistent(s: Store, x: Addr)
    requires Consistent(s) && x !in s.objects && !Linked(s.links, x)
    ensures Consistent(WithRecord(s, x, NEW_RECORD))
  {
    IntoLinked(s.links, x);
    hide Into, Distinct, Linked;
    var t := WithRecord(s, x, NEW_RECORD);
    forall y | y in t.objects ensures Counted(t, y) {
      assert y != x ==> Counted(s, y);
    }
    hide Counted;
  }

  function Without(s: Store, x: Addr): Store
  {
    s.(objects := s.objects - {x})
  }

  lemma WithoutFacts(s: Store, x: Addr)
    requires Consistent(s) && x in s.objects && x !in s.queue && x !in s.toRelease
    ensures Consistent(Without(s, x)) && Handles(Without(s, x)) == Handles(s) - {x}
    ensures Abs(Without(s, x)) == Removed(Abs(s), x)
  {
    var t := Without(s, x);
    WithoutConsistent(s, x);
    hide Consistent, QueueAges, Cells, Handles, Age;
    WithoutMaps(s, x);
    WithoutAges(s, x);
    assert Abs(t).releasing == Abs(s).releasing - {x};
  }

  lemma WithoutMaps(s: Store, x: Addr)
    ensures Cells(Without(s, x)) == Cells(s) - {x} && Handles(Without(s, x)) == Handles(s) - {x}
  {
  }

  lemma WithoutAges(s: Store, x: Addr)
    requires x !in s.queue
    ensures QueueAges(Without(s, x)) == QueueAges(s) - {x}
  {
    hide Age;
  }

  lemma WithoutConsistent(s: Store, x: Addr)
    requires Consistent(s) && x in s.objects && x !in s.queue && x !in s.toRelease
    ensures Consistent(Without(s, x))
  {
    hide Into, Distinct;
    var t := Without(s, x);
    forall y | y in t.objects ensures Counted(t, y) {
      assert Counted(s, y);
    }
    hide Counted;
  }
}
