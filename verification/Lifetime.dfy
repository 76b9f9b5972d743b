/** The lifetime of objects without counters: who owns an object is read off the slots, the user and
    stack references and the queue. Every call is one atomic step. */
module Lifetime {
  import opened QueueClock
  import opened Graph
  import opened Sequences

  type Handle = nat

  const NULL_HANDLE: Handle := 0

  /** User references, stack references, and the handle, once there is one. */
  datatype Cell = Cell(tes: nat, stack: nat, handle: Handle)

  /** A slot of owner that holds target. */
  datatype Link = Link(owner: Addr, target: Addr)

  type Links = map<nat, Link>

  datatype World = World(
    objs: map<Addr, Cell>,       // the objects not yet deleted
    links: Links,                // the slots that hold objects
    queue: map<Addr, nat>,       // queued objects with their age in ticks
    releasing: set<Addr>)        // taken from the queue by the tick under way

  const EMPTY := World(map[], map[], map[], {})

  ghost predicate Linked(links: Links, x: Addr)
  {
    exists i :: i in links && links[i].target == x
  }

  /** An owner other than a slot. */
  ghost predicate Held(w: World, x: Addr)
  {
    x in w.objs && (w.objs[x].tes > 0 || w.objs[x].stack > 0 || x in w.queue || x in w.releasing)
  }

  ghost predicate Owned(w: World, x: Addr)
  {
    Linked(w.links, x) || Held(w, x)
  }

  predicate IsPublic(w: World, x: Addr)
  {
    x in w.objs && w.objs[x].handle != NULL_HANDLE
  }

  // ------------------------------------------------------------------ what every step keeps

  ghost predicate LinksLive(w: World)
  {
    forall i | i in w.links :: w.links[i].owner in w.objs && w.links[i].target in w.objs
  }

  ghost predicate QueueLive(w: World)
  {
    && w.queue.Keys <= w.objs.Keys && w.releasing <= w.objs.Keys && w.queue.Keys !! w.releasing
    && forall x | x in w.queue :: w.queue[x] <= LIFE_IN_TICKS
  }

  ghost predicate HandlesDistinct(w: World)
  {
    forall x, y | IsPublic(w, x) && IsPublic(w, y) && w.objs[x].handle == w.objs[y].handle :: x == y
  }

  /** No slot and no queue entry refers to a deleted object, ages are in range, handles are unique. */
  ghost predicate Safe(w: World)
  {
    LinksLive(w) && QueueLive(w) && HandlesDistinct(w)
  }

  ghost predicate PublicOwned(w: World)
  {
    forall x | IsPublic(w, x) :: Owned(w, x)
  }

  // ------------------------------------------------------------------ the queue

  /** The age an object enters the queue with: private objects leave on the next tick. */
  function EntryAge(isPublic: bool): nat
  {
    if isPublic then 0 else LIFE_IN_TICKS
  }

  /** autorelease_queue::prolong_lifetime */
  function Enqueue(w: World, x: Addr, isPublic: bool): World
  {
    if x in w.releasing then w else w.(queue := w.queue[x := EntryAge(isPublic)])
  }

  /** object_base::prolong_lifetime */
  function Prolong(w: World, x: Addr): World
  {
    Enqueue(w, x, IsPublic(w, x))
  }

  /** autorelease_queue::not_prolong_lifetime */
  function Zero(w: World, x: Addr): World
  {
    if x in w.queue then w.(queue := w.queue[x := LIFE_IN_TICKS]) else w
  }

  // ------------------------------------------------------------------ references

  function TesRetain(w: World, x: Addr): World
    requires x in w.objs
  {
    Zero(w.(objs := w.objs[x := w.objs[x].(tes := w.objs[x].tes + 1)]), x)
  }

  ghost function TesRelease(w: World, x: Addr): World
    requires x in w.objs
  {
    if w.objs[x].tes == 0 then w
    else
      var t := w.(objs := w.objs[x := w.objs[x].(tes := w.objs[x].tes - 1)]);
      if Owned(t, x) then t else Enqueue(t, x, true)
  }

  function StackRetain(w: World, x: Addr): World
    requires x in w.objs
  {
    w.(objs := w.objs[x := w.objs[x].(stack := w.objs[x].stack + 1)])
  }

  ghost function StackRelease(w: World, x: Addr): World
    requires x in w.objs
  {
    if w.objs[x].stack == 0 then w
    else
      var t := w.(objs := w.objs[x := w.objs[x].(stack := w.objs[x].stack - 1)]);
      if Owned(t, x) then t else Prolong(t, x)
  }

  /** uid(): an object without owners among the slots is queued when it gets its handle. */
  ghost function Publish(w: World, x: Addr, h: Handle): World
    requires x in w.objs
  {
    if IsPublic(w, x) then w
    else
      var t := w.(objs := w.objs[x := w.objs[x].(handle := h)]);
      if Linked(w.links, x) then t else Enqueue(t, x, true)
  }

  // ------------------------------------------------------------------ slots

  function Insert(w: World, i: nat, owner: Addr, target: Addr): World
  {
    w.(links := w.links[i := Link(owner, target)])
  }

  function Targets(links: Links, ids: set<nat>): set<Addr>
  {
    set i | i in ids && i in links :: links[i].target
  }

  /** The objects that lose their last owner when the given slots are emptied. */
  ghost function Orphans(w: World, ids: set<nat>): set<Addr>
  {
    set x | x in Targets(w.links, ids) && x in w.objs && !Linked(w.links - ids, x) && !Held(w, x)
  }

  /** Slots emptied, in any order; whoever is left without an owner goes into the queue. */
  ghost function Release(w: World, ids: set<nat>): World
  {
    w.(links := w.links - ids,
       queue := w.queue + Entries(w, Orphans(w, ids)))
  }

  /** The queue entries that objects get when they lose their last owner. */
  function Entries(w: World, xs: set<Addr>): map<Addr, nat>
  {
    map x | x in xs :: EntryAge(IsPublic(w, x))
  }

  function LinksOf(w: World, x: Addr): set<nat>
  {
    set i | i in w.links && w.links[i].owner == x
  }

  /** w with x taken out of the registry, before its slots are emptied. */
  function Removed(w: World, x: Addr): World
  {
    w.(objs := w.objs - {x}, queue := w.queue - {x}, releasing := w.releasing - {x})
  }

  /** _delete_self and the destructor. */
  ghost function Delete(w: World, x: Addr): World
  {
    Release(Removed(w, x), LinksOf(w, x))
  }

  // ------------------------------------------------------------------ the tick

  /** The locked phase: expired objects are taken out of the queue, the others grow older. */
  function Expire(w: World): World
  {
    w.(queue := map x | x in w.queue && !Expires(w.queue[x]) :: w.queue[x] + 1,
       releasing := set x | x in w.queue && Expires(w.queue[x]))
  }

  /** _aqueue_release: the object is deleted when the queue is its only owner. */
  ghost function Drop(w: World, x: Addr): World
    requires x in w.objs
  {
    if w.objs[x].tes == 0 && w.objs[x].stack == 0 && !Linked(w.links, x) then Delete(w, x)
    else w.(releasing := w.releasing - {x})
  }

  ghost predicate Lists(order: seq<Addr>, s: set<Addr>)
  {
    && (forall i | 0 <= i < |order| :: order[i] in s)
    && (forall x | x in s :: x in order)
    && (forall i, j | 0 <= i < j < |order| :: order[i] != order[j])
  }

  /** The expired objects are dropped one by one. */
  ghost function Drops(w: World, order: seq<Addr>): World
  {
    if order == [] then w
    else
      var t := Drops(w, order[..|order| - 1]);
      var x := order[|order| - 1];
      if x in t.objs then Drop(t, x) else t
  }

  ghost function Tick(w: World, order: seq<Addr>): World
  {
    Drops(Expire(w), order)
  }

  // ------------------------------------------------------------------ garbage collection

  ghost function EdgesOf(w: World): Edges
  {
    map a | a in w.objs :: Targets(w.links, LinksOf(w, a))
  }

  /** Stack references do not make a root. */
  function Roots(w: World): set<Addr>
  {
    set x | x in w.objs && (w.objs[x].tes > 0 || x in w.queue || x in w.releasing)
  }

  ghost predicate IsGarbage(w: World, garbage: set<Addr>)
  {
    garbage <= w.objs.Keys && ReachSet(EdgesOf(w), Roots(w), w.objs.Keys - garbage)
  }

  ghost function Visit(w: World, x: Addr): World
  {
    if Owned(w, x) then Release(w, LinksOf(w, x)) else Delete(w, x)
  }

  ghost function Sweep(w: World, order: seq<Addr>): World
  {
    if order == [] then w else Visit(Sweep(w, order[..|order| - 1]), order[|order| - 1])
  }

  // ------------------------------------------------------------------ runs

  datatype Action =
    | DoMake(x: Addr)
    | DoTesRetain(x: Addr)
    | DoTesRelease(x: Addr)
    | DoStackRetain(x: Addr)
    | DoStackRelease(x: Addr)
    | DoProlong(x: Addr)
    | DoZero(x: Addr)
    | DoUid(x: Addr, handle: Handle)
    | DoInsert(id: nat, owner: Addr, target: Addr)
    | DoReplace(replaced: nat, id: nat, owner: Addr, target: Addr)
    | DoErase(ids: set<nat>)
    | DoTick(order: seq<Addr>)
    | DoCollect(order: seq<Addr>, garbage: set<Addr>)

  /** What a caller must provide: live objects, a fresh address, slot or handle, and for the steps that
      handle many objects the order in which they happen to do so. */
  ghost predicate Enabled(w: World, act: Action)
  {
    match act
    case DoMake(x) => x !in w.objs
    case DoUid(x, h) => x in w.objs &&
      (IsPublic(w, x) || (h != NULL_HANDLE && forall y | IsPublic(w, y) :: w.objs[y].handle != h))
    case DoInsert(i, a, b) => i !in w.links && a in w.objs && b in w.objs
    case DoReplace(i, j, a, b) => i in w.links && j !in w.links && a in w.objs && b in w.objs && w.links[i].owner == a
    case DoErase(_) => true
    case DoTick(order) => Lists(order, Expire(w).releasing)
    case DoCollect(order, garbage) => IsGarbage(w, garbage) && Lists(order, garbage)
    case _ => act.x in w.objs
  }

  ghost function Apply(w: World, act: Action): World
    requires Enabled(w, act)
  {
    match act
    case DoMake(x) => w.(objs := w.objs[x := Cell(0, 0, NULL_HANDLE)])
    case DoTesRetain(x) => TesRetain(w, x)
    case DoTesRelease(x) => TesRelease(w, x)
    case DoStackRetain(x) => StackRetain(w, x)
    case DoStackRelease(x) => StackRelease(w, x)
    case DoProlong(x) => Prolong(w, x)
    case DoZero(x) => Zero(w, x)
    case DoUid(x, h) => Publish(w, x, h)
    case DoInsert(i, a, b) => Insert(w, i, a, b)
    case DoReplace(i, j, a, b) => Release(Insert(w, j, a, b), {i})
    case DoErase(ids) => Release(w, ids)
    case DoTick(order) => Tick(w, order)
    case DoCollect(order, _) => Sweep(w, order)
  }

  ghost predicate IsRun(acts: seq<Action>, worlds: seq<World>)
  {
    && |worlds| == |acts| + 1 && worlds[0] == EMPTY
    && forall k | 0 <= k < |acts| :: Enabled(worlds[k], acts[k]) && worlds[k + 1] == Apply(worlds[k], acts[k])
  }

  // ------------------------------------------------------------------ each step keeps the invariant

  /** What is true between two steps. */
  ghost predicate Settled(w: World)
  {
    Safe(w) && PublicOwned(w) && w.releasing == {}
  }

  lemma StillLinked(links: Links, ids: set<nat>, x: Addr)
    ensures Linked(links, x) <==> Linked(links - ids, x) || x in Targets(links, ids)
  {
    if Linked(links, x) {
      var i :| i in links && links[i].target == x;
      assert i !in ids ==> i in links - ids && (links - ids)[i] == links[i];
    }
    if Linked(links - ids, x) {
      var i :| i in links - ids && (links - ids)[i].target == x;
      assert i in links && links[i].target == x;
    }
  }

  lemma ReleaseQueue(w: World, ids: set<nat>)
    requires QueueLive(w) && HandlesDistinct(w)
    ensures QueueLive(Release(w, ids)) && HandlesDistinct(Release(w, ids))
    ensures Release(w, ids).objs == w.objs && Release(w, ids).releasing == w.releasing
  {
    hide Linked;
    assert Release(w, ids).queue.Keys == w.queue.Keys + Orphans(w, ids);
  }

  lemma ReleaseOwned(w: World, ids: set<nat>, x: Addr)
    requires x in w.objs && Owned(w, x)
    ensures Owned(Release(w, ids), x)
  {
    StillLinked(w.links, ids, x);
    hide Linked;
    assert Release(w, ids).queue.Keys == w.queue.Keys + Orphans(w, ids);
  }

  lemma ReleaseFacts(w: World, ids: set<nat>)
    requires Safe(w)
    ensures Safe(Release(w, ids)) && Release(w, ids).objs == w.objs && Release(w, ids).releasing == w.releasing
    ensures forall x | x in w.objs && Owned(w, x) :: Owned(Release(w, ids), x)
  {
    ReleaseQueue(w, ids);
    forall x | x in w.objs && Owned(w, x) ensures Owned(Release(w, ids), x) {
      ReleaseOwned(w, ids, x);
    }
  }

  lemma RemovedQueue(w: World, x: Addr)
    requires QueueLive(w) && HandlesDistinct(w)
    ensures QueueLive(Removed(w, x)) && HandlesDistinct(Removed(w, x))
  {
  }

  lemma DeleteLinks(w: World, x: Addr)
    requires LinksLive(w) && !Linked(w.links, x)
    ensures LinksLive(Delete(w, x))
  {
    var rest := w.links - LinksOf(w, x);
    forall i | i in rest ensures rest[i].owner in w.objs - {x} && rest[i].target in w.objs - {x} {
      assert i in w.links && rest[i] == w.links[i];
    }
  }

  lemma DeleteFacts(w: World, x: Addr)
    requires Safe(w) && !Linked(w.links, x)
    ensures Safe(Delete(w, x)) && Delete(w, x).objs == w.objs - {x} && Delete(w, x).releasing == w.releasing - {x}
    ensures forall y | y in w.objs && y != x && Owned(w, y) :: Owned(Delete(w, x), y)
  {
    var u, ids := Removed(w, x), LinksOf(w, x);
    DeleteLinks(w, x);
    forall y | y in w.objs && y != x && Owned(w, y) ensures Owned(Release(u, ids), y) {
      ReleaseOwned(u, ids, y);
    }
    hide Linked, QueueLive, HandlesDistinct, LinksLive;
    RemovedQueue(w, x);
    ReleaseQueue(u, ids);
  }

  lemma DropFacts(w: World, x: Addr)
    requires Safe(w) && x in w.releasing
    ensures Safe(Drop(w, x)) && Drop(w, x).objs.Keys <= w.objs.Keys && Drop(w, x).releasing == w.releasing - {x}
    ensures forall y | y in Drop(w, x).objs :: Drop(w, x).objs[y] == w.objs[y] && (Owned(w, y) ==> Owned(Drop(w, x), y))
  {
    if w.objs[x].tes == 0 && w.objs[x].stack == 0 && !Linked(w.links, x) {
      DeleteFacts(w, x);
    }
  }

  lemma {:induction false} DropsFacts(w: World, order: seq<Addr>)
    requires Safe(w) && (forall i | 0 <= i < |order| :: order[i] in w.releasing)
    requires forall i, j | 0 <= i < j < |order| :: order[i] != order[j]
    ensures Safe(Drops(w, order)) && Drops(w, order).objs.Keys <= w.objs.Keys
    ensures Drops(w, order).releasing == w.releasing - Elements(order)
    ensures forall y | y in Drops(w, order).objs ::
              Drops(w, order).objs[y] == w.objs[y] && (Owned(w, y) ==> Owned(Drops(w, order), y))
  {
    if order != [] {
      var front, x := order[..|order| - 1], order[|order| - 1];
      DropsFacts(w, front);
      var t := Drops(w, front);
      assert Elements(order) == Elements(front) + {x} by {
        assert forall i | 0 <= i < |front| :: order[i] == front[i];
      }
      hide Safe, Owned;
      assert x in t.releasing;
      InReleasing(t, x);
      DropFacts(t, x);
    }
  }

  lemma InReleasing(w: World, x: Addr)
    requires Safe(w) && x in w.releasing
    ensures x in w.objs
  {
  }

  lemma ExpireFacts(w: World)
    requires Safe(w) && w.releasing == {}
    ensures Safe(Expire(w)) && Expire(w).objs == w.objs && Expire(w).links == w.links
    ensures forall y | y in w.objs && Owned(w, y) :: Owned(Expire(w), y)
  {
  }

  lemma TickFacts(w: World, order: seq<Addr>)
    requires Settled(w) && Lists(order, Expire(w).releasing)
    ensures Settled(Tick(w, order)) && Tick(w, order).objs.Keys <= w.objs.Keys
    ensures forall y | y in Tick(w, order).objs ::
              Tick(w, order).objs[y] == w.objs[y] && (Owned(w, y) ==> Owned(Tick(w, order), y))
  {
    ExpireFacts(w);
    hide Safe, Owned;
    DropsFacts(Expire(w), order);
    assert Elements(order) == Expire(w).releasing;
  }

  lemma {:induction false} SweepFacts(w: World, order: seq<Addr>)
    requires Safe(w) && (forall i | 0 <= i < |order| :: order[i] in w.objs)
    requires forall i, j | 0 <= i < j < |order| :: order[i] != order[j]
    ensures Safe(Sweep(w, order)) && Sweep(w, order).releasing == w.releasing
    ensures w.objs.Keys - Elements(order) <= Sweep(w, order).objs.Keys <= w.objs.Keys
    ensures forall y | y in Sweep(w, order).objs ::
              Sweep(w, order).objs[y] == w.objs[y] && (Owned(w, y) ==> Owned(Sweep(w, order), y))
  {
    if order != [] {
      var front, x := order[..|order| - 1], order[|order| - 1];
      SweepFacts(w, front);
      var t := Sweep(w, front);
      assert Elements(order) == Elements(front) + {x} by {
        assert forall i | 0 <= i < |front| :: order[i] == front[i];
      }
      VisitFacts(t, x);
      hide Safe, Owned, Visit;
    }
  }

  lemma VisitFacts(w: World, x: Addr)
    requires Safe(w) && x in w.objs
    ensures Safe(Visit(w, x)) && Visit(w, x).releasing == w.releasing
    ensures Visit(w, x).objs == (if Owned(w, x) then w.objs else w.objs - {x})
    ensures forall y | y in Visit(w, x).objs && Owned(w, y) :: Owned(Visit(w, x), y)
  {
    if Owned(w, x) {
      ReleaseFacts(w, LinksOf(w, x));
    } else {
      assert x !in w.releasing;
      DeleteFacts(w, x);
    }
  }

  lemma InsertFacts(w: World, i: nat, a: Addr, b: Addr)
    requires Safe(w) && i !in w.links && a in w.objs && b in w.objs
    ensures Safe(Insert(w, i, a, b)) && Insert(w, i, a, b).releasing == w.releasing
    ensures forall x | x in w.objs && Owned(w, x) :: Owned(Insert(w, i, a, b), x)
  {
    var t := Insert(w, i, a, b);
    forall x | Linked(w.links, x) ensures Linked(t.links, x) {
      var j :| j in w.links && w.links[j].target == x;
      assert j in t.links && t.links[j].target == x;
    }
  }

  /** Steps that touch only the references, the handle or the queue entry of one object. */
  ghost predicate OneCell(w: World, t: World, x: Addr)
  {
    && x in w.objs && t.links == w.links && t.releasing == w.releasing && t.objs.Keys == w.objs.Keys
    && (forall y | y in w.objs && y != x :: t.objs[y] == w.objs[y])
    && (forall y | y != x :: y in t.queue <==> y in w.queue)
    && (forall y | y in w.queue && y != x :: t.queue[y] == w.queue[y])
    && (x in w.queue ==> x in t.queue) && (x in t.queue ==> t.queue[x] <= LIFE_IN_TICKS && x !in w.releasing)
  }

  lemma OneCellKeeps(w: World, t: World, x: Addr)
    requires Settled(w) && OneCell(w, t, x)
    requires Owned(w, x) || IsPublic(t, x) ==> Owned(t, x)
    requires t.objs[x].handle == w.objs[x].handle
          || (forall y | IsPublic(w, y) :: y != x && w.objs[y].handle != t.objs[x].handle)
    ensures Settled(t) && forall y | y in t.objs && Owned(w, y) :: Owned(t, y)
  {
    hide Linked;
    assert forall y | y in w.objs && y != x :: IsPublic(t, y) == IsPublic(w, y) && (Owned(w, y) ==> Owned(t, y));
  }

  predicate IsCellStep(act: Action)
  {
    act.DoTesRetain? || act.DoTesRelease? || act.DoStackRetain? || act.DoStackRelease? || act.DoProlong? ||
      act.DoZero? || act.DoUid?
  }

  lemma CellStepShape(w: World, act: Action)
    requires Enabled(w, act) && IsCellStep(act) && w.releasing == {} && QueueLive(w)
    ensures act.x in w.objs && OneCell(w, Apply(w, act), act.x)
  {
    hide Linked;
  }

  lemma CellStepOwned(w: World, act: Action)
    requires Enabled(w, act) && IsCellStep(act) && w.releasing == {}
    ensures Owned(w, act.x) || (!act.DoUid? && IsPublic(Apply(w, act), act.x) && PublicOwned(w)) ==>
              Owned(Apply(w, act), act.x)
    ensures act.DoUid? && !IsPublic(w, act.x) ==> Owned(Apply(w, act), act.x)
    ensures !act.DoUid? ==> Apply(w, act).objs[act.x].handle == w.objs[act.x].handle
    ensures act.DoUid? && IsPublic(w, act.x) ==> Apply(w, act) == w
    ensures act.DoUid? && !IsPublic(w, act.x) ==> Apply(w, act).objs[act.x].handle == act.handle
  {
    hide Linked;
  }

  lemma CellStepFacts(w: World, act: Action)
    requires Settled(w) && Enabled(w, act) && IsCellStep(act)
    ensures Settled(Apply(w, act))
    ensures forall x | x in w.objs && x in Apply(w, act).objs && Owned(w, x) :: Owned(Apply(w, act), x)
  {
    CellStepShape(w, act);
    CellStepOwned(w, act);
    hide Linked, OneCell, Safe, Owned, Apply;
    OneCellKeeps(w, Apply(w, act), act.x);
  }

  lemma MakeFacts(w: World, x: Addr)
    requires Settled(w) && x !in w.objs
    ensures Settled(w.(objs := w.objs[x := Cell(0, 0, NULL_HANDLE)]))
    ensures forall y | y in w.objs && Owned(w, y) :: Owned(w.(objs := w.objs[x := Cell(0, 0, NULL_HANDLE)]), y)
  {
    hide Linked;
    var t := w.(objs := w.objs[x := Cell(0, 0, NULL_HANDLE)]);
    assert forall y | y in w.objs :: IsPublic(t, y) == IsPublic(w, y) && (Owned(w, y) ==> Owned(t, y));
  }

  /** Settled follows from Safe, as cells and owners are as before. */
  lemma SettledAgain(w: World, t: World)
    requires Settled(w) && Safe(t) && t.releasing == {}
    requires forall y | y in t.objs :: y in w.objs && t.objs[y] == w.objs[y] && (Owned(w, y) ==> Owned(t, y))
    ensures Settled(t)
  {
    hide Owned;
  }

  /** One step: the invariant is kept, and an object that has an owner has one until it is deleted. */
  lemma StepFacts(w: World, act: Action)
    requires Settled(w) && Enabled(w, act)
    ensures Settled(Apply(w, act))
    ensures forall x | x in w.objs && x in Apply(w, act).objs && Owned(w, x) :: Owned(Apply(w, act), x)
  {
    hide Owned, Safe, PublicOwned, IsGarbage, Orphans, Lists;
    match act
    case DoMake(x) => MakeFacts(w, x);
    case DoTick(order) => TickFacts(w, order);
    case DoCollect(order, garbage) =>
      ListsFacts(order, garbage);
      GarbageIsThere(w, garbage);
      SweepFacts(w, order);
      SettledAgain(w, Apply(w, act));
    case DoErase(ids) =>
      ReleaseFacts(w, ids);
      SettledAgain(w, Apply(w, act));
    case DoReplace(i, j, a, b) =>
      InsertFacts(w, j, a, b);
      ReleaseFacts(Insert(w, j, a, b), {i});
      SettledAgain(w, Apply(w, act));
    case DoInsert(i, a, b) =>
      InsertFacts(w, i, a, b);
      SettledAgain(w, Apply(w, act));
    case _ => CellStepFacts(w, act);
  }

  lemma ListsFacts(order: seq<Addr>, s: set<Addr>)
    requires Lists(order, s)
    ensures forall i | 0 <= i < |order| :: order[i] in s
    ensures forall i, j | 0 <= i < j < |order| :: order[i] != order[j]
    ensures Elements(order) == s
  {
  }

  lemma GarbageIsThere(w: World, garbage: set<Addr>)
    requires IsGarbage(w, garbage)
    ensures garbage <= w.objs.Keys
  {
  }

  /** Whatever calls are made, in whatever order, from the empty context on: slots and the queue refer
      to live objects only, handles are unique, and every object with a handle has an owner. */
  lemma {:induction false} RunIsSafe(acts: seq<Action>, worlds: seq<World>, k: nat)
    requires IsRun(acts, worlds) && k < |worlds|
    ensures Safe(worlds[k]) && PublicOwned(worlds[k]) && worlds[k].releasing == {}
    ensures Settled(worlds[k]) && forall x | x in worlds[k].queue :: worlds[k].queue[x] <= 5
  {
    hide Safe, PublicOwned, Enabled;
    if k > 0 {
      RunIsSafe(acts, worlds, k - 1);
      StepFacts(worlds[k - 1], acts[k - 1]);
    } else {
      EmptyIsSettled();
    }
    AgesInRange(worlds[k]);
  }

  lemma AgesInRange(w: World)
    requires Safe(w)
    ensures forall x | x in w.queue :: w.queue[x] <= 5
  {
  }

  lemma EmptyIsSettled()
    ensures Settled(EMPTY)
  {
  }

  /** Once an object has had an owner it is never without one while it exists. */
  lemma {:induction false} NeverOrphaned(acts: seq<Action>, worlds: seq<World>, k: nat, m: nat, x: Addr)
    requires IsRun(acts, worlds) && k <= m < |worlds|
    requires Owned(worlds[k], x) && forall j | k <= j <= m :: x in worlds[j].objs
    ensures Owned(worlds[m], x)
  {
    hide Owned, Enabled, Settled;
    if k < m {
      NeverOrphaned(acts, worlds, k, m - 1, x);
      RunIsSafe(acts, worlds, m - 1);
      StepFacts(worlds[m - 1], acts[m - 1]);
    }
  }

  /** Only the tick and the collector delete objects, and the tick deletes none that a user or stack
      reference or a slot of a surviving object holds. */
  lemma WhoDeletes(w: World, act: Action, x: Addr)
    requires Settled(w) && Enabled(w, act) && x in w.objs && x !in Apply(w, act).objs
    ensures act.DoTick? || (act.DoCollect? && x in act.garbage)
    ensures act.DoTick? ==> w.objs[x].tes == 0 && w.objs[x].stack == 0 && x in w.queue && Expires(w.queue[x])
    ensures forall i | i in Apply(w, act).links :: Apply(w, act).links[i].target != x
  {
    StepFacts(w, act);
    SafeTargets(Apply(w, act), x);
    hide Safe, PublicOwned, Owned, IsGarbage, Orphans;
    match act
    case DoTick(order) =>
      ListsFacts(order, Expire(w).releasing);
      ExpireFacts(w);
      DropsDelete(Expire(w), order, x);
    case DoCollect(order, garbage) =>
      ListsFacts(order, garbage);
      GarbageIsThere(w, garbage);
      SweepFacts(w, order);
    case _ =>
  }

  lemma SafeTargets(w: World, x: Addr)
    requires Settled(w) && x !in w.objs
    ensures forall i | i in w.links :: w.links[i].target != x
  {
  }

  lemma {:induction false} DropsDelete(w: World, order: seq<Addr>, x: Addr)
    requires Safe(w) && (forall i | 0 <= i < |order| :: order[i] in w.releasing)
    requires forall i, j | 0 <= i < j < |order| :: order[i] != order[j]
    requires x in w.objs && x !in Drops(w, order).objs
    ensures w.objs[x].tes == 0 && w.objs[x].stack == 0 && x in order
  {
    hide Safe, Owned, Linked, Lists;
    var front := order[..|order| - 1];
    if x !in Drops(w, front).objs {
      DropsDelete(w, front, x);
    } else {
      DropsFacts(w, front);
    }
  }

  // ------------------------------------------------------------------ who is queued, and with what age

  /** Nothing but the given call's object changes in the queue, and it gets the given age. */
  ghost predicate Queues(w: World, t: World, x: Addr, age: nat)
  {
    t.queue == w.queue[x := age] && t.links == w.links
  }

  /** prolong_lifetime queues with age 0 what has a handle and as overdue what has none, also if it is queued. */
  lemma ProlongQueues(w: World, x: Addr)
    requires Settled(w) && x in w.objs
    ensures Queues(w, Apply(w, DoProlong(x)), x, if w.objs[x].handle != 0 then 0 else 5)
    ensures Apply(w, DoProlong(x)).objs == w.objs
  {
  }

  /** zero_lifetime makes a queued object overdue and does nothing to others. */
  lemma ZeroQueues(w: World, x: Addr)
    requires Settled(w) && x in w.objs
    ensures if x in w.queue then Queues(w, Apply(w, DoZero(x)), x, 5) else Apply(w, DoZero(x)) == w
    ensures Apply(w, DoZero(x)).objs == w.objs
  {
  }

  /** A user reference makes a queued object overdue. */
  lemma TesRetainQueues(w: World, x: Addr)
    requires Settled(w) && x in w.objs
    ensures var t := Apply(w, DoTesRetain(x));
            && t.objs == w.objs[x := w.objs[x].(tes := w.objs[x].tes + 1)]
            && (if x in w.queue then Queues(w, t, x, 5) else t.queue == w.queue && t.links == w.links)
  {
  }

  /** The last of all references, given back by the user, queues the object as public even if it has no handle. */
  lemma TesReleaseQueues(w: World, x: Addr)
    requires Settled(w) && x in w.objs
    ensures var t, c := Apply(w, DoTesRelease(x)), w.objs[x];
            if c.tes == 0 then t == w
            else
              && t.objs == w.objs[x := c.(tes := c.tes - 1)]
              && (if c.tes == 1 && c.stack == 0 && x !in w.queue && (forall i | i in w.links :: w.links[i].target != x)
                  then Queues(w, t, x, 0) else t.queue == w.queue && t.links == w.links)
  {
  }

  /** Given back by the stack, it is queued by whether it has a handle. */
  lemma StackReleaseQueues(w: World, x: Addr)
    requires Settled(w) && x in w.objs
    ensures var t, c := Apply(w, DoStackRelease(x)), w.objs[x];
            if c.stack == 0 then t == w
            else
              && t.objs == w.objs[x := c.(stack := c.stack - 1)]
              && (if c.stack == 1 && c.tes == 0 && x !in w.queue && (forall i | i in w.links :: w.links[i].target != x)
                  then Queues(w, t, x, if c.handle != 0 then 0 else 5) else t.queue == w.queue && t.links == w.links)
  {
  }

  /** The first uid() of an object that no slot holds queues it as public, whatever other owners it has. */
  lemma UidQueues(w: World, x: Addr, h: Handle)
    requires Settled(w) && Enabled(w, DoUid(x, h))
    ensures var t, c := Apply(w, DoUid(x, h)), w.objs[x];
            if c.handle != 0 then t == w
            else
              && h != 0 && t.objs == w.objs[x := c.(handle := h)]
              && (if forall i | i in w.links :: w.links[i].target != x
                  then Queues(w, t, x, 0) else t.queue == w.queue && t.links == w.links)
  {
  }

  /** Emptying slots queues exactly the objects that have no other owner left, by whether they have a handle. */
  lemma EraseQueues(w: World, ids: set<nat>, x: Addr)
    requires Settled(w)
    ensures var t := Apply(w, DoErase(ids));
            && t.objs == w.objs && t.links == w.links - ids
            && var lost := (exists i :: i in ids && i in w.links && w.links[i].target == x)
                 && (forall i | i in w.links && i !in ids :: w.links[i].target != x)
                 && w.objs[x].tes == 0 && w.objs[x].stack == 0 && x !in w.queue;
               if lost then x in t.queue && t.queue[x] == (if w.objs[x].handle != 0 then 0 else 5)
               else (x in t.queue <==> x in w.queue) && (x in w.queue ==> t.queue[x] == w.queue[x])
  {
    OrphanSeen(w, ids, x);
    hide Orphans;
  }

  lemma OrphanSeen(w: World, ids: set<nat>, x: Addr)
    requires Settled(w)
    ensures (exists i :: i in ids && i in w.links && w.links[i].target == x) ==> x in w.objs
    ensures x in Orphans(w, ids) <==>
              && (exists i :: i in ids && i in w.links && w.links[i].target == x)
              && (forall i | i in w.links && i !in ids :: w.links[i].target != x)
              && w.objs[x].tes == 0 && w.objs[x].stack == 0 && x !in w.queue
    ensures Orphans(w, ids) !! w.queue.Keys
  {
    assert Linked(w.links - ids, x) <==> exists i :: i in w.links && i !in ids && w.links[i].target == x by {
      if i :| i in w.links && i !in ids && w.links[i].target == x {
        assert i in w.links - ids && (w.links - ids)[i].target == x;
      }
    }
  }

  /** Assigning to a slot the object it holds already queues nothing and changes no other slot. */
  lemma ReplaceBySame(w: World, i: nat, j: nat, a: Addr, b: Addr)
    requires Settled(w) && Enabled(w, DoReplace(i, j, a, b)) && w.links[i].target == b
    ensures var t := Apply(w, DoReplace(i, j, a, b));
            t.queue == w.queue && t.objs == w.objs && t.links == w.links[j := Link(a, b)] - {i}
  {
    var u := Insert(w, j, a, b);
    assert j in u.links - {i} && (u.links - {i})[j].target == b;
    assert Orphans(u, {i}) == {};
  }

  /** The edges the collector follows are the slots. */
  lemma EdgesAreSlots(w: World, a: Addr, b: Addr)
    requires a in w.objs
    ensures a in EdgesOf(w) && (b in EdgesOf(w)[a] <==> exists i :: i in w.links && w.links[i] == Link(a, b))
  {
  }

  /** The roots are the objects with user references and those in the queue; the stack makes none. */
  lemma RootsAre(w: World, x: Addr)
    requires Settled(w)
    ensures x in Roots(w) <==> x in w.objs && (w.objs[x].tes > 0 || x in w.queue)
  {
  }
}
