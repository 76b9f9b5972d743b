/** What one garbage collection does to the objects of a context, whatever order it visits them in. */
module Collection {
  import opened Graph
  import opened Sequences
  import opened Lifetime
  import opened Reclamation

  /** Garbage is what no path from an object with user references or in the queue leads to. */
  lemma GarbageIsUnreachable(w: World, garbage: set<Addr>)
    requires IsGarbage(w, garbage)
    ensures garbage == set x | x in w.objs && !HasPath(EdgesOf(w), Roots(w), x)
  {
    hide EdgesOf, Roots, HasPath;
    ReachSetIsPaths(EdgesOf(w), Roots(w), w.objs.Keys - garbage);
  }

  /** The slots of all objects but the given ones. */
  function LinksOutside(links: Links, xs: set<Addr>): Links
  {
    map i | i in links && links[i].owner !in xs :: links[i]
  }

  lemma VisitLinks(w: World, x: Addr)
    ensures Visit(w, x).links == w.links - LinksOf(w, x)
  {
    hide Linked, Held, Orphans;
    assert LinksOf(w, x) == LinksOf(Removed(w, x), x);
  }

  /** Each visited object loses its slots, whether it is cleared or deleted; no other slot changes. */
  lemma {:induction false} SweepLinks(w: World, order: seq<Addr>)
    ensures Sweep(w, order).links == LinksOutside(w.links, Elements(order))
  {
    if order != [] {
      var front, x := order[..|order| - 1], order[|order| - 1];
      SweepLinks(w, front);
      VisitLinks(Sweep(w, front), x);
      assert Elements(order) == Elements(front) + {x} by {
        assert forall i | 0 <= i < |front| :: order[i] == front[i];
      }
      hide Visit, Elements;
    }
  }

  /** Each garbage object is visited while it is still there. */
  lemma VisitedAlive(w: World, order: seq<Addr>, k: nat)
    requires Safe(w) && (forall i | 0 <= i < |order| :: order[i] in w.objs) && k < |order|
    requires forall i, j | 0 <= i < j < |order| :: order[i] != order[j]
    ensures order[k] in Sweep(w, order[..k]).objs
  {
    SweepFacts(w, order[..k]);
  }

  /** A visited object that is still there has an owner. */
  lemma {:induction false} SurvivorOwned(w: World, order: seq<Addr>, x: Addr)
    requires Safe(w) && (forall i | 0 <= i < |order| :: order[i] in w.objs)
    requires forall i, j | 0 <= i < j < |order| :: order[i] != order[j]
    requires x in order && x in Sweep(w, order).objs
    ensures Owned(Sweep(w, order), x)
  {
    var front, last := order[..|order| - 1], order[|order| - 1];
    SweepFacts(w, front);
    VisitFacts(Sweep(w, front), last);
    if x != last {
      assert x in front;
      hide Owned, Visit, Safe;
      SurvivorOwned(w, front, x);
    }
  }

  /** The effect of a collection. */
  ghost predicate Collected(w: World, garbage: set<Addr>, t: World)
  {
    && t.links == LinksOutside(w.links, garbage)
    && w.objs.Keys - garbage <= t.objs.Keys <= w.objs.Keys
    && (forall x | x in t.objs :: t.objs[x] == w.objs[x])
    && StillQueued(w, t)
    && (forall x | x in garbage && x in t.objs :: Emptied(t, x))
  }

  /** Empty, in no slot, not retained by the user, and held by the queue or the stack. */
  ghost predicate Emptied(t: World, x: Addr)
  {
    && x in t.objs && LinksOf(t, x) == {} && !Linked(t.links, x) && t.objs[x].tes == 0
    && (x in t.queue || t.objs[x].stack > 0)
  }

  /** Reachable objects keep their slots, references and queue entries; garbage is deleted or emptied. */
  lemma CollectEffect(w: World, garbage: set<Addr>, order: seq<Addr>)
    requires Settled(w) && Enabled(w, DoCollect(order, garbage))
    ensures Collected(w, garbage, Sweep(w, order))
  {
    var t := Sweep(w, order);
    ListsFacts(order, garbage);
    GarbageIsThere(w, garbage);
    SweepFacts(w, order);
    SweepLinks(w, order);
    SweepQueue(w, order);
    assert forall x | x in garbage :: x in order;
    forall x | x in garbage && x in t.objs ensures Emptied(t, x) {
      hide Safe, Sweep, Owned, StillQueued, ReachSet;
      SurvivorOwned(w, order, x);
      NotHeldBySlots(w, garbage, t, x);
    }
    hide IsGarbage, Safe, Lists, Sweep, Emptied;
  }

  lemma NotHeldBySlots(w: World, garbage: set<Addr>, t: World, x: Addr)
    requires Settled(w) && IsGarbage(w, garbage) && x in garbage && t.links == LinksOutside(w.links, garbage)
    requires x in t.objs && x in w.objs && t.objs[x] == w.objs[x] && t.releasing == {} && Owned(t, x)
    ensures Emptied(t, x)
  {
    var e, r := EdgesOf(w), w.objs.Keys - garbage;
    forall i | i in t.links ensures t.links[i].target != x {
      var a := w.links[i].owner;
      assert i in LinksOf(w, a);
      assert w.links[i].target in e[a] && e[a] <= r;
    }
  }

  // ------------------------------------------------------------------ the effect, whatever the order

  /** The objects that lose their last owner when the given objects lose all slots. */
  ghost function Lost(w: World, xs: set<Addr>): set<Addr>
  {
    set x | x in w.objs && Linked(w.links, x) && !Linked(LinksOutside(w.links, xs), x) && !Held(w, x)
  }

  /** The given objects visited, in no order: those without owners are gone, the others empty. */
  ghost function Visited(w: World, xs: set<Addr>): World
  {
    World(map x | x in w.objs && (x in xs ==> Owned(w, x)) :: w.objs[x],
          LinksOutside(w.links, xs),
          w.queue + Entries(w, Lost(w, xs)),
          w.releasing)
  }

  lemma OwnedMeanwhile(w: World, xs: set<Addr>, x: Addr)
    requires Safe(w) && x in w.objs && x !in xs
    ensures Owned(Visited(w, xs), x) <==> Owned(w, x)
  {
    var t := Visited(w, xs);
    assert Linked(t.links, x) ==> Linked(w.links, x);
    assert x in Lost(w, xs) ==> x in t.queue;
    hide Linked;
  }

  lemma LinksOneLess(w: World, xs: set<Addr>, x: Addr, t: World)
    requires t.links == LinksOutside(w.links, xs)
    ensures t.links - LinksOf(t, x) == LinksOutside(w.links, xs + {x})
  {
  }

  /** The orphans of one more visit are those that lose their last owner with it. */
  lemma LostMore(w: World, xs: set<Addr>, x: Addr, t: World)
    requires Safe(w) && t.links == LinksOutside(w.links, xs)
    requires forall y | Linked(t.links, y) :: y in t.objs && (Held(t, y) <==> Held(w, y))
    ensures Orphans(t, LinksOf(t, x)) == Lost(w, xs + {x}) - Lost(w, xs)
  {
    var ids, after := LinksOf(t, x), LinksOutside(w.links, xs + {x});
    LinksOneLess(w, xs, x, t);
    forall y ensures y in Orphans(t, ids) <==> y in Lost(w, xs + {x}) && y !in Lost(w, xs) {
      LinkedMeanwhile(w, xs, x, t, y);
      hide Linked, Held, LinksOutside, LinksOf;
    }
  }

  lemma LinkedMeanwhile(w: World, xs: set<Addr>, x: Addr, t: World, y: Addr)
    requires Safe(w) && t.links == LinksOutside(w.links, xs)
    ensures Linked(t.links, y) ==> Linked(w.links, y) && y in w.objs
    ensures y in Targets(t.links, LinksOf(t, x)) ==> Linked(t.links, y)
    ensures Linked(t.links, y) && !Linked(t.links - LinksOf(t, x), y) ==> y in Targets(t.links, LinksOf(t, x))
  {
    if i :| i in t.links && t.links[i].target == y {
      assert i in w.links && w.links[i].target == y;
      assert i !in LinksOf(t, x) ==> i in t.links - LinksOf(t, x);
    }
  }

  lemma EntriesJoin(w: World, t: World, a: set<Addr>, c: set<Addr>)
    requires a <= c && forall x | x in c - a :: IsPublic(w, x) == IsPublic(t, x)
    ensures w.queue + Entries(w, a) + Entries(t, c - a) == w.queue + Entries(w, c)
  {
  }

  /** Whoever a slot still holds has the owners besides slots that it had, whether x is visited or removed first. */
  lemma HeldMeanwhile(w: World, xs: set<Addr>, x: Addr, y: Addr)
    requires Safe(w) && x in w.objs && x !in xs && Linked(LinksOutside(w.links, xs), y)
    ensures var t := Visited(w, xs); y in t.objs && (Held(t, y) <==> Held(w, y))
    ensures !Owned(w, x) ==> var t := Removed(Visited(w, xs), x); y in t.objs && (Held(t, y) <==> Held(w, y))
  {
    assert Linked(w.links, y) && y in w.objs && y !in Lost(w, xs);
    assert !Owned(w, x) ==> x != y;
    hide Linked, Lost, Safe, LinksOutside;
  }

  lemma LostGrows(w: World, xs: set<Addr>, x: Addr)
    ensures Lost(w, xs) <= Lost(w, xs + {x})
  {
    forall y | Linked(LinksOutside(w.links, xs + {x}), y) ensures Linked(LinksOutside(w.links, xs), y) {
      var i :| i in LinksOutside(w.links, xs + {x}) && w.links[i].target == y;
      assert i in LinksOutside(w.links, xs);
    }
  }

  lemma VisitedObjects(w: World, xs: set<Addr>, x: Addr)
    requires x in w.objs && x !in xs
    ensures Visited(w, xs + {x}).objs ==
            if Owned(w, x) then Visited(w, xs).objs else Visited(w, xs).objs - {x}
  {
    hide Owned;
  }

  /** The state whose slots the next visit empties. */
  ghost function Opened(w: World, xs: set<Addr>, x: Addr): World
  {
    if Owned(w, x) then Visited(w, xs) else Removed(Visited(w, xs), x)
  }

  lemma OpenedParts(w: World, xs: set<Addr>, x: Addr)
    requires Safe(w) && x in w.objs && x !in xs
    ensures var s := Opened(w, xs, x);
            && s.links == LinksOutside(w.links, xs) && s.releasing == w.releasing
            && s.queue == w.queue + Entries(w, Lost(w, xs)) && s.objs == Visited(w, xs + {x}).objs
            && s.objs.Keys <= w.objs.Keys && (forall y | y in s.objs :: s.objs[y] == w.objs[y])
  {
    VisitedObjects(w, xs, x);
    NotInQueue(w, xs, x);
    assert Visited(w, xs).objs.Keys <= w.objs.Keys;
    if !Owned(w, x) {
      RemovedUnqueued(Visited(w, xs), x);
    }
    hide Owned, Safe, LinksOutside, Lost, Entries, Removed;
  }

  lemma RemovedUnqueued(t: World, x: Addr)
    requires x !in t.queue && x !in t.releasing
    ensures Removed(t, x) == t.(objs := t.objs - {x})
  {
  }

  lemma OpenedHeld(w: World, xs: set<Addr>, x: Addr)
    requires Safe(w) && x in w.objs && x !in xs
    ensures var s := Opened(w, xs, x);
            forall y | Linked(s.links, y) :: y in s.objs && (Held(s, y) <==> Held(w, y))
  {
    var s := Opened(w, xs, x);
    assert s.links == LinksOutside(w.links, xs);
    forall y | Linked(s.links, y) ensures y in s.objs && (Held(s, y) <==> Held(w, y)) {
      HeldMeanwhile(w, xs, x, y);
    }
    hide Owned, Linked, Held, Visited, LinksOutside;
  }

  lemma QueueOneMore(w: World, xs: set<Addr>, x: Addr)
    requires Safe(w) && x in w.objs && x !in xs
    ensures var s := Opened(w, xs, x);
            s.queue + Entries(s, Orphans(s, LinksOf(s, x))) == w.queue + Entries(w, Lost(w, xs + {x}))
  {
    var s := Opened(w, xs, x);
    OpenedParts(w, xs, x);
    OpenedHeld(w, xs, x);
    hide Opened, LinksOf, LinksOutside, Held, Linked, Safe, Orphans, Lost, Entries, Visited, IsPublic;
    LostMore(w, xs, x, s);
    LostArePublic(w, xs, x, s);
    LostGrows(w, xs, x);
    EntriesJoin(w, s, Lost(w, xs), Lost(w, xs + {x}));
  }

  lemma ReleaseOneMore(w: World, xs: set<Addr>, x: Addr)
    requires Safe(w) && x in w.objs && x !in xs
    ensures var s := Opened(w, xs, x); Release(s, LinksOf(s, x)) == Visited(w, xs + {x})
  {
    var s := Opened(w, xs, x);
    OpenedParts(w, xs, x);
    hide Opened, LinksOf, LinksOutside, Safe, Orphans, Lost, Entries;
    LinksOneLess(w, xs, x, s);
    QueueOneMore(w, xs, x);
  }

  lemma LostArePublic(w: World, xs: set<Addr>, x: Addr, s: World)
    requires Safe(w) && s.links == LinksOutside(w.links, xs)
    requires forall y | Linked(s.links, y) :: y in s.objs
    requires s.objs.Keys <= w.objs.Keys && forall y | y in s.objs :: s.objs[y] == w.objs[y]
    ensures forall y | y in Lost(w, xs + {x}) - Lost(w, xs) :: IsPublic(w, y) == IsPublic(s, y)
  {
  }

  lemma NotInQueue(w: World, xs: set<Addr>, x: Addr)
    requires Safe(w) && x in w.objs
    ensures !Owned(w, x) ==> x !in Visited(w, xs).queue && x !in w.releasing
  {
  }

  lemma VisitOneMore(w: World, xs: set<Addr>, x: Addr)
    requires Safe(w) && x in w.objs && x !in xs
    ensures Visit(Visited(w, xs), x) == Visited(w, xs + {x})
  {
    var t := Visited(w, xs);
    OwnedMeanwhile(w, xs, x);
    var s := Opened(w, xs, x);
    ReleaseOneMore(w, xs, x);
    assert LinksOf(s, x) == LinksOf(t, x);
    hide Visited, Owned, Release;
  }

  lemma {:induction false} SweepIsVisited(w: World, order: seq<Addr>)
    requires Safe(w) && (forall i | 0 <= i < |order| :: order[i] in w.objs)
    requires forall i, j | 0 <= i < j < |order| :: order[i] != order[j]
    ensures Sweep(w, order) == Visited(w, Elements(order))
  {
    if order == [] {
      assert Elements(order) == {};
      VisitedNothing(w);
    } else {
      var front, x := order[..|order| - 1], order[|order| - 1];
      assert Elements(order) == Elements(front) + {x} by {
        assert forall i | 0 <= i < |front| :: order[i] == front[i];
      }
      assert x !in Elements(front);
      hide Visited, Visit, Safe, Elements;
      SweepIsVisited(w, front);
      VisitOneMore(w, Elements(front), x);
    }
  }

  lemma VisitedNothing(w: World)
    ensures Visited(w, {}) == w
  {
    assert LinksOutside(w.links, {}) == w.links;
    assert Lost(w, {}) == {};
  }

  /** Whatever order a collection visits the garbage in, the result is the same. */
  lemma AnyOrder(w: World, garbage: set<Addr>, order: seq<Addr>, order2: seq<Addr>)
    requires Settled(w) && Enabled(w, DoCollect(order, garbage)) && Enabled(w, DoCollect(order2, garbage))
    ensures Sweep(w, order) == Sweep(w, order2)
  {
    CollectIs(w, garbage, order);
    CollectIs(w, garbage, order2);
  }

  lemma CollectIs(w: World, garbage: set<Addr>, order: seq<Addr>)
    requires Settled(w) && Enabled(w, DoCollect(order, garbage))
    ensures Sweep(w, order) == Visited(w, garbage)
  {
    ListsFacts(order, garbage);
    GarbageIsThere(w, garbage);
    SweepIsVisited(w, order);
  }

  /** The objects that a collection leaves without their last owner are the garbage that only slots hold. */
  lemma LostAreGarbage(w: World, garbage: set<Addr>, x: Addr)
    requires Settled(w) && IsGarbage(w, garbage) && x in w.objs
    ensures x in Lost(w, garbage) <==> x in garbage && Linked(w.links, x) && w.objs[x].stack == 0
  {
    var e, r := EdgesOf(w), w.objs.Keys - garbage;
    if x in garbage {
      forall i | i in LinksOutside(w.links, garbage) ensures w.links[i].target != x {
        var a := w.links[i].owner;
        assert i in LinksOf(w, a) && w.links[i].target in e[a] && e[a] <= r;
      }
    } else {
      ReachedIsHeld(w, garbage, x);
    }
  }

  /** What is no garbage is a root or in a slot of something that is no garbage. */
  lemma ReachedIsHeld(w: World, garbage: set<Addr>, x: Addr)
    requires IsGarbage(w, garbage) && x in w.objs && x !in garbage
    ensures x in Roots(w) || Linked(LinksOutside(w.links, garbage), x)
  {
    var e, r, rest := EdgesOf(w), w.objs.Keys - garbage, LinksOutside(w.links, garbage);
    var s := set y | y in r && (y in Roots(w) || Linked(rest, y));
    forall a | a in s && a in e ensures e[a] <= s {
      forall y | y in e[a] ensures y in s {
        var i :| i in LinksOf(w, a) && w.links[i].target == y;
        assert i in rest && rest[i].target == y;
      }
    }
    assert Roots(w) <= s;
    assert Closed(e, s);
    assert r <= s && x in r;
    assert x in s;
  }

  /** A collection deletes exactly the garbage that neither a slot nor the stack holds. It queues the garbage that
      only slots hold, with age 0 or 5 by whether it has a handle, and nothing else. */
  lemma WhoSurvives(w: World, garbage: set<Addr>, order: seq<Addr>, x: Addr)
    requires Settled(w) && Enabled(w, DoCollect(order, garbage)) && x in w.objs
    ensures var t, c := Sweep(w, order), w.objs[x];
            var inSlot := exists i :: i in w.links && w.links[i].target == x;
            && (x in t.objs <==> x !in garbage || inSlot || c.stack > 0)
            && (x in t.queue <==> x in w.queue || (x in garbage && inSlot && c.stack == 0))
            && (x in t.queue && x !in w.queue ==> t.queue[x] == if c.handle != 0 then 0 else 5)
  {
    CollectIs(w, garbage, order);
    LostAreGarbage(w, garbage, x);
    hide Sweep, Lists, Lost;
    if x in garbage {
      GarbageUnheld(w, garbage, x);
    }
    hide IsGarbage, Settled, LinksOutside;
  }

  lemma GarbageUnheld(w: World, garbage: set<Addr>, x: Addr)
    requires Settled(w) && IsGarbage(w, garbage) && x in garbage
    ensures x in w.objs && w.objs[x].tes == 0 && x !in w.queue && x !in w.releasing
  {
  }

  // ------------------------------------------------------------------ the next collection

  /** The garbage of a collected context is exactly what only the stack holds. */
  lemma NextGarbage(w: World, garbage: set<Addr>, t: World, garbage2: set<Addr>)
    requires Settled(w) && Settled(t) && IsGarbage(w, garbage) && Collected(w, garbage, t) && IsGarbage(t, garbage2)
    ensures garbage2 == set x | x in garbage && x in t.objs && x !in t.queue
  {
    var r, r2 := w.objs.Keys - garbage, t.objs.Keys - garbage2;
    var queued := set x | x in garbage && x in t.queue;
    assert queued <= t.objs.Keys;
    StillReached(w, garbage, t, r2);
    NothingMore(w, garbage, t, r2, queued);
    hide ReachSet, Collected, Settled;
    assert r2 == r + queued;
    assert t.objs.Keys == r + (set x | x in garbage && x in t.objs) by {
      CollectedObjects(w, garbage, t);
    }
  }

  lemma CollectedObjects(w: World, garbage: set<Addr>, t: World)
    requires Collected(w, garbage, t)
    ensures t.objs.Keys == (w.objs.Keys - garbage) + (set x | x in garbage && x in t.objs)
  {
  }

  lemma SameTargets(w: World, garbage: set<Addr>, t: World, a: Addr)
    requires t.links == LinksOutside(w.links, garbage)
    ensures Targets(t.links, LinksOf(t, a)) == if a in garbage then {} else Targets(w.links, LinksOf(w, a))
  {
    if a !in garbage {
      assert LinksOf(t, a) == LinksOf(w, a);
    } else {
      assert LinksOf(t, a) == {};
    }
  }

  /** What was reachable before the collection is reachable after it. */
  lemma StillReached(w: World, garbage: set<Addr>, t: World, r2: set<Addr>)
    requires Settled(w) && Settled(t) && IsGarbage(w, garbage) && Collected(w, garbage, t) &&
             ReachSet(EdgesOf(t), Roots(t), r2)
    ensures w.objs.Keys - garbage <= r2 && Roots(t) <= r2
  {
    var r := w.objs.Keys - garbage;
    var s := r2 * r;
    assert Roots(w) <= s by {
      assert Roots(w) <= r;
      assert Roots(w) <= Roots(t);
    }
    forall a | a in s && a in EdgesOf(w) ensures EdgesOf(w)[a] <= s {
      SameTargets(w, garbage, t, a);
      assert a in EdgesOf(t) && EdgesOf(w)[a] == EdgesOf(t)[a];
    }
    assert Closed(EdgesOf(w), s);
  }

  lemma NothingMore(w: World, garbage: set<Addr>, t: World, r2: set<Addr>, queued: set<Addr>)
    requires Settled(w) && Settled(t) && IsGarbage(w, garbage) && Collected(w, garbage, t) &&
             ReachSet(EdgesOf(t), Roots(t), r2)
    requires queued == set x | x in garbage && x in t.queue
    ensures r2 <= (w.objs.Keys - garbage) + queued
    ensures queued <= r2
  {
    var r := w.objs.Keys - garbage;
    var s := r + queued;
    assert Roots(t) <= s by {
      forall x | x in Roots(t) ensures x in s {
        assert x in garbage ==> Emptied(t, x);
      }
    }
    forall a | a in s && a in EdgesOf(t) ensures EdgesOf(t)[a] <= s {
      SameTargets(w, garbage, t, a);
      assert a !in garbage ==> EdgesOf(w)[a] <= r;
    }
    assert Closed(EdgesOf(t), s);
  }

  /** In terms of the state before the first collection: the garbage that the stack held. */
  lemma StackGarbage(w: World, garbage: set<Addr>, order: seq<Addr>, garbage2: set<Addr>)
    requires Settled(w) && Enabled(w, DoCollect(order, garbage)) &&
             IsGarbage(Apply(w, DoCollect(order, garbage)), garbage2)
    ensures garbage2 == set x | x in garbage && x in w.objs && w.objs[x].stack > 0
  {
    var t := Sweep(w, order);
    StepFacts(w, DoCollect(order, garbage));
    CollectEffect(w, garbage, order);
    GarbageIsThere(w, garbage);
    NextGarbage(w, garbage, t, garbage2);
    forall x | x in garbage ensures x in t.objs && x !in t.queue <==> w.objs[x].stack > 0 {
      WhoSurvives(w, garbage, order, x);
      GarbageUnheld(w, garbage, x);
      hide Settled, Sweep, IsGarbage, Collected, Lists;
    }
    hide Settled, Sweep, IsGarbage, Collected, Lists;
  }

  /** Without stack references a second collection finds no garbage. */
  lemma SecondFindsNothing(w: World, garbage: set<Addr>, order: seq<Addr>, garbage2: set<Addr>)
    requires Settled(w) && Enabled(w, DoCollect(order, garbage)) &&
             IsGarbage(Apply(w, DoCollect(order, garbage)), garbage2)
    requires forall x | x in w.objs :: w.objs[x].stack == 0
    ensures garbage2 == {}
  {
    StackGarbage(w, garbage, order, garbage2);
    GarbageIsThere(w, garbage);
    hide IsGarbage;
  }
}
