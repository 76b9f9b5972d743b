/** The tracing collector: what user references and the queue lead to stays, the rest is swept. */
module GarbageCollector {
  import opened Graph
  import opened Sequences
  import opened Lifetime
  import opened StoreState
  import opened Registry
  import opened ObjectContext
  import opened Collection

  /** Everything in reached is reachable, and the successors of what is not waiting are in it. */
  ghost predicate Traced(e: Edges, roots: set<Addr>, reached: set<Addr>, waiting: set<Addr>)
  {
    && roots <= reached
    && (forall a | a in reached && a in e && a !in waiting :: e[a] <= reached)
    && forall t: set<Addr> | roots <= t && Closed(e, t) :: reached <= t
  }

  lemma StartTrace(e: Edges, roots: set<Addr>)
    ensures Traced(e, roots, roots, roots)
  {
  }

  lemma TraceDone(e: Edges, roots: set<Addr>, reached: set<Addr>)
    requires Traced(e, roots, reached, {})
    ensures ReachSet(e, roots, reached)
  {
  }

  /** A successor of a reached object is reachable, too. */
  lemma TraceTo(e: Edges, roots: set<Addr>, reached: set<Addr>, waiting: set<Addr>, a: Addr, b: Addr)
    requires Traced(e, roots, reached, waiting) && a in reached && a in e && b in e[a]
    ensures Traced(e, roots, reached + {b}, waiting + {b})
  {
    forall t: set<Addr> | roots <= t && Closed(e, t) ensures reached + {b} <= t {
      assert a in t;
    }
  }

  lemma TraceSeen(e: Edges, roots: set<Addr>, reached: set<Addr>, waiting: set<Addr>, fewer: set<Addr>, a: Addr)
    requires Traced(e, roots, reached, waiting) && waiting <= fewer + {a} && (a in e ==> e[a] <= reached)
    ensures Traced(e, roots, reached, fewer)
  {
  }

  lemma RootsFound(s: Store)
    requires Consistent(s)
    ensures Roots(Abs(s)) == set x | x in s.objects && (s.objects[x].tes > 0 || InAQueue(s.objects[x]))
    ensures Abs(s).objs.Keys == s.objects.Keys
  {
    AllNonNegative(s);
    forall x | x in s.objects ensures x in Roots(Abs(s)) <==> s.objects[x].tes > 0 || InAQueue(s.objects[x]) {
      OwnersSeen(s, x);
      hide Consistent, NoOwners, Owned;
    }
  }

  /** findRootObjects */
  method FindRootObjects(c: Context) returns (roots: seq<Addr>)
    requires c.Valid()
    ensures Elements(roots) == Roots(c.View())
  {
    RootsFound(c.State());
    hide Consistent, Abs, Indexes, Handles, ObjectRegistry.Valid, Roots;
    roots := [];
    var todo := c.registry.allObjects;
    while todo != {}
      invariant todo <= c.objects.Keys
      invariant Elements(roots) == set x | x in c.objects && x !in todo &&
                (c.objects[x].tes > 0 || InAQueue(c.objects[x]))
    {
      var x :| x in todo;
      if c.objects[x].tes > 0 || InAQueue(c.objects[x]) {
        ElementsPlus(roots, x);
        roots := roots + [x];
      }
      todo := todo - {x};
    }
  }

  /** u_visit_referenced_objects with the marking visitor: the objects in the slots of a. */
  method VisitReferenced(c: Context, ghost e: Edges, ghost roots: set<Addr>, a: Addr, notReachable: set<Addr>,
                         toVisit: seq<Addr>, ghost rest: set<Addr>)
    returns (notReachable': set<Addr>, toVisit': seq<Addr>)
    requires e == EdgesOf(c.View()) && c.View().links == c.links && c.View().objs.Keys == c.objects.Keys
    requires LinksLive(c.View()) && a in c.objects && a !in notReachable && notReachable <= c.objects.Keys
    requires Traced(e, roots, c.objects.Keys - notReachable, Elements(toVisit) + rest + {a})
    requires Elements(toVisit) <= c.objects.Keys - notReachable
    ensures notReachable' <= notReachable && (notReachable' == notReachable ==> toVisit' == toVisit)
    ensures Traced(e, roots, c.objects.Keys - notReachable', Elements(toVisit') + rest)
    ensures Elements(toVisit') <= c.objects.Keys - notReachable'
  {
    notReachable', toVisit' := notReachable, toVisit;
    var todo := set i | i in c.links && c.links[i].owner == a;
    ghost var ids := todo;
    TargetsLive(c.View(), a, ids);
    hide LinksLive, Targets, Abs, Traced, Elements, EdgesOf;
    assert ids - todo == {};
    while todo != {}
      invariant todo <= ids && notReachable' <= notReachable && (notReachable' == notReachable ==> toVisit' == toVisit)
      invariant Traced(e, roots, c.objects.Keys - notReachable', Elements(toVisit') + rest + {a})
      invariant Elements(toVisit') <= c.objects.Keys - notReachable'
      invariant Targets(c.links, ids - todo) <= c.objects.Keys - notReachable'
    {
      var i :| i in todo;
      var b := c.links[i].target;
      OneMoreTarget(c.links, ids, todo, i);
      if b in notReachable' {
        TraceNew(e, roots, c.objects.Keys, notReachable', toVisit', rest, a, b);
        notReachable' := notReachable' - {b};
        toVisit' := toVisit' + [b];
      }
      todo := todo - {i};
    }
    assert ids - todo == ids;
    TraceSeen(e, roots, c.objects.Keys - notReachable', Elements(toVisit') + rest + {a}, Elements(toVisit') + rest, a);
  }

  lemma TraceNew(e: Edges, roots: set<Addr>, all: set<Addr>, notReachable: set<Addr>, toVisit: seq<Addr>,
                 rest: set<Addr>, a: Addr, b: Addr)
    requires Traced(e, roots, all - notReachable, Elements(toVisit) + rest + {a}) && b in notReachable &&
             notReachable <= all
    requires a in all - notReachable && a in e && b in e[a] && Elements(toVisit) <= all - notReachable
    ensures Traced(e, roots, all - (notReachable - {b}), Elements(toVisit + [b]) + rest + {a})
    ensures Elements(toVisit + [b]) <= all - (notReachable - {b})
  {
    hide Traced, Elements;
    TraceTo(e, roots, all - notReachable, Elements(toVisit) + rest + {a}, a, b);
    ElementsPlus(toVisit, b);
    assert all - (notReachable - {b}) == (all - notReachable) + {b};
    assert Elements(toVisit) + rest + {a} + {b} == Elements(toVisit + [b]) + rest + {a};
  }

  lemma TargetsLive(w: World, a: Addr, ids: set<nat>)
    requires LinksLive(w) && ids == (set i | i in w.links && w.links[i].owner == a) && a in w.objs
    ensures forall i | i in ids :: i in w.links && w.links[i].target in w.objs && w.links[i].target in EdgesOf(w)[a]
    ensures a in EdgesOf(w) && EdgesOf(w)[a] == Targets(w.links, ids) && Targets(w.links, {}) == {}
  {
    assert ids == LinksOf(w, a);
  }

  lemma OneMoreTarget(links: Links, ids: set<nat>, todo: set<nat>, i: nat)
    requires i in todo && todo <= ids && i in links
    ensures Targets(links, ids - (todo - {i})) == Targets(links, ids - todo) + {links[i].target}
  {
    assert ids - (todo - {i}) == (ids - todo) + {i};
  }

  /** One pass over the objects whose slots have not been looked at. */
  method VisitBatch(c: Context, ghost e: Edges, ghost roots: set<Addr>, temp: seq<Addr>, notReachable: set<Addr>)
    returns (notReachable': set<Addr>, toVisit: seq<Addr>)
    requires e == EdgesOf(c.View()) && c.View().links == c.links && c.View().objs.Keys == c.objects.Keys &&
             LinksLive(c.View())
    requires notReachable <= c.objects.Keys && Elements(temp) <= c.objects.Keys - notReachable
    requires Traced(e, roots, c.objects.Keys - notReachable, Elements(temp))
    ensures notReachable' <= notReachable && (notReachable' == notReachable ==> toVisit == [])
    ensures Elements(toVisit) <= c.objects.Keys - notReachable'
    ensures Traced(e, roots, c.objects.Keys - notReachable', Elements(toVisit))
  {
    hide LinksLive, Traced, EdgesOf, Elements, Abs;
    notReachable', toVisit := notReachable, [];
    BatchStart(temp);
    for i := 0 to |temp|
      invariant notReachable' <= notReachable && (notReachable' == notReachable ==> toVisit == [])
      invariant Elements(toVisit) <= c.objects.Keys - notReachable'
      invariant Traced(e, roots, c.objects.Keys - notReachable', Elements(toVisit) + Elements(temp[i..]))
    {
      BatchNext(temp, i, Elements(toVisit));
      notReachable', toVisit := VisitReferenced(c, e, roots, temp[i], notReachable', toVisit, Elements(temp[i + 1..]));
    }
    BatchEnd(temp, Elements(toVisit));
  }

  lemma BatchStart(temp: seq<Addr>)
    ensures Elements([]) + Elements(temp[0..]) == Elements(temp) && Elements([]) == {}
  {
    assert temp[0..] == temp;
  }

  lemma BatchNext(temp: seq<Addr>, i: nat, others: set<Addr>)
    requires i < |temp|
    ensures others + Elements(temp[i..]) == others + Elements(temp[i + 1..]) + {temp[i]} && temp[i] in Elements(temp)
  {
    ElementsTail(temp, i);
  }

  lemma BatchEnd(temp: seq<Addr>, others: set<Addr>)
    ensures others + Elements(temp[|temp|..]) == others
  {
    assert temp[|temp|..] == [];
  }

  lemma TraceSetup(s: Store, rootObjects: seq<Addr>, notReachable: set<Addr>)
    requires Consistent(s) && Safe(Abs(s)) && Elements(rootObjects) == Roots(Abs(s))
    requires notReachable == s.objects.Keys - set x | x in rootObjects
    ensures LinksLive(Abs(s)) && Abs(s).objs.Keys == s.objects.Keys && Abs(s).links == s.links
    ensures s.objects.Keys - notReachable == Elements(rootObjects)
    ensures Traced(EdgesOf(Abs(s)), Roots(Abs(s)), s.objects.Keys - notReachable, Elements(rootObjects))
  {
    AllNonNegative(s);
    assert Roots(Abs(s)) <= s.objects.Keys;
    assert (set x | x in rootObjects) == Elements(rootObjects);
    StartTrace(EdgesOf(Abs(s)), Roots(Abs(s)));
    hide Consistent, EdgesOf, Roots, Cells, QueueAges, Traced, Elements;
  }

  /** findNonReachable: the double-buffered work list. */
  method FindNonReachable(c: Context, rootObjects: seq<Addr>) returns (notReachable: set<Addr>)
    requires c.Valid() && Safe(c.View()) && Elements(rootObjects) == Roots(c.View())
    ensures IsGarbage(c.View(), notReachable)
    ensures notReachable == set x | x in c.View().objs && !HasPath(EdgesOf(c.View()), Roots(c.View()), x)
  {
    hide Consistent, Indexes, Handles, ObjectRegistry.Valid, Roots, Safe, LinksLive, Traced, EdgesOf, Elements, Abs;
    hide ReachSet, HasPath;
    ghost var e, roots := EdgesOf(c.View()), Roots(c.View());
    notReachable := c.registry.allObjects - (set x | x in rootObjects);
    TraceSetup(c.State(), rootObjects, notReachable);
    var toVisit := rootObjects;
    while toVisit != []
      invariant notReachable <= c.objects.Keys && Elements(toVisit) <= c.objects.Keys - notReachable
      invariant Traced(e, roots, c.objects.Keys - notReachable, Elements(toVisit))
      decreases notReachable, |toVisit|
    {
      notReachable, toVisit := VisitBatch(c, e, roots, toVisit, notReachable);
    }
    NoElements();
    TraceDone(e, roots, c.objects.Keys - notReachable);
    GarbageIsUnreachable(c.View(), notReachable);
  }

  // ------------------------------------------------------------------ the collection pass

  lemma VisitStep(s: Store, x: Addr, ids: set<nat>)
    requires Consistent(s) && Safe(Abs(s)) && x in s.objects && ids == set i | i in s.links && s.links[i].owner == x
    ensures NoOwners(s.objects[x]) ==>
              x !in s.queue && x !in s.toRelease && forall i | i in s.links :: s.links[i].target != x
    ensures Visit(Abs(s), x) == if NoOwners(s.objects[x]) then Delete(Abs(s), x) else Release(Abs(s), ids)
    ensures (forall i | i in s.links :: s.links[i].target in s.objects) && x in Abs(s).objs && Safe(Visit(Abs(s), x))
  {
    OwnersSeen(s, x);
    AllNonNegative(s);
    assert LinksLive(Abs(s));
    hide Consistent, Safe, Cells, QueueAges, Delete, Release;
    VisitFacts(Abs(s), x);
    assert ids == LinksOf(Abs(s), x);
    assert !Linked(s.links, x) ==> forall i | i in s.links :: s.links[i].target != x;
  }

  lemma SweepOneMore(w: World, order: seq<Addr>, x: Addr)
    ensures Sweep(w, order + [x]) == Visit(Sweep(w, order), x)
  {
    assert (order + [x])[..|order|] == order;
  }

  /** The garbage visited so far, and the garbage still to visit, which is all still there. */
  ghost predicate Sweeping(w: World, garbage: set<Addr>, order: seq<Addr>, todo: set<Addr>, objects: set<Addr>)
  {
    && todo <= garbage && todo <= objects
    && (forall i | 0 <= i < |order| :: order[i] in garbage && order[i] !in todo)
    && (forall i, j | 0 <= i < j < |order| :: order[i] != order[j])
    && (forall x | x in garbage :: x in todo || x in order)
  }

  lemma SweepingMore(w: World, garbage: set<Addr>, order: seq<Addr>, todo: set<Addr>, objects: set<Addr>, x: Addr,
                     objects': set<Addr>)
    requires Sweeping(w, garbage, order, todo, objects) && x in todo && objects - {x} <= objects'
    ensures Sweeping(w, garbage, order + [x], todo - {x}, objects')
  {
  }

  lemma SurvivorsMore(w: World, garbage: set<Addr>, order: seq<Addr>, todo: set<Addr>, objects: set<Addr>, x: Addr,
                      objects': set<Addr>)
    requires Sweeping(w, garbage, order, todo, objects) && x in todo &&
             (objects' == objects || objects' == objects - {x})
    ensures |(garbage - (todo - {x})) * objects'| == |(garbage - todo) * objects| + (if x in objects' then 1 else 0)
  {
    var before, after := (garbage - todo) * objects, (garbage - (todo - {x})) * objects';
    assert after == if x in objects' then before + {x} else before;
  }

  lemma SweepingDone(w: World, garbage: set<Addr>, order: seq<Addr>, objects: set<Addr>)
    requires Sweeping(w, garbage, order, {}, objects)
    ensures Lists(order, garbage)
  {
  }

  /** An object with owners is part of a graph and is emptied; one without is deleted. */
  method VisitGarbage(c: Context, x: Addr) returns (partOfGraph: bool)
    requires c.Valid() && Safe(c.View()) && x in c.objects
    modifies c, c.registry, c.registry.idGen
    ensures c.Valid() && Safe(c.View()) && c.View() == Visit(old(c.View()), x)
    ensures c.objects.Keys == if partOfGraph then old(c.objects.Keys) else old(c.objects.Keys) - {x}
  {
    hide Consistent, Abs, Indexes, Handles, ObjectRegistry.Valid, Safe, Delete, Release, Visit, NoOwners;
    var ids := set i | i in c.links && c.links[i].owner == x;
    VisitStep(c.State(), x, ids);
    partOfGraph := !NoOwners(c.objects[x]);
    if partOfGraph {
      c.ReleaseSlots(ids);
    } else {
      c.DeleteSelf(x);
    }
  }

  /** collectGarbage, in any order. */
  method CollectGarbage(c: Context, garbage: set<Addr>) returns (total: nat, partOfGraphs: nat, ghost order: seq<Addr>)
    requires c.Valid() && Safe(c.View()) && garbage <= c.objects.Keys
    modifies c, c.registry, c.registry.idGen
    ensures c.Valid() && c.View() == Sweep(old(c.View()), order) && Lists(order, garbage)
    ensures total == |garbage| && partOfGraphs == |garbage * c.objects.Keys|
  {
    hide Consistent, Abs, Indexes, Handles, ObjectRegistry.Valid, Safe, Visit, Lists, Sweeping, Sweep;
    ghost var w := c.View();
    order, partOfGraphs := [], 0;
    var todo := garbage;
    StartSweep(w, garbage, c.objects.Keys);
    while todo != {}
      invariant c.Valid() && Safe(c.View()) && c.View() == Sweep(w, order)
      invariant Sweeping(w, garbage, order, todo, c.objects.Keys)
      invariant partOfGraphs == |(garbage - todo) * c.objects.Keys|
    {
      var x :| x in todo;
      ghost var before := c.objects.Keys;
      TodoThere(w, garbage, order, todo, before, x);
      SweepOneMore(w, order, x);
      var partOfGraph := VisitGarbage(c, x);
      SurvivorsMore(w, garbage, order, todo, before, x, c.objects.Keys);
      SweepingMore(w, garbage, order, todo, before, x, c.objects.Keys);
      if partOfGraph {
        partOfGraphs := partOfGraphs + 1;
      }
      order := order + [x];
      todo := todo - {x};
    }
    SweepingDone(w, garbage, order, c.objects.Keys);
    assert garbage - {} == garbage;
    total := |garbage|;
  }

  lemma StartSweep(w: World, garbage: set<Addr>, objects: set<Addr>)
    requires garbage <= objects
    ensures Sweeping(w, garbage, [], garbage, objects) && Sweep(w, []) == w && |(garbage - garbage) * objects| == 0
  {
  }

  lemma TodoThere(w: World, garbage: set<Addr>, order: seq<Addr>, todo: set<Addr>, objects: set<Addr>, x: Addr)
    requires Sweeping(w, garbage, order, todo, objects) && x in todo
    ensures x in objects
  {
  }

  /** u_collect: roots, tracing, collection pass. */
  method Collect(c: Context) returns (total: nat, partOfGraphs: nat, ghost order: seq<Addr>, ghost garbage: set<Addr>)
    requires c.Ready()
    modifies c, c.registry, c.registry.idGen
    ensures c.Ready() && c.Did(old(c.View()), DoCollect(order, garbage))
    ensures total == |garbage| && partOfGraphs == |garbage * c.objects.Keys|
    ensures Collected(old(c.View()), garbage, c.View())
  {
    hide Consistent, Indexes, Handles, ObjectRegistry.Valid, Safe, Sweep, Lists, IsGarbage, Settled, Cells, QueueAges,
      Roots, Elements, Collected;
    SettledIsSafe(c.View());
    var rootObjects := FindRootObjects(c);
    var unreachable := FindNonReachable(c, rootObjects);
    garbage := unreachable;
    GarbageIsThere(c.View(), garbage);
    AllNonNegative(c.State());
    total, partOfGraphs, order := CollectGarbage(c, unreachable);
    StepFacts(old(c.View()), DoCollect(order, garbage));
    CollectEffect(old(c.View()), garbage, order);
  }
}
