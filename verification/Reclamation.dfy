/** How soon ticks alone reclaim objects that nobody uses any more. */
module Reclamation {
  import opened QueueClock
  import opened Graph
  import opened Lifetime

  /** No user or stack references; every object is in a slot or in the queue. */
  ghost predicate Quiet(w: World)
  {
    Settled(w) && forall x | x in w.objs :: w.objs[x].tes == 0 && w.objs[x].stack == 0 && Owned(w, x)
  }

  /** Successive ticks with no calls in between; each drops its expired objects in some order. */
  ghost predicate IsIdle(worlds: seq<World>, orders: seq<seq<Addr>>)
  {
    && |worlds| == |orders| + 1
    && forall k | 0 <= k < |orders| ::
         Lists(orders[k], Expire(worlds[k]).releasing) && worlds[k + 1] == Tick(worlds[k], orders[k])
  }

  ghost predicate Fewer(links: Links, before: Links)
  {
    forall i | i in links :: i in before && links[i] == before[i]
  }

  lemma FewerUnlinked(links: Links, before: Links, x: Addr)
    requires Fewer(links, before) && Linked(links, x)
    ensures Linked(before, x)
  {
    var i :| i in links && links[i].target == x;
    assert i in before && before[i].target == x;
  }

  ghost predicate StillQueued(w: World, t: World)
  {
    forall x | x in w.queue :: x in t.queue && t.queue[x] == w.queue[x]
  }

  lemma DropEffect(w: World, x: Addr)
    requires Safe(w) && x in w.releasing
    ensures Fewer(Drop(w, x).links, w.links) && StillQueued(w, Drop(w, x))
    ensures w.objs[x].tes == 0 && w.objs[x].stack == 0 && !Linked(w.links, x) ==> x !in Drop(w, x).objs
  {
    hide Linked;
    if w.objs[x].tes == 0 && w.objs[x].stack == 0 && !Linked(w.links, x) {
      var u, ids := Removed(w, x), LinksOf(w, x);
      assert Drop(w, x) == Release(u, ids);
      assert forall y | y in w.queue :: y !in Orphans(u, ids);
    }
  }

  lemma {:induction false} DropsEffect(w: World, order: seq<Addr>)
    requires Safe(w) && (forall i | 0 <= i < |order| :: order[i] in w.releasing)
    requires forall i, j | 0 <= i < j < |order| :: order[i] != order[j]
    ensures Fewer(Drops(w, order).links, w.links) && StillQueued(w, Drops(w, order))
    ensures forall x | x in order && w.objs[x].tes == 0 && w.objs[x].stack == 0 && !Linked(w.links, x) ::
              x !in Drops(w, order).objs
  {
    if order != [] {
      var front, x := order[..|order| - 1], order[|order| - 1];
      var t := Drops(w, front);
      DropsEffect(w, front);
      DropsFacts(w, front);
      DropFacts(t, x);
      DropEffect(t, x);
      if Linked(t.links, x) {
        FewerUnlinked(t.links, w.links, x);
      }
      hide Safe, Linked, Drop;
    }
  }

  /** Only the queue owns x. */
  ghost predicate OnlyQueued(w: World, x: Addr)
  {
    x in w.objs && x in w.queue && w.objs[x].tes == 0 && w.objs[x].stack == 0 && !Linked(w.links, x)
  }

  /** An object that only the queue owns is deleted by the tick that finds it overdue and grows older in the others. */
  lemma TickOnlyQueued(w: World, order: seq<Addr>, x: Addr)
    requires Settled(w) && Lists(order, Expire(w).releasing) && OnlyQueued(w, x)
    ensures if Expires(w.queue[x]) then x !in Tick(w, order).objs
            else OnlyQueued(Tick(w, order), x) && Tick(w, order).queue[x] == w.queue[x] + 1
  {
    hide Linked;
    ListsFacts(order, Expire(w).releasing);
    ExpireFacts(w);
    TickFacts(w, order);
    DropsEffect(Expire(w), order);
    if Linked(Tick(w, order).links, x) {
      FewerUnlinked(Tick(w, order).links, w.links, x);
    }
  }

  lemma {:induction false} IdleSettled(worlds: seq<World>, orders: seq<seq<Addr>>, k: nat, m: nat)
    requires IsIdle(worlds, orders) && k <= m < |worlds| && Settled(worlds[k])
    ensures Settled(worlds[m]) && worlds[m].objs.Keys <= worlds[k].objs.Keys
  {
    hide Settled, Lists;
    if k < m {
      IdleSettled(worlds, orders, k, m - 1);
      TickFacts(worlds[m - 1], orders[m - 1]);
    }
  }

  lemma TickQuiet(w: World, order: seq<Addr>)
    requires Quiet(w) && Lists(order, Expire(w).releasing)
    ensures Quiet(Tick(w, order)) && Tick(w, order).objs.Keys <= w.objs.Keys && Fewer(Tick(w, order).links, w.links)
  {
    ListsFacts(order, Expire(w).releasing);
    ExpireFacts(w);
    TickFacts(w, order);
    DropsEffect(Expire(w), order);
    hide Owned, Safe, Tick;
  }

  lemma {:induction false} IdleQuiet(worlds: seq<World>, orders: seq<seq<Addr>>, k: nat)
    requires IsIdle(worlds, orders) && Quiet(worlds[0]) && k < |worlds|
    ensures Quiet(worlds[k])
  {
    hide Quiet, Lists;
    if k > 0 {
      IdleQuiet(worlds, orders, k - 1);
      TickQuiet(worlds[k - 1], orders[k - 1]);
    }
  }

  lemma {:induction false} IdleShrinks(worlds: seq<World>, orders: seq<seq<Addr>>, k: nat, m: nat)
    requires IsIdle(worlds, orders) && Quiet(worlds[0]) && k <= m < |worlds|
    ensures worlds[m].objs.Keys <= worlds[k].objs.Keys && Fewer(worlds[m].links, worlds[k].links)
  {
    hide Quiet, Lists;
    if k < m {
      IdleShrinks(worlds, orders, k, m - 1);
      IdleQuiet(worlds, orders, m - 1);
      TickQuiet(worlds[m - 1], orders[m - 1]);
    }
  }

  lemma {:induction false} Aging(worlds: seq<World>, orders: seq<seq<Addr>>, k: nat, j: nat, x: Addr)
    requires IsIdle(worlds, orders) && k + j < |worlds| && Settled(worlds[k]) && OnlyQueued(worlds[k], x)
    ensures x in worlds[k + j].objs ==>
              OnlyQueued(worlds[k + j], x) && worlds[k + j].queue[x] >= j &&
                (j > 0 ==> worlds[k + j].queue[x] < LIFE_IN_TICKS)
  {
    hide Settled, Lists, Linked;
    if j > 0 {
      var w := worlds[k + j - 1];
      Aging(worlds, orders, k, j - 1, x);
      IdleSettled(worlds, orders, k, k + j - 1);
      if x in w.objs {
        TickOnlyQueued(w, orders[k + j - 1], x);
      } else {
        TickFacts(w, orders[k + j - 1]);
      }
    }
  }

  /** Once the calls stop, an object that only the queue owns is gone after five ticks, whoever uses the others. */
  lemma GoneInFive(worlds: seq<World>, orders: seq<seq<Addr>>, k: nat, x: Addr)
    requires IsIdle(worlds, orders) && k + 5 < |worlds| && Settled(worlds[k]) && OnlyQueued(worlds[k], x)
    ensures x !in worlds[k + 5].objs
  {
    hide Settled, Lists, OnlyQueued;
    Aging(worlds, orders, k, LIFE_IN_TICKS, x);
  }

  // ------------------------------------------------------------------ the queue while calls go on

  lemma VisitQueue(w: World, x: Addr)
    requires Safe(w) && x in w.objs
    ensures StillQueued(w, Visit(w, x))
  {
    hide Linked;
    if Owned(w, x) {
      assert forall y | y in w.queue :: y !in Orphans(w, LinksOf(w, x));
    } else {
      assert forall y | y in w.queue :: y !in Orphans(Removed(w, x), LinksOf(w, x));
    }
  }

  lemma {:induction false} SweepQueue(w: World, order: seq<Addr>)
    requires Safe(w) && (forall i | 0 <= i < |order| :: order[i] in w.objs)
    requires forall i, j | 0 <= i < j < |order| :: order[i] != order[j]
    ensures StillQueued(w, Sweep(w, order))
  {
    if order != [] {
      var front, x := order[..|order| - 1], order[|order| - 1];
      SweepQueue(w, front);
      SweepFacts(w, front);
      hide Visit, Safe;
      VisitQueue(Sweep(w, front), x);
    }
  }

  lemma TickQueued(w: World, order: seq<Addr>, x: Addr)
    requires Settled(w) && Lists(order, Expire(w).releasing) && x in w.queue
    ensures !Expires(w.queue[x]) ==> x in Tick(w, order).queue && Tick(w, order).queue[x] == w.queue[x] + 1
    ensures Expires(w.queue[x]) <==> x in Expire(w).releasing
    ensures Settled(Tick(w, order))
  {
    hide Linked;
    ListsFacts(order, Expire(w).releasing);
    ExpireFacts(w);
    TickFacts(w, order);
    DropsEffect(Expire(w), order);
  }

  /** The calls that make or change the queue entry of an object that is queued already. */
  predicate Touches(w: World, act: Action, x: Addr)
  {
    match act
    case DoTesRetain(y) => y == x
    case DoProlong(y) => y == x
    case DoZero(y) => y == x
    case DoUid(y, _) => y == x && !IsPublic(w, x)
    case _ => false
  }

  function TicksIn(acts: seq<Action>): nat
  {
    if acts == [] then 0
    else TicksIn(acts[..|acts| - 1]) + if acts[|acts| - 1].DoTick? then 1 else 0
  }

  lemma ReleaseLeavesQueued(w: World, ids: set<nat>)
    requires QueueLive(w)
    ensures StillQueued(w, Release(w, ids))
  {
    hide Linked;
  }

  /** No other call changes it. */
  lemma UntouchedStays(w: World, act: Action, x: Addr)
    requires Settled(w) && Enabled(w, act) && x in w.queue && !Touches(w, act, x) && !act.DoTick?
    ensures x in Apply(w, act).queue && Apply(w, act).queue[x] == w.queue[x]
  {
    hide Linked;
    match act
    case DoErase(ids) => ReleaseLeavesQueued(w, ids);
    case DoReplace(i, j, a, b) => ReleaseLeavesQueued(Insert(w, j, a, b), {i});
    case DoCollect(order, garbage) =>
      hide IsGarbage, Sweep;
      ListsFacts(order, garbage);
      GarbageIsThere(w, garbage);
      SweepQueue(w, order);
    case _ =>
  }

  /** A queued object that is not touched grows older by one with each tick and with nothing else. */
  lemma {:induction false} AgesByTicks(acts: seq<Action>, worlds: seq<World>, k: nat, m: nat, x: Addr)
    requires IsRun(acts, worlds) && k <= m < |worlds| && x in worlds[k].queue
    requires forall j | k <= j < m :: !Touches(worlds[j], acts[j], x)
    requires TicksIn(acts[k..m]) == 0 || worlds[k].queue[x] + TicksIn(acts[k..m]) < LIFE_IN_TICKS
    ensures x in worlds[m].queue && worlds[m].queue[x] == worlds[k].queue[x] + TicksIn(acts[k..m])
  {
    hide Settled, Touches, Enabled, Apply;
    if k < m {
      var n := m - 1;
      assert acts[k..m][..n - k] == acts[k..n] && acts[k..m][n - k] == acts[n];
      AgesByTicks(acts, worlds, k, n, x);
      RunIsSafe(acts, worlds, n);
      if acts[n].DoTick? {
        TickInRun(worlds[n], acts[n], x);
      } else {
        UntouchedStays(worlds[n], acts[n], x);
      }
    }
  }

  lemma TickInRun(w: World, act: Action, x: Addr)
    requires Settled(w) && act.DoTick? && Enabled(w, act) && x in w.queue
    ensures !Expires(w.queue[x]) ==> x in Apply(w, act).queue && Apply(w, act).queue[x] == w.queue[x] + 1
    ensures Expires(w.queue[x]) <==> x in Expire(w).releasing
    ensures Expires(w.queue[x]) && OnlyQueued(w, x) ==> x !in Apply(w, act).objs
  {
    TickQueued(w, act.order, x);
    if OnlyQueued(w, x) {
      TickOnlyQueued(w, act.order, x);
    }
  }

  /** In every run: an object queued as public and not touched since is kept by four ticks and let go by exactly
      the fifth, whatever else is called in between and whatever owners it has; one queued as private, or zeroed,
      is let go by the next tick. If nothing but the queue owns it then, it is deleted. */
  lemma LetGoOnTime(acts: seq<Action>, worlds: seq<World>, k: nat, m: nat, x: Addr, isPublic: bool)
    requires IsRun(acts, worlds) && k <= m < |acts| && acts[m].DoTick?
    requires x in worlds[k].queue && worlds[k].queue[x] == if isPublic then 0 else 5
    requires forall j | k <= j < m :: !Touches(worlds[j], acts[j], x)
    requires TicksIn(acts[k..m]) < if isPublic then 5 else 1
    ensures x in worlds[m].queue
    ensures x in Expire(worlds[m]).releasing <==> TicksIn(acts[k..m]) + 1 == if isPublic then 5 else 1
    ensures x in Expire(worlds[m]).releasing && OnlyQueued(worlds[m], x) ==> x !in worlds[m + 1].objs
  {
    hide Settled, Touches, Enabled, Apply, OnlyQueued, Expire;
    AgesByTicks(acts, worlds, k, m, x);
    RunIsSafe(acts, worlds, m);
    TickInRun(worlds[m], acts[m], x);
  }

  /** A user reference takes an object out of the queue with the next tick, without its being deleted. */
  lemma RetainedLeavesQueue(w: World, order: seq<Addr>, x: Addr)
    requires Settled(w) && x in w.queue && Enabled(w, DoTesRetain(x))
    requires Lists(order, Expire(TesRetain(w, x)).releasing)
    ensures var t := Tick(TesRetain(w, x), order);
            x in t.objs && x !in t.queue && t.objs[x].tes == w.objs[x].tes + 1 && Owned(t, x)
  {
    var u := TesRetain(w, x);
    StepFacts(w, DoTesRetain(x));
    assert u.objs[x].tes > 0 && x in u.queue && Expires(u.queue[x]);
    hide Linked;
    ListsFacts(order, Expire(u).releasing);
    ExpireFacts(u);
    TickFacts(u, order);
    assert Settled(u);
    DropsFacts(Expire(u), order);
    DropsSpare(Expire(u), order, x);
  }

  lemma DropSpares(w: World, y: Addr, x: Addr)
    requires Safe(w) && y in w.releasing && x in w.objs && w.objs[x].tes > 0 && x !in w.queue
    ensures x in Drop(w, y).objs && x !in Drop(w, y).queue && Drop(w, y).objs[x] == w.objs[x]
  {
    hide Linked, Safe;
  }

  /** An object with a user reference is not deleted and does not come back into the queue. */
  lemma {:induction false} DropsSpare(w: World, order: seq<Addr>, x: Addr)
    requires Safe(w) && (forall i | 0 <= i < |order| :: order[i] in w.releasing)
    requires forall i, j | 0 <= i < j < |order| :: order[i] != order[j]
    requires x in w.objs && w.objs[x].tes > 0 && x !in w.queue
    ensures x in Drops(w, order).objs && x !in Drops(w, order).queue && Drops(w, order).objs[x] == w.objs[x]
  {
    hide Linked, Safe, Drop;
    if order != [] {
      var front, y := order[..|order| - 1], order[|order| - 1];
      DropsSpare(w, front, x);
      DropsFacts(w, front);
      assert y in Drops(w, front).releasing by {
        assert forall i | 0 <= i < |front| :: front[i] == order[i];
      }
      InReleasing(Drops(w, front), y);
      DropSpares(Drops(w, front), y, x);
    }
  }

  // ------------------------------------------------------------------ acyclic graphs

  /** Some slot of a holds b. */
  ghost predicate Joined(links: Links, a: Addr, b: Addr)
  {
    exists i :: i in links && links[i] == Link(a, b)
  }

  /** Objects each of which holds the next in a slot. */
  ghost predicate IsChain(w: World, p: seq<Addr>)
  {
    && p != [] && (forall i | 0 <= i < |p| :: p[i] in w.objs)
    && forall i | 0 <= i < |p| - 1 :: Joined(w.links, p[i], p[i + 1])
  }

  ghost predicate IsCycle(w: World, p: seq<Addr>)
  {
    IsChain(w, p) && |p| > 1 && p[0] == p[|p| - 1]
  }

  ghost predicate Acyclic(w: World)
  {
    forall p :: !IsCycle(w, p)
  }

  /** No chain has more than n objects. */
  ghost predicate Bounded(w: World, n: nat)
  {
    forall p | IsChain(w, p) :: |p| <= n
  }

  ghost predicate IsLongest(w: World, n: nat)
  {
    Bounded(w, n) && (n > 0 ==> exists p :: IsChain(w, p) && |p| == n)
  }

  lemma PartOfChain(w: World, p: seq<Addr>, i: nat, j: nat)
    requires IsChain(w, p) && i < j <= |p|
    ensures IsChain(w, p[i..j])
  {
    forall k | 0 <= k < j - i - 1 ensures Joined(w.links, p[i..j][k], p[i..j][k + 1]) {
      assert Joined(w.links, p[i + k], p[i + k + 1]);
    }
  }

  lemma {:induction false} DistinctSize(p: seq<Addr>, s: set<Addr>)
    requires forall i | 0 <= i < |p| :: p[i] in s
    requires forall i, j | 0 <= i < j < |p| :: p[i] != p[j]
    ensures |p| <= |s|
  {
    if p != [] {
      var front, x := p[..|p| - 1], p[|p| - 1];
      DistinctSize(front, s - {x});
    }
  }

  /** In an acyclic world no object occurs twice in a chain. */
  lemma AcyclicIsBounded(w: World)
    requires Acyclic(w)
    ensures Bounded(w, |w.objs|)
  {
    forall p | IsChain(w, p) ensures |p| <= |w.objs| {
      forall i, j | 0 <= i < j < |p| ensures p[i] != p[j] {
        PartOfChain(w, p, i, j + 1);
        assert p[i..j + 1][0] == p[i] && p[i..j + 1][j - i] == p[j];
        assert !IsCycle(w, p[i..j + 1]);
      }
      DistinctSize(p, w.objs.Keys);
    }
  }

  lemma {:induction false} HasLongest(w: World, bound: nat) returns (n: nat)
    requires Bounded(w, bound)
    ensures IsLongest(w, n)
  {
    if bound > 0 && Bounded(w, bound - 1) {
      n := HasLongest(w, bound - 1);
    } else {
      n := bound;
    }
  }

  /** The number of objects in the longest chain of an acyclic world. */
  ghost function LongestChain(w: World): (n: nat)
    requires Acyclic(w)
    ensures IsLongest(w, n)
  {
    assert exists n: nat :: IsLongest(w, n) by {
      AcyclicIsBounded(w);
      var n := HasLongest(w, |w.objs|);
    }
    var n: nat :| IsLongest(w, n);
    n
  }

  /** A chain of k + 1 objects ends at x. */
  ghost predicate EndsAt(w: World, x: Addr, k: nat)
  {
    exists p :: IsChain(w, p) && |p| == k + 1 && p[k] == x
  }

  /** The greatest k up to n for which that holds. */
  ghost function Depth(w: World, x: Addr, n: nat): (k: nat)
    ensures k <= n
    ensures forall j: nat | j <= n && EndsAt(w, x, j) :: j <= k
    ensures x in w.objs ==> EndsAt(w, x, k)
  {
    if n == 0 then
      assert x in w.objs ==> IsChain(w, [x]) && [x][0] == x;
      0
    else if EndsAt(w, x, n) then n
    else Depth(w, x, n - 1)
  }

  /** Slots lead from lower to higher depths. */
  lemma DeeperBySlot(w: World, n: nat, i: nat)
    requires Safe(w) && Bounded(w, n) && i in w.links
    ensures n > 0 && Depth(w, w.links[i].owner, n - 1) < Depth(w, w.links[i].target, n - 1)
  {
    var a, b := w.links[i].owner, w.links[i].target;
    assert IsChain(w, [a]);
    var k := Depth(w, a, n - 1);
    var p :| IsChain(w, p) && |p| == k + 1 && p[k] == a;
    var q := p + [b];
    assert IsChain(w, q) by {
      assert w.links[i] == Link(a, b) && Joined(w.links, a, b);
    }
    assert q[k + 1] == b && EndsAt(w, b, k + 1);
  }

  /** After five ticks per level only objects of greater depth are left. */
  lemma {:induction false} LevelsGone(worlds: seq<World>, orders: seq<seq<Addr>>, n: nat, m: nat)
    requires IsIdle(worlds, orders) && Quiet(worlds[0]) && Bounded(worlds[0], n) && 0 < n
    requires LIFE_IN_TICKS * m < |worlds|
    ensures forall x | x in worlds[LIFE_IN_TICKS * m].objs :: Depth(worlds[0], x, n - 1) >= m
  {
    hide Quiet, Bounded, Depth, OnlyQueued;
    if m > 0 {
      var k := LIFE_IN_TICKS * (m - 1);
      LevelsGone(worlds, orders, n, m - 1);
      IdleQuiet(worlds, orders, k);
      IdleShrinks(worlds, orders, 0, k);
      IdleShrinks(worlds, orders, k, k + LIFE_IN_TICKS);
      var later := worlds[k + LIFE_IN_TICKS].objs;
      forall x | x in later ensures Depth(worlds[0], x, n - 1) >= m {
        if Depth(worlds[0], x, n - 1) == m - 1 {
          LowestOnlyQueued(worlds[k], worlds[0], n, x);
          GoneInFive(worlds, orders, k, x);
        }
      }
    }
  }

  lemma LowestOnlyQueued(w: World, start: World, n: nat, x: Addr)
    requires Quiet(w) && Quiet(start) && Fewer(w.links, start.links) && Bounded(start, n) && 0 < n
    requires x in w.objs && forall y | y in w.objs :: Depth(start, y, n - 1) >= Depth(start, x, n - 1)
    ensures Settled(w) && OnlyQueued(w, x)
  {
    hide Bounded, Depth;
    forall i | i in w.links ensures w.links[i].target != x {
      assert start.links[i] == w.links[i] && w.links[i].owner in w.objs;
      DeeperBySlot(start, n, i);
    }
  }

  /** Bounded reclamation: once the calls stop, an acyclic graph without user and stack references, all of whose
      objects are in a slot or in the queue, is gone after five ticks per object of its longest chain. */
  lemma AllReclaimed(worlds: seq<World>, orders: seq<seq<Addr>>)
    requires IsIdle(worlds, orders) && Quiet(worlds[0]) && Acyclic(worlds[0])
    requires 5 * LongestChain(worlds[0]) < |worlds|
    ensures worlds[5 * LongestChain(worlds[0])].objs == map[]
  {
    var w, n := worlds[0], LongestChain(worlds[0]);
    if n > 0 {
      LevelsGone(worlds, orders, n, n);
      IdleShrinks(worlds, orders, 0, LIFE_IN_TICKS * n);
      assert worlds[LIFE_IN_TICKS * n].objs.Keys == {};
    } else {
      forall x | x in w.objs ensures false {
        assert IsChain(w, [x]);
      }
      assert w.objs.Keys == {};
    }
  }

  lemma OnCycleIsLinked(w: World, p: seq<Addr>, i: nat)
    requires IsCycle(w, p) && i < |p|
    ensures Linked(w.links, p[i])
  {
    var j := if i > 0 then i - 1 else |p| - 2;
    assert Joined(w.links, p[j], p[j + 1]);
  }

  lemma DropKeepsCycle(w: World, x: Addr, p: seq<Addr>)
    requires IsCycle(w, p) && x in w.objs
    ensures IsCycle(Drop(w, x), p)
  {
    var t := Drop(w, x);
    hide Linked;
    forall i | 0 <= i < |p| ensures p[i] in t.objs {
      OnCycleIsLinked(w, p, i);
    }
    forall i | 0 <= i < |p| - 1 ensures Joined(t.links, p[i], p[i + 1]) {
      assert Joined(w.links, p[i], p[i + 1]);
      var j :| j in w.links && w.links[j] == Link(p[i], p[i + 1]);
      OnCycleIsLinked(w, p, i);
      assert j in t.links && t.links[j] == Link(p[i], p[i + 1]);
    }
  }

  lemma {:induction false} DropsKeepCycle(w: World, order: seq<Addr>, p: seq<Addr>)
    requires IsCycle(w, p)
    ensures IsCycle(Drops(w, order), p)
  {
    hide IsCycle;
    if order != [] {
      var front, x := order[..|order| - 1], order[|order| - 1];
      DropsKeepCycle(w, front, p);
      if x in Drops(w, front).objs {
        DropKeepsCycle(Drops(w, front), x, p);
      }
    }
  }

  /** Ticks alone never take a cycle apart. */
  lemma {:induction false} CycleStays(worlds: seq<World>, orders: seq<seq<Addr>>, p: seq<Addr>, k: nat)
    requires IsIdle(worlds, orders) && k < |worlds| && IsCycle(worlds[0], p)
    ensures IsCycle(worlds[k], p)
  {
    if k > 0 {
      CycleStays(worlds, orders, p, k - 1);
      assert IsCycle(Expire(worlds[k - 1]), p);
      hide IsCycle, Lists;
      DropsKeepCycle(Expire(worlds[k - 1]), orders[k - 1], p);
    }
  }

  /** Ticks alone empty a world without user and stack references exactly if it is acyclic; the others are
      what the garbage collector is for. */
  lemma ReclaimedIfAcyclic(worlds: seq<World>, orders: seq<seq<Addr>>)
    requires IsIdle(worlds, orders) && Quiet(worlds[0]) && 5 * |worlds[0].objs| < |worlds|
    ensures worlds[|worlds| - 1].objs == map[] <==> Acyclic(worlds[0])
  {
    hide Quiet, IsIdle, IsCycle;
    if Acyclic(worlds[0]) {
      EmptyAtLast(worlds, orders);
    } else {
      var p :| IsCycle(worlds[0], p);
      CycleStays(worlds, orders, p, |worlds| - 1);
      CycleIsThere(worlds[|worlds| - 1], p);
    }
  }

  lemma CycleIsThere(w: World, p: seq<Addr>)
    requires IsCycle(w, p)
    ensures w.objs != map[]
  {
    assert p[0] in w.objs;
  }

  lemma EmptyAtLast(worlds: seq<World>, orders: seq<seq<Addr>>)
    requires IsIdle(worlds, orders) && Quiet(worlds[0]) && 5 * |worlds[0].objs| < |worlds| &&
             Acyclic(worlds[0])
    ensures worlds[|worlds| - 1].objs == map[]
  {
    hide Quiet, Acyclic, Bounded, IsIdle;
    AcyclicIsBounded(worlds[0]);
    var n, last := LongestChain(worlds[0]), |worlds| - 1;
    LongestWithin(worlds[0], n, |worlds[0].objs|);
    AllReclaimed(worlds, orders);
    IdleShrinks(worlds, orders, LIFE_IN_TICKS * n, last);
    assert worlds[last].objs.Keys == {};
  }

  lemma LongestWithin(w: World, n: nat, bound: nat)
    requires IsLongest(w, n) && Bounded(w, bound)
    ensures n <= bound
  {
  }
}
