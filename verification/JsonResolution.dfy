/** Filling in reference slots: what a reference resolves to does not depend on the order of resolution. */
module JsonResolution {
  import opened Wrappers
  import opened Numerals
  import opened FormCodec
  import opened Graph
  import opened Collections
  import opened Paths
  import opened JsonEncoding
  import opened JsonDecoding

  type Pending = map<string, seq<(Addr, Key)>>

  /** The object a reference path names, looked up in a heap. */
  function Target(mods: Mods, heap: Heap, root: Addr, path: string): Option<Addr>
  {
    if path == "" then Some(root)
    else
      match GetAt(mods, heap, root, path)
      case Some(Object(b)) => Some(b)
      case _ => None
  }

  function AssignOne(heap: Heap, x: (Addr, Key), b: Addr): Heap
  {
    if x.0 in heap && Put(heap[x.0], x.1, Object(b)).Some? then heap[x.0 := Put(heap[x.0], x.1, Object(b)).value]
      else heap
  }

  function AssignAll(heap: Heap, xs: seq<(Addr, Key)>, b: Addr): Heap
  {
    if xs == [] then heap else AssignOne(AssignAll(heap, xs[..|xs| - 1], b), xs[|xs| - 1], b)
  }

  /** Every slot to resolve is there and blank. */
  ghost predicate Blanks(heap: Heap, pending: Pending)
  {
    forall path, x | path in pending && x in pending[path] ::
      x.0 in heap && HasStored(heap[x.0], x.1, Blank) && (heap[x.0].Tree? ==> Accepts(heap[x.0].kind, x.1))
  }

  /** No slot waits for two different paths. */
  ghost predicate OnePath(pending: Pending)
  {
    forall p, q, x, y | p in pending && q in pending && x in pending[p] && y in pending[q]
      && x.0 == y.0 && Norm(x.1) == Norm(y.1) :: p == q
  }

  ghost predicate Tidy(heap: Heap, pending: Pending)
  {
    Blanks(heap, pending) && OnePath(pending)
  }

  ghost predicate Awaits(pending: Pending, paths: set<string>, a: Addr, q: Key)
  {
    exists path, x :: path in paths && path in pending && x in pending[path] && x.0 == a && Norm(x.1) == q
  }

  /** The same slots under the same spellings. */
  ghost predicate SameSlots(c: Container, d: Container)
  {
    && c.Array? == d.Array? && (c.Tree? ==> c.kind == d.kind)
    && (forall q :: HasSlot(c, q) <==> HasSlot(d, q))
    && (forall q | HasSlot(c, q) :: SpellingAt(c, q) == SpellingAt(d, q))
    && (c.Array? ==> |c.items| == |d.items|)
  }

  /** now is start with some of the slots that wait for the given paths filled in. */
  ghost predicate Between(start: Heap, now: Heap, pending: Pending, paths: set<string>)
  {
    && start.Keys == now.Keys
    && (forall a | a in start :: SameSlots(start[a], now[a]))
    && (forall a, q | a in start && HasSlot(start[a], q) && !Awaits(pending, paths, a, q) ::
          ItemAt(now[a], q) == ItemAt(start[a], q))
  }

  ghost predicate Holds(heap: Heap, x: (Addr, Key), b: Addr)
  {
    x.0 in heap && HasStored(heap[x.0], x.1, Object(b))
  }

  /** Slots waiting for a path that already led to an object before anything was resolved hold that object. */
  ghost predicate Settled(mods: Mods, start: Heap, now: Heap, pending: Pending, root: Addr, paths: set<string>)
  {
    forall path, x | path in paths && path in pending && x in pending[path] && Target(mods, start, root, path).Some? ::
      Holds(now, x, Target(mods, start, root, path).value)
  }

  // ------------------------------------------------------------------ lookups survive resolution

  lemma SlotNotBlank(start: Heap, now: Heap, pending: Pending, paths: set<string>, a: Addr, q: Key)
    requires Tidy(start, pending) && Between(start, now, pending, paths)
    requires a in start && HasSlot(start[a], q) && ItemAt(start[a], q) != Blank
    ensures ItemAt(now[a], q) == ItemAt(start[a], q)
  {
    forall path, x | path in paths && path in pending && x in pending[path] && x.0 == a ensures Norm(x.1) != q {
      assert HasStored(start[a], x.1, Blank);
    }
  }

  ghost predicate SmallArrays(heap: Heap)
  {
    forall a | a in heap && heap[a].Array? :: |heap[a].items| <= INT_MAX
  }

  /** The slot a key addresses. */
  ghost function SlotKey(c: Container, k: Key): Key
    requires Get(c, k).Some? && (c.Array? ==> |c.items| <= INT_MAX)
  {
    if c.Array? then IntKey(ConvertIndex(|c.items|, k.index).value) else Norm(k)
  }

  lemma GetIsItemAt(c: Container, k: Key)
    requires Get(c, k).Some? && (c.Array? ==> |c.items| <= INT_MAX)
    ensures HasSlot(c, SlotKey(c, k)) && Get(c, k) == Some(ItemAt(c, SlotKey(c, k)))
  {
  }

  lemma SameSlotsGet(c: Container, d: Container, k: Key)
    requires SameSlots(c, d) && Get(c, k).Some? && (c.Array? ==> |c.items| <= INT_MAX)
    ensures Get(d, k).Some? && SlotKey(d, k) == SlotKey(c, k)
  {
    assert HasSlot(c, SlotKey(c, k));
  }

  lemma ObjectStays(start: Heap, now: Heap, pending: Pending, paths: set<string>, a: Addr, k: Key)
    requires Tidy(start, pending) && Between(start, now, pending, paths) && SmallArrays(start)
    requires a in start && Get(start[a], k).Some? && Get(start[a], k).value.Object?
    ensures a in now && Get(now[a], k) == Get(start[a], k)
  {
    GetIsItemAt(start[a], k);
    SlotNotBlank(start, now, pending, paths, a, SlotKey(start[a], k));
    SameSlotsGet(start[a], now[a], k);
    GetIsItemAt(now[a], k);
  }

  lemma {:induction false} RetrieveStays(mods: Mods, start: Heap, now: Heap, pending: Pending, paths: set<string>,
                                         a: Addr, path: string)
    requires Tidy(start, pending) && Between(start, now, pending, paths) && SmallArrays(start)
    requires Retrieve(mods, start, a, path).Some?
    ensures Retrieve(mods, now, a, path) == Retrieve(mods, start, a, path)
    decreases |path|
  {
    var kr := ParsePath(mods, path).value;
    if kr.rest != "" {
      var b := Step(start, a, kr.key).value;
      ObjectStays(start, now, pending, paths, a, kr.key);
      RetrieveStays(mods, start, now, pending, paths, b, kr.rest);
    }
  }

  /** A path that led to an object before resolution leads to the same object at any moment of it. */
  lemma TargetStays(mods: Mods, start: Heap, now: Heap, pending: Pending, paths: set<string>, root: Addr, path: string)
    requires Tidy(start, pending) && Between(start, now, pending, paths) && SmallArrays(start)
    requires Target(mods, start, root, path).Some?
    ensures Target(mods, now, root, path) == Target(mods, start, root, path)
  {
    if path != "" {
      var acc := AccessConstant(mods, start, root, path).value;
      RetrieveStays(mods, start, now, pending, paths, root, Limit(path));
      ObjectStays(start, now, pending, paths, acc.collection, acc.key);
    }
  }

  // ------------------------------------------------------------------ one path resolved

  lemma PutStored(c: Container, k: Key, b: Addr)
    requires HasSlot(c, Norm(k)) && SpellingAt(c, Norm(k)) == k
    requires (c.Tree? ==> Accepts(c.kind, k)) && (c.Array? ==> |c.items| <= INT_MAX)
    ensures Put(c, k, Object(b)).Some?
    ensures var d := Put(c, k, Object(b)).value;
            && SameSlots(c, d) && HasStored(d, k, Object(b))
            && forall q | HasSlot(c, q) && q != Norm(k) :: ItemAt(d, q) == ItemAt(c, q)
  {
  }

  lemma BetweenKeeps(start: Heap, now: Heap, pending: Pending, paths: set<string>, x: (Addr, Key))
    requires Between(start, now, pending, paths) && x.0 in start && HasStored(start[x.0], x.1, Blank)
    requires start[x.0].Tree? ==> Accepts(start[x.0].kind, x.1)
    requires start[x.0].Array? ==> |start[x.0].items| <= INT_MAX
    ensures x.0 in now && HasSlot(now[x.0], Norm(x.1)) && SpellingAt(now[x.0], Norm(x.1)) == x.1
    ensures (now[x.0].Tree? ==> Accepts(now[x.0].kind, x.1)) && (now[x.0].Array? ==> |now[x.0].items| <= INT_MAX)
  {
    assert HasSlot(start[x.0], Norm(x.1));
  }

  lemma AssignStep(start: Heap, now: Heap, pending: Pending, paths: set<string>, path: string, x: (Addr, Key), b: Addr)
    requires Tidy(start, pending) && Between(start, now, pending, paths) && SmallArrays(start)
    requires path in paths && path in pending && x in pending[path]
    ensures var h := AssignOne(now, x, b);
            Between(start, h, pending, paths) && x.0 in h && HasStored(h[x.0], x.1, Object(b))
  {
    assert HasStored(start[x.0], x.1, Blank);
    {
      hide Between, HasStored, Awaits;
      BetweenKeeps(start, now, pending, paths, x);
    }
    hide Tidy, SmallArrays;
    PutStored(now[x.0], x.1, b);
    assert Awaits(pending, paths, x.0, Norm(x.1));
    hide Awaits, Put, HasStored;
    BetweenWritten(start, now, pending, paths, x.0, AssignOne(now, x, b)[x.0], Norm(x.1));
  }

  /** One object changed in a slot that waits. */
  lemma BetweenWritten(start: Heap, now: Heap, pending: Pending, paths: set<string>, a: Addr, d: Container, at: Key)
    requires Between(start, now, pending, paths) && a in now && SameSlots(now[a], d) && Awaits(pending, paths, a, at)
    requires forall q | HasSlot(now[a], q) && q != at :: ItemAt(d, q) == ItemAt(now[a], q)
    ensures Between(start, now[a := d], pending, paths)
  {
    hide HasSlot, ItemAt, SpellingAt, Awaits;
    SameSlotsThrough(start[a], now[a], d);
  }

  lemma SameSlotsThrough(c: Container, d: Container, e: Container)
    requires SameSlots(c, d) && SameSlots(d, e)
    ensures SameSlots(c, e)
  {
    hide HasSlot, SpellingAt;
  }

  /** Assigning one slot leaves what the others hold. */
  lemma OthersKept(start: Heap, now: Heap, pending: Pending, paths: set<string>, path: string, x: (Addr, Key), b: Addr,
                   y: (Addr, Key), i: Item)
    requires Tidy(start, pending) && Between(start, now, pending, paths) && SmallArrays(start)
    requires path in paths && path in pending && x in pending[path]
    requires y.0 in now && HasStored(now[y.0], y.1, i) && (y.0 != x.0 || Norm(y.1) != Norm(x.1))
    ensures y.0 in AssignOne(now, x, b) && HasStored(AssignOne(now, x, b)[y.0], y.1, i)
  {
    assert HasStored(start[x.0], x.1, Blank);
    {
      hide Between, HasStored, Awaits;
      BetweenKeeps(start, now, pending, paths, x);
    }
    hide Tidy, Between, SmallArrays;
    PutStored(now[x.0], x.1, b);
    hide Put;
    if y.0 == x.0 {
      OtherStored(now[x.0], AssignOne(now, x, b)[x.0], Norm(x.1), y.1, i);
    }
  }

  lemma OtherStored(c: Container, d: Container, at: Key, k: Key, i: Item)
    requires SameSlots(c, d) && HasStored(c, k, i) && Norm(k) != at
    requires forall q | HasSlot(c, q) && q != at :: ItemAt(d, q) == ItemAt(c, q)
    ensures HasStored(d, k, i)
  {
    assert HasSlot(c, Norm(k));
  }

  ghost predicate SameSlotAs(x: (Addr, Key), y: (Addr, Key))
  {
    x.0 == y.0 && Norm(x.1) == Norm(y.1)
  }

  lemma {:induction false} AssignAllSteps(start: Heap, now: Heap, pending: Pending, paths: set<string>, path: string,
                                          xs: seq<(Addr, Key)>, b: Addr)
    requires Tidy(start, pending) && Between(start, now, pending, paths) && SmallArrays(start)
    requires path in paths && path in pending && forall x | x in xs :: x in pending[path]
    ensures var h := AssignAll(now, xs, b);
            && Between(start, h, pending, paths)
            && forall x | x in xs :: x.0 in h && HasStored(h[x.0], x.1, Object(b))
  {
    if xs != [] {
      var front, last := xs[..|xs| - 1], xs[|xs| - 1];
      AssignAllSteps(start, now, pending, paths, path, front, b);
      var mid := AssignAll(now, front, b);
      AssignStep(start, mid, pending, paths, path, last, b);
      forall x | x in xs
        ensures x.0 in AssignOne(mid, last, b) && HasStored(AssignOne(mid, last, b)[x.0], x.1, Object(b))
      {
        if x != last {
          assert x in front;
          if SameSlotAs(x, last) {
            SameStored(start, mid, pending, paths, path, x, last);
          } else {
            OthersKept(start, mid, pending, paths, path, last, b, x, Object(b));
          }
        }
      }
    }
  }

  /** Two pending entries for one slot carry the same spelling. */
  lemma SameStored(start: Heap, now: Heap, pending: Pending, paths: set<string>, path: string, x: (Addr, Key),
                   y: (Addr, Key))
    requires Tidy(start, pending) && path in pending && x in pending[path] && y in pending[path] && SameSlotAs(x, y)
    ensures x == y
  {
    assert HasStored(start[x.0], x.1, Blank) && HasStored(start[y.0], y.1, Blank);
  }

  lemma {:induction false} AssignAllKeeps(start: Heap, now: Heap, pending: Pending, paths: set<string>, path: string,
                                          xs: seq<(Addr, Key)>, b: Addr,
                       y: (Addr, Key), i: Item)
    requires Tidy(start, pending) && Between(start, now, pending, paths) && SmallArrays(start)
    requires path in paths && path in pending && forall x | x in xs :: x in pending[path]
    requires y.0 in now && HasStored(now[y.0], y.1, i) && forall x | x in xs :: !SameSlotAs(x, y)
    ensures var h := AssignAll(now, xs, b); y.0 in h && HasStored(h[y.0], y.1, i)
  {
    if xs != [] {
      var front := xs[..|xs| - 1];
      assert !SameSlotAs(xs[|xs| - 1], y);
      AssignAllSteps(start, now, pending, paths, path, front, b);
      AssignAllKeeps(start, now, pending, paths, path, front, b, y, i);
      OthersKept(start, AssignAll(now, front, b), pending, paths, path, xs[|xs| - 1], b, y, i);
    }
  }

  // ------------------------------------------------------------------ all paths resolved

  /** What is true after the given paths have been resolved, in whatever order. */
  ghost predicate Resolving(mods: Mods, start: Heap, now: Heap, pending: Pending, root: Addr, paths: set<string>)
  {
    Between(start, now, pending, paths) && Settled(mods, start, now, pending, root, paths)
  }

  function ResolvePath(mods: Mods, heap: Heap, pending: Pending, root: Addr, path: string): Heap
    requires path in pending
  {
    match Target(mods, heap, root, path)
    case None => heap
    case Some(b) => AssignAll(heap, pending[path], b)
  }

  /** A reference whose path goes through a form key with a bracket in it is not resolved. */
  lemma BracketLosesReference(mods: Mods, heap: Heap, pending: Pending, root: Addr, ks: seq<Key>, i: nat)
    requires i < |ks| && PathKeys(mods, ks[..i]) && Bracketed(mods, ks[i])
    requires |PrintKeys(mods, ks)| <= PATH_LENGTH_MAX && PrintKeys(mods, ks) in pending
    ensures ResolvePath(mods, heap, pending, root, PrintKeys(mods, ks)) == heap
  {
    hide PrintKeys, GetAt, Bracketed, PathKeys;
    PrintedBoundary(mods, ks);
    BracketLosesWay(mods, heap, root, ks, i);
  }

  lemma BetweenMore(start: Heap, now: Heap, pending: Pending, paths: set<string>, path: string)
    requires Between(start, now, pending, paths)
    ensures Between(start, now, pending, paths + {path})
  {
    forall a, q | a in start && HasSlot(start[a], q) && !Awaits(pending, paths + {path}, a, q)
      ensures ItemAt(now[a], q) == ItemAt(start[a], q)
    {
      assert !Awaits(pending, paths, a, q);
    }
  }

  lemma OtherPathsApart(heap: Heap, pending: Pending, path: string, p: string, x: (Addr, Key))
    requires Tidy(heap, pending) && path in pending && p in pending && p != path && x in pending[p]
    ensures forall y | y in pending[path] :: !SameSlotAs(y, x)
  {
  }

  /** A slot settled earlier stays settled. */
  lemma SettledOld(mods: Mods, start: Heap, now: Heap, pending: Pending, root: Addr, paths: set<string>, path: string,
                   p: string, x: (Addr, Key), b: Addr)
    requires Tidy(start, pending) && SmallArrays(start) && Between(start, now, pending, paths + {path})
    requires path in pending && p in pending && p != path && x in pending[p] && Holds(now, x, b)
    ensures Holds(ResolvePath(mods, now, pending, root, path), x, b)
  {
    hide Between, Tidy, SmallArrays, Target, HasStored, SameSlotAs;
    OtherPathsApart(start, pending, path, p, x);
    var found := Target(mods, now, root, path);
    if found.Some? {
      AssignAllKeeps(start, now, pending, paths + {path}, path, pending[path], found.value, x, Object(b));
    }
  }

  /** Resolving a path that led somewhere from the start settles all its slots. */
  lemma SettledNew(mods: Mods, start: Heap, now: Heap, pending: Pending, root: Addr, paths: set<string>, path: string)
    requires Tidy(start, pending) && SmallArrays(start) && Between(start, now, pending, paths + {path}) &&
             path in pending
    ensures Between(start, ResolvePath(mods, now, pending, root, path), pending, paths + {path})
    ensures Target(mods, start, root, path).Some? ==>
              forall x | x in pending[path] ::
                Holds(ResolvePath(mods, now, pending, root, path), x, Target(mods, start, root, path).value)
  {
    hide Between, Tidy, SmallArrays, Target, HasStored;
    var found := Target(mods, now, root, path);
    if Target(mods, start, root, path).Some? {
      TargetStays(mods, start, now, pending, paths + {path}, root, path);
    }
    if found.Some? {
      AssignAllSteps(start, now, pending, paths + {path}, path, pending[path], found.value);
    }
  }

  lemma ResolveStep(mods: Mods, start: Heap, now: Heap, pending: Pending, root: Addr, paths: set<string>, path: string)
    requires Tidy(start, pending) && SmallArrays(start) && Resolving(mods, start, now, pending, root, paths)
    requires path in pending && path !in paths
    ensures Resolving(mods, start, ResolvePath(mods, now, pending, root, path), pending, root, paths + {path})
  {
    hide Between, Tidy, SmallArrays, Target, HasStored, ResolvePath;
    BetweenMore(start, now, pending, paths, path);
    SettledNew(mods, start, now, pending, root, paths, path);
    var h := ResolvePath(mods, now, pending, root, path);
    forall p, x | p in paths + {path} && p in pending && x in pending[p] && Target(mods, start, root, p).Some?
      ensures Holds(h, x, Target(mods, start, root, p).value)
    {
      if p != path {
        SettledOld(mods, start, now, pending, root, paths, path, p, x, Target(mods, start, root, p).value);
      }
    }
  }

  lemma NothingResolved(mods: Mods, start: Heap, pending: Pending, root: Addr)
    ensures Resolving(mods, start, start, pending, root, {})
  {
  }

  ghost predicate Listed(pending: Pending, a: Addr)
  {
    exists path, x :: path in pending && x in pending[path] && x.0 == a
  }

  /** Only objects on the list are written to. */
  lemma {:induction false} AssignAllFrame(heap: Heap, xs: seq<(Addr, Key)>, b: Addr, a: Addr)
    requires a in heap && forall x | x in xs :: x.0 != a
    ensures a in AssignAll(heap, xs, b) && AssignAll(heap, xs, b)[a] == heap[a]
  {
    if xs != [] {
      AssignAllFrame(heap, xs[..|xs| - 1], b, a);
      assert xs[|xs| - 1] in xs;
    }
  }

  lemma ResolveFrame(mods: Mods, heap: Heap, pending: Pending, root: Addr, path: string)
    requires path in pending
    ensures forall a | a in heap && !Listed(pending, a) ::
              a in ResolvePath(mods, heap, pending, root, path) &&
                ResolvePath(mods, heap, pending, root, path)[a] == heap[a]
  {
    var found := Target(mods, heap, root, path);
    if found.Some? {
      forall a | a in heap && !Listed(pending, a)
        ensures a in AssignAll(heap, pending[path], found.value) &&
                AssignAll(heap, pending[path], found.value)[a] == heap[a]
      {
        forall x | x in pending[path] ensures x.0 != a {
        }
        AssignAllFrame(heap, pending[path], found.value, a);
      }
    }
  }
}
