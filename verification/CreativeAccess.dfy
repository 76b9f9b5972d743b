/** Assigning to a path, with missing containers created on the way. */
module CreativeAccess {
  import opened Wrappers
  import opened FormCodec
  import opened Graph
  import opened Collections
  import opened Paths

  // ------------------------------------------------------------------ what the walk does

  datatype Found = Absent | NoObject | Holds(obj: Addr)

  datatype Walk<T> = Walk(heap: Heap, next: Addr, result: T)

  /** The container created for a missing key depends on the key that follows it. */
  function ContainerFor(key: Key): Container
  {
    match key
    case IntKey(_) => Tree(IntMapKind, map[])
    case NameKey(_) => Tree(MapKind, map[])
    case FormKey(_) => Tree(FormMapKind, map[])
  }

  function Classify(item: Item): Found
  {
    if item.Object? then Holds(item.ref) else NoObject
  }

  /** creative_accessor::access_value */
  function CreativeStep(mods: Mods, heap: Heap, next: Addr, a: Addr, kr: KeyAndRest): Walk<Found>
    requires a in heap
  {
    match Get(heap[a], kr.key)
    case Some(item) => Walk(heap, next, Classify(item))
    case None =>
      match Put(heap[a], kr.key, Blank)
      case None => Walk(heap, next, Absent)
      case Some(blank) =>
        match ParsePath(mods, kr.rest)
        case None => Walk(heap[a := blank], next, NoObject)
        case Some(following) =>
          var made := Put(blank, kr.key, Object(next));
          Walk(heap[a := if made.Some? then made.value else blank][next := ContainerFor(following.key)], next + 1,
            Holds(next))
  }

  /** last_kv_pair_retriever with the creative accessor. */
  function CreativeRetrieve(mods: Mods, heap: Heap, next: Addr, a: Addr, path: string): Walk<Option<Access>>
    decreases |path|
  {
    match ParsePath(mods, path)
    case None => Walk(heap, next, None)
    case Some(kr) =>
      if a !in heap then Walk(heap, next, None)
      else
        var step := CreativeStep(mods, heap, next, a, kr);
        if kr.rest == "" then Walk(step.heap, step.next, Some(Access(a, kr.key)))
        else
          match step.result
          case Holds(b) => CreativeRetrieve(mods, step.heap, step.next, b, kr.rest)
          case _ => Walk(step.heap, step.next, None)
  }

  /** The containers and keys that the walk comes to. */
  function Visits(mods: Mods, heap: Heap, next: Addr, a: Addr, path: string): set<(Addr, Key)>
    decreases |path|
  {
    match ParsePath(mods, path)
    case None => {}
    case Some(kr) =>
      if a !in heap then {}
      else
        var step := CreativeStep(mods, heap, next, a, kr);
        {(a, kr.key)} +
        (if kr.rest != "" && step.result.Holds? then Visits(mods, step.heap, step.next, step.result.obj, kr.rest)
          else {})
  }

  /** One of the slots that a walk reads before its last key. */
  predicate Crosses(mods: Mods, heap: Heap, a: Addr, path: string, c: Addr, k: Key)
    decreases |path|
  {
    match ParsePath(mods, path)
    case None => false
    case Some(kr) =>
      if kr.rest == "" || a !in heap then false
      else
        || (a == c && SameSlot(heap[a], kr.key, k))
        || (Step(heap, a, kr.key).Some? && Crosses(mods, heap, Step(heap, a, kr.key).value, kr.rest, c, k))
  }

  // ------------------------------------------------------------------ only missing slots are added

  /** Every slot of h reads the same in t, and t has new slots of objects of h only at the given keys. */
  ghost predicate Extends(h: Heap, t: Heap, next: Addr, visits: set<(Addr, Key)>)
  {
    && (forall a | a in h :: a in t)
    && (forall a | a in t :: a in h || a >= next)
    && (forall a, q | a in h && Get(h[a], q).Some? :: Get(t[a], q) == Get(h[a], q))
    && (forall a, q | a in h && Get(t[a], q).Some? && Get(h[a], q).None? ::
          exists k :: (a, k) in visits && SameSlot(t[a], k, q))
    && (forall a | a in h && h[a].Array? :: t[a] == h[a])
    && (forall a | a in h && h[a].Tree? :: t[a].Tree? && t[a].kind == h[a].kind)
  }

  lemma PutMissing(c: Container, k: Key, v: Item)
    requires Get(c, k).None? && Put(c, k, v).Some?
    ensures c.Tree? && Put(c, k, v).value.Tree? && Put(c, k, v).value.kind == c.kind
    ensures Put(Put(c, k, Blank).value, k, v) == Put(c, k, v)
    ensures forall q | Get(c, q).Some? :: Get(Put(c, k, v).value, q) == Get(c, q)
    ensures forall q | Get(Put(c, k, v).value, q).Some? && Get(c, q).None? :: SameSlot(Put(c, k, v).value, k, q)
    ensures Get(Put(c, k, v).value, k) == Some(v)
  {
    var once := c.slots[Norm(k) := Slot(k, Blank)];
    assert once[Norm(k) := Slot(k, v)] == c.slots[Norm(k) := Slot(k, v)];
  }

  /** A missing key of a filled with v, and perhaps a new object. */
  lemma FillExtends(h: Heap, t: Heap, next: Addr, a: Addr, k: Key, v: Item)
    requires a in h && Get(h[a], k).None? && Put(h[a], k, v).Some? && forall b | b in h :: b < next
    requires t.Keys == h.Keys || t.Keys == h.Keys + {next}
    requires t[a] == Put(h[a], k, v).value && forall b | b in h && b != a :: t[b] == h[b]
    ensures Extends(h, t, next, {(a, k)})
  {
    PutMissing(h[a], k, v);
    hide Get, Put, SameSlot;
    forall b, q | b in h && Get(t[b], q).Some? && Get(h[b], q).None?
      ensures exists k' :: (b, k') in {(a, k)} && SameSlot(t[b], k', q)
    {
      assert b == a && (a, k) in {(a, k)};
    }
  }

  lemma StepExtends(mods: Mods, heap: Heap, next: Addr, a: Addr, kr: KeyAndRest)
    requires a in heap && forall b | b in heap :: b < next
    ensures var step := CreativeStep(mods, heap, next, a, kr);
            && Extends(heap, step.heap, next, {(a, kr.key)}) && next <= step.next
            && (forall b | b in step.heap :: b < step.next)
            && (step.result.Holds? ==> Get(step.heap[a], kr.key) == Some(Object(step.result.obj)))
            && (step.result == NoObject ==> Get(step.heap[a], kr.key).Some?)
  {
    NothingAdded(heap, next, {(a, kr.key)});
    if Get(heap[a], kr.key).None? && Put(heap[a], kr.key, Blank).Some? {
      PutMissing(heap[a], kr.key, Blank);
      PutMissing(heap[a], kr.key, Object(next));
      PutEither(heap[a], kr.key);
      var step := CreativeStep(mods, heap, next, a, kr);
      hide Get, Put, ParsePath, Extends, SameSlot;
      FillExtends(heap, step.heap, next, a, kr.key, if step.result.Holds? then Object(next) else Blank);
    }
    hide Get, Put, ParsePath, Extends, SameSlot;
  }

  lemma NothingAdded(heap: Heap, next: Addr, visits: set<(Addr, Key)>)
    ensures Extends(heap, heap, next, visits)
  {
  }

  lemma PutEither(c: Container, k: Key)
    requires Put(c, k, Blank).Some?
    ensures forall v :: Put(c, k, v).Some?
  {
  }

  lemma ExtendsOn(h: Heap, t: Heap, u: Heap, n: Addr, m: Addr, v: set<(Addr, Key)>, w: set<(Addr, Key)>)
    requires Extends(h, t, n, v) && Extends(t, u, m, w) && n <= m
    ensures Extends(h, u, n, v + w)
  {
    forall a, q | a in h && Get(u[a], q).Some? && Get(h[a], q).None?
      ensures exists k :: (a, k) in v + w && SameSlot(u[a], k, q)
    {
      hide Get;
      if Get(t[a], q).None? {
        var k :| (a, k) in w && SameSlot(u[a], k, q);
        assert (a, k) in v + w;
      } else {
        var k :| (a, k) in v && SameSlot(t[a], k, q);
        assert (a, k) in v + w && SameSlot(u[a], k, q);
      }
    }
    hide Get, SameSlot;
  }

  lemma {:induction false} RetrieveExtends(mods: Mods, heap: Heap, next: Addr, a: Addr, path: string)
    requires forall b | b in heap :: b < next
    ensures var r := CreativeRetrieve(mods, heap, next, a, path);
            && Extends(heap, r.heap, next, Visits(mods, heap, next, a, path))
            && next <= r.next && forall b | b in r.heap :: b < r.next
    decreases |path|
  {
    hide Extends, CreativeStep, Get;
    NothingAdded(heap, next, {});
    if ParsePath(mods, path).Some? && a in heap {
      var kr := ParsePath(mods, path).value;
      var step := CreativeStep(mods, heap, next, a, kr);
      StepExtends(mods, heap, next, a, kr);
      if kr.rest != "" && step.result.Holds? {
        var b := step.result.obj;
        RetrieveExtends(mods, step.heap, step.next, b, kr.rest);
        ExtendsOn(heap, step.heap, CreativeRetrieve(mods, step.heap, step.next, b, kr.rest).heap, next, step.next,
                  {(a, kr.key)}, Visits(mods, step.heap, step.next, b, kr.rest));
      } else {
        assert {(a, kr.key)} + {} == {(a, kr.key)};
      }
    }
  }

  /** A constant walk in the heap left by a creative one ends where the creative one did. */
  lemma {:induction false} CreativeIsConstant(mods: Mods, heap: Heap, next: Addr, a: Addr, path: string)
    requires (forall b | b in heap :: b < next) && CreativeRetrieve(mods, heap, next, a, path).result.Some?
    ensures var r := CreativeRetrieve(mods, heap, next, a, path);
            Retrieve(mods, r.heap, a, path) == r.result && r.result.value.collection in r.heap
    decreases |path|
  {
    hide Extends, CreativeStep, Get;
    var kr := ParsePath(mods, path).value;
    var step := CreativeStep(mods, heap, next, a, kr);
    StepExtends(mods, heap, next, a, kr);
    if kr.rest == "" {
      ExtendsKeeps(heap, step.heap, next, {(a, kr.key)}, a, kr.key);
    } else {
      var b := step.result.obj;
      RetrieveExtends(mods, step.heap, step.next, b, kr.rest);
      CreativeIsConstant(mods, step.heap, step.next, b, kr.rest);
      var last := CreativeRetrieve(mods, step.heap, step.next, b, kr.rest).heap;
      ExtendsKeeps(heap, step.heap, next, {(a, kr.key)}, a, kr.key);
      ExtendsKeeps(step.heap, last, step.next, Visits(mods, step.heap, step.next, b, kr.rest), a, kr.key);
      assert Step(last, a, kr.key) == Some(b);
    }
  }

  lemma ExtendsKeeps(h: Heap, t: Heap, next: Addr, visits: set<(Addr, Key)>, a: Addr, q: Key)
    requires Extends(h, t, next, visits) && a in h
    ensures a in t && (Get(h[a], q).Some? ==> Get(t[a], q) == Get(h[a], q))
  {
  }

  // ------------------------------------------------------------------ the write

  /** A write that misses the slots a walk reads leaves the walk as it was. */
  lemma {:induction false} WriteKeepsWalk(mods: Mods, heap: Heap, a: Addr, path: string, c: Addr, k: Key, v: Item)
    requires c in heap && Put(heap[c], k, v).Some? && !Crosses(mods, heap, a, path, c, k)
    ensures Retrieve(mods, heap[c := Put(heap[c], k, v).value], a, path) == Retrieve(mods, heap, a, path)
    decreases |path|
  {
    var h := heap[c := Put(heap[c], k, v).value];
    if ParsePath(mods, path).Some? && ParsePath(mods, path).value.rest != "" {
      var kr := ParsePath(mods, path).value;
      assert Step(h, a, kr.key) == Step(heap, a, kr.key) by {
        if a == c {
          GetPut(heap[c], k, v, kr.key);
          SameSlotSymmetric(heap[c], k, kr.key);
        }
      }
      hide Get, Put, SameSlot;
      if Step(heap, a, kr.key).Some? {
        WriteKeepsWalk(mods, heap, Step(heap, a, kr.key).value, kr.rest, c, k, v);
      }
    }
  }

  lemma SameSlotSymmetric(c: Container, k: Key, q: Key)
    ensures SameSlot(c, k, q) == SameSlot(c, q, k)
  {
  }

  /** Writing a scalar into a slot the walk reads cuts the walk off. */
  lemma {:induction false} WriteBreaksWalk(mods: Mods, heap: Heap, a: Addr, path: string, c: Addr, k: Key, v: Item)
    requires c in heap && Put(heap[c], k, v).Some? && Crosses(mods, heap, a, path, c, k) && !v.Object?
    ensures Retrieve(mods, heap[c := Put(heap[c], k, v).value], a, path) == None
    decreases |path|
  {
    var h := heap[c := Put(heap[c], k, v).value];
    var kr := ParsePath(mods, path).value;
    if a == c {
      GetPut(heap[c], k, v, kr.key);
      SameSlotSymmetric(heap[c], k, kr.key);
    }
    hide Put, SameSlot;
    if Step(h, a, kr.key).Some? {
      assert Step(h, a, kr.key) == Step(heap, a, kr.key);
      WriteBreaksWalk(mods, heap, Step(heap, a, kr.key).value, kr.rest, c, k, v);
    }
  }

  // ------------------------------------------------------------------ assign

  /** What ca::assign in creative mode leaves behind and returns. */
  function AssignCreative(mods: Mods, heap: Heap, next: Addr, a: Addr, path: string, v: Item): Walk<bool>
  {
    var r := CreativeRetrieve(mods, heap, next, a, Limit(path));
    match r.result
    case None => Walk(r.heap, r.next, false)
    case Some(acc) =>
      if acc.collection !in r.heap then Walk(r.heap, r.next, false)
      else
        match Put(r.heap[acc.collection], acc.key, v)
        case None => Walk(r.heap, r.next, false)
        case Some(c) => Walk(r.heap[acc.collection := c], r.next, true)
  }

  /** The slot an assignment writes lies on the way to it. */
  predicate OverwritesItsWay(mods: Mods, heap: Heap, next: Addr, a: Addr, path: string)
  {
    var r := CreativeRetrieve(mods, heap, next, a, Limit(path));
    r.result.Some? && Crosses(mods, r.heap, a, Limit(path), r.result.value.collection, r.result.value.key)
  }

  /** After a successful assignment the same path gives the value, unless the slot written lies on the way. */
  lemma AssignThenGet(mods: Mods, heap: Heap, next: Addr, a: Addr, path: string, v: Item)
    requires (forall b | b in heap :: b < next) && AssignCreative(mods, heap, next, a, path, v).result
    ensures !OverwritesItsWay(mods, heap, next, a, path) ==>
              GetAt(mods, AssignCreative(mods, heap, next, a, path, v).heap, a, path) == Some(v)
    ensures !v.Object? && OverwritesItsWay(mods, heap, next, a, path) ==>
              GetAt(mods, AssignCreative(mods, heap, next, a, path, v).heap, a, path) == None
  {
    var r := CreativeRetrieve(mods, heap, next, a, Limit(path));
    CreativeIsConstant(mods, heap, next, a, Limit(path));
    var c, k := r.result.value.collection, r.result.value.key;
    if OverwritesItsWay(mods, heap, next, a, path) {
      if !v.Object? {
        WriteBreaksWalk(mods, r.heap, a, Limit(path), c, k, v);
      }
    } else {
      WriteKeepsWalk(mods, r.heap, a, Limit(path), c, k, v);
      GetPut(r.heap[c], k, v, k);
    }
    hide CreativeRetrieve, Retrieve, Crosses;
  }

  /** For scalars that is exactly when. */
  lemma ScalarAssignThenGet(mods: Mods, heap: Heap, next: Addr, a: Addr, path: string, v: Item)
    requires (forall b | b in heap :: b < next) && AssignCreative(mods, heap, next, a, path, v).result && !v.Object?
    ensures GetAt(mods, AssignCreative(mods, heap, next, a, path, v).heap, a, path) == Some(v)
       <==> !OverwritesItsWay(mods, heap, next, a, path)
  {
    AssignThenGet(mods, heap, next, a, path, v);
  }

  /** A map that holds itself under a name: assigning to the name twice over, as in ".a.a", writes the slot that
      leads to it, and the path leads nowhere afterwards. */
  lemma SelfLoop(mods: Mods, heap: Heap, next: Addr, a: Addr, name: string, v: Item)
    requires (forall b | b in heap :: b < next) && a in heap && heap[a].Tree? && !v.Object?
    requires PathName(name) && |name| <= 500 && Get(heap[a], NameKey(name)) == Some(Object(a))
    ensures
      var path := "." + name + "." + name;
      && OverwritesItsWay(mods, heap, next, a, path) && AssignCreative(mods, heap, next, a, path, v).result
      && GetAt(mods, AssignCreative(mods, heap, next, a, path, v).heap, a, path).None?
  {
    var path, k := "." + name + "." + name, NameKey(name);
    LoopWalk(mods, heap, next, a, name);
    hide ParsePath, Get, CreativeRetrieve;
    assert Put(heap[a], k, v).Some? by {
      FoundAccepts(heap[a], k);
    }
    hide Put;
    assert Limit(path) == path;
    AssignThenGet(mods, heap, next, a, path, v);
  }

  lemma LoopWalk(mods: Mods, heap: Heap, next: Addr, a: Addr, name: string)
    requires a in heap && PathName(name) && Get(heap[a], NameKey(name)) == Some(Object(a))
    ensures var path, k := "." + name + "." + name, NameKey(name);
            && CreativeRetrieve(mods, heap, next, a, path) == Walk(heap, next, Some(Access(a, k)))
            && Crosses(mods, heap, a, path, a, k)
  {
    var path, rest, k := "." + name + "." + name, "." + name, NameKey(name);
    assert path == "." + name + rest && rest == "." + name + "";
    ParsePrintedName(mods, name, rest);
    ParsePrintedName(mods, name, "");
    hide ParsePath, Get, Put, PathName;
    assert CreativeStep(mods, heap, next, a, KeyAndRest(k, "")) == Walk(heap, next, Holds(a));
    assert CreativeStep(mods, heap, next, a, KeyAndRest(k, rest)) == Walk(heap, next, Holds(a));
    hide CreativeStep;
    assert CreativeRetrieve(mods, heap, next, a, rest) == Walk(heap, next, Some(Access(a, k)));
  }

  lemma FoundAccepts(c: Container, k: Key)
    requires Get(c, k).Some?
    ensures forall v :: Put(c, k, v).Some?
  {
  }

  /** The path parses to its end. */
  predicate Parses(mods: Mods, path: string)
    decreases |path|
  {
    match ParsePath(mods, path)
    case None => false
    case Some(kr) => kr.rest == "" || Parses(mods, kr.rest)
  }

  /** An array has an item at the index, or the key is of the kind that the map takes. */
  predicate Takes(c: Container, k: Key)
  {
    match c
    case Array(items) => k.IntKey? && -|items| <= k.index < |items|
    case Tree(kind, _) => Accepts(kind, k)
  }

  /** Each key before the last leads to an object or, from the first missing one on, is missing from a map that
      takes it; and the last container takes the last key. */
  predicate CanAssign(mods: Mods, heap: Heap, a: Addr, path: string)
    decreases |path|
  {
    match ParsePath(mods, path)
    case None => false
    case Some(kr) =>
      a in heap &&
      if kr.rest == "" then Takes(heap[a], kr.key)
      else
        match Get(heap[a], kr.key)
        case Some(Object(b)) => CanAssign(mods, heap, b, kr.rest)
        case Some(_) => false
        case None => heap[a].Tree? && Takes(heap[a], kr.key) && Parses(mods, kr.rest)
  }

  lemma TakesIsPut(c: Container, k: Key, v: Item)
    ensures Put(c, k, v).Some? <==> Takes(c, k)
    ensures c.Array? && Get(c, k).None? ==> !Takes(c, k)
    ensures Put(c, k, v).Some? ==> forall q :: Takes(Put(c, k, v).value, q) == Takes(c, q)
  {
  }

  /** The walk ended at a container that takes the last key. */
  predicate Arrived(r: Walk<Option<Access>>)
  {
    r.result.Some? && r.result.value.collection in r.heap &&
      Takes(r.heap[r.result.value.collection], r.result.value.key)
  }

  lemma {:induction false} FreshWalk(mods: Mods, heap: Heap, next: Addr, a: Addr, path: string)
    requires ParsePath(mods, path).Some? && a in heap && heap[a] == ContainerFor(ParsePath(mods, path).value.key)
    ensures Arrived(CreativeRetrieve(mods, heap, next, a, path)) <==> Parses(mods, path)
    decreases |path|
  {
    hide ParsePath;
    var kr := ParsePath(mods, path).value;
    var step := CreativeStep(mods, heap, next, a, kr);
    TakesIsPut(heap[a], kr.key, Blank);
    if kr.rest == "" {
    } else if ParsePath(mods, kr.rest).Some? {
      FreshWalk(mods, step.heap, step.next, next, kr.rest);
    }
  }

  lemma {:induction false} WalkArrives(mods: Mods, heap: Heap, next: Addr, a: Addr, path: string)
    ensures Arrived(CreativeRetrieve(mods, heap, next, a, path)) <==> CanAssign(mods, heap, a, path)
    decreases |path|
  {
    hide ParsePath;
    if ParsePath(mods, path).Some? && a in heap {
      var kr := ParsePath(mods, path).value;
      var step := CreativeStep(mods, heap, next, a, kr);
      TakesIsPut(heap[a], kr.key, Blank);
      if kr.rest != "" {
        if Get(heap[a], kr.key).Some? {
          if step.result.Holds? {
            WalkArrives(mods, heap, next, step.result.obj, kr.rest);
          }
        } else if step.result.Holds? {
          FreshWalk(mods, step.heap, step.next, next, kr.rest);
        }
      }
    }
  }

  /** An assignment answers true exactly if the path can be walked so in the graph as it was before; in particular
      if there is an item at the path. */
  lemma AssignSucceeds(mods: Mods, heap: Heap, next: Addr, a: Addr, path: string, v: Item)
    ensures AssignCreative(mods, heap, next, a, path, v).result <==> CanAssign(mods, heap, a, Limit(path))
    ensures GetAt(mods, heap, a, path).Some? ==> AssignCreative(mods, heap, next, a, path, v).result
  {
    var r := CreativeRetrieve(mods, heap, next, a, Limit(path));
    WalkArrives(mods, heap, next, a, Limit(path));
    if r.result.Some? && r.result.value.collection in r.heap {
      TakesIsPut(r.heap[r.result.value.collection], r.result.value.key, v);
    }
    if GetAt(mods, heap, a, path).Some? {
      FoundCanAssign(mods, heap, a, Limit(path));
    }
    hide CreativeRetrieve, CanAssign, Retrieve;
  }

  /** When the rest of the path behind a missing key does not parse, the assignment fails and leaves a blank there. */
  lemma BlankIsLeft(mods: Mods, heap: Heap, next: Addr, a: Addr, path: string, kr: KeyAndRest, v: Item)
    requires |path| <= 1024 && ParsePath(mods, path) == Some(kr) && kr.rest != "" && ParsePath(mods, kr.rest).None?
    requires a in heap && heap[a].Tree? && Takes(heap[a], kr.key) && Get(heap[a], kr.key).None?
    ensures var w := AssignCreative(mods, heap, next, a, path, v);
            && !w.result && w.next == next && w.heap == heap[a := w.heap[a]] && Get(w.heap[a], kr.key) == Some(Blank)
  {
    TakesIsPut(heap[a], kr.key, Blank);
    PutMissing(heap[a], kr.key, Blank);
    hide ParsePath, Get, Put;
    assert Limit(path) == path;
  }

  lemma {:induction false} FoundCanAssign(mods: Mods, heap: Heap, a: Addr, path: string)
    requires var acc := Retrieve(mods, heap, a, path);
             acc.Some? && acc.value.collection in heap && Get(heap[acc.value.collection], acc.value.key).Some?
    ensures CanAssign(mods, heap, a, path)
    decreases |path|
  {
    var kr := ParsePath(mods, path).value;
    hide ParsePath;
    if kr.rest == "" {
      FoundIsTaken(heap[a], kr.key);
    } else {
      FoundCanAssign(mods, heap, Step(heap, a, kr.key).value, kr.rest);
    }
  }

  lemma FoundIsTaken(c: Container, k: Key)
    requires Get(c, k).Some?
    ensures Takes(c, k)
  {
  }

  /** Whether or not it succeeds, an assignment changes no slot that was there but its target, and adds
      slots to existing objects only for keys on the path that were missing. */
  lemma AssignFrame(mods: Mods, heap: Heap, next: Addr, a: Addr, path: string, v: Item, b: Addr, q: Key)
    requires (forall x | x in heap :: x < next) && b in heap
    ensures
      var t := AssignCreative(mods, heap, next, a, path, v);
      var r := CreativeRetrieve(mods, heap, next, a, Limit(path));
      && b in t.heap && (forall x | x in t.heap :: x in heap || x >= next)
      && (Get(heap[b], q).Some? && Get(t.heap[b], q) != Get(heap[b], q) ==>
            t.result && b == r.result.value.collection && SameSlot(t.heap[b], r.result.value.key, q)
            && Get(t.heap[b], q) == Some(v))
      && (Get(heap[b], q).None? && Get(t.heap[b], q).Some? ==>
            exists k :: (b, k) in Visits(mods, heap, next, a, Limit(path)) && SameSlot(t.heap[b], k, q))
  {
    var t := AssignCreative(mods, heap, next, a, path, v);
    var r := CreativeRetrieve(mods, heap, next, a, Limit(path));
    RetrieveExtends(mods, heap, next, a, Limit(path));
    if t.result {
      var c, k := r.result.value.collection, r.result.value.key;
      LastIsVisited(mods, heap, next, a, Limit(path));
      if b == c {
        GetPut(r.heap[b], k, v, q);
        PutKeepsSlots(r.heap[b], k, v);
      }
    }
    hide CreativeRetrieve, Visits, Put, Get, SameSlot, Limit;
  }

  lemma PutKeepsSlots(c: Container, k: Key, v: Item)
    requires Put(c, k, v).Some?
    ensures forall p, q :: SameSlot(Put(c, k, v).value, p, q) == SameSlot(c, p, q)
  {
  }

  lemma {:induction false} LastIsVisited(mods: Mods, heap: Heap, next: Addr, a: Addr, path: string)
    requires CreativeRetrieve(mods, heap, next, a, path).result.Some?
    ensures var acc := CreativeRetrieve(mods, heap, next, a, path).result.value;
            (acc.collection, acc.key) in Visits(mods, heap, next, a, path)
    decreases |path|
  {
    var kr := ParsePath(mods, path).value;
    if kr.rest != "" {
      var step := CreativeStep(mods, heap, next, a, kr);
      LastIsVisited(mods, step.heap, step.next, step.result.obj, kr.rest);
    }
  }

  /** A key that is missing from a tree it fits. */
  predicate Missing(heap: Heap, a: Addr, k: Key)
  {
    a in heap && heap[a].Tree? && Accepts(heap[a].kind, k) && Norm(k) !in heap[a].slots
  }

  predicate Fits(c: Container, k: Key)
  {
    c.Tree? && Accepts(c.kind, k)
  }

  lemma StepCreates(mods: Mods, heap: Heap, next: Addr, a: Addr, ks: seq<Key>)
    requires |ks| > 1 && PathKeys(mods, ks) && Missing(heap, a, ks[0]) && a < next
    ensures var step := CreativeStep(mods, heap, next, a, KeyAndRest(ks[0], PrintKeys(mods, ks[1..])));
            step.result == Holds(next) && step.next == next + 1 && Missing(step.heap, next, ks[1])
  {
    hide PrintKeys, PrintKey, ParsePath;
    PrintFront(mods, ks[1..]);
    PrintedBoundary(mods, ks[1..][1..]);
    ParsePrinted(mods, ks[1], PrintKeys(mods, ks[1..][1..]));
  }

  lemma {:induction false} WalkCreates(mods: Mods, heap: Heap, next: Addr, a: Addr, ks: seq<Key>, path: string)
    requires ks != [] && PathKeys(mods, ks) && Missing(heap, a, ks[0])
    requires path == PrintKeys(mods, ks) && forall b | b in heap :: b < next
    ensures var r := CreativeRetrieve(mods, heap, next, a, path);
            && r.result.Some? && r.next == next + |ks| - 1 && r.result.value.key == ks[|ks| - 1]
            && r.result.value.collection in r.heap && r.result.value.collection == (if |ks| == 1 then a else r.next - 1)
            && Fits(r.heap[r.result.value.collection], ks[|ks| - 1])
    decreases |ks|
  {
    hide PrintKeys, PrintKey, ParsePath, Extends, CreativeStep, Missing, Fits, PathKeys;
    var tail := ks[1..];
    var rest := PrintKeys(mods, tail);
    var kr := KeyAndRest(ks[0], rest);
    ParseFront(mods, ks);
    MissingIsThere(heap, a, ks[0]);
    RetrieveUnfolds(mods, heap, next, a, path, kr);
    hide CreativeRetrieve;
    StepExtends(mods, heap, next, a, kr);
    if tail == [] {
      LastAccepts(mods, heap, next, a, kr);
    } else {
      StepCreates(mods, heap, next, a, ks);
      var step := CreativeStep(mods, heap, next, a, kr);
      WalkCreates(mods, step.heap, step.next, next, tail, rest);
    }
  }

  lemma ParseFront(mods: Mods, ks: seq<Key>)
    requires ks != [] && PathKeys(mods, ks)
    ensures ParsePath(mods, PrintKeys(mods, ks)) == Some(KeyAndRest(ks[0], PrintKeys(mods, ks[1..])))
    ensures ks[1..] == [] <==> PrintKeys(mods, ks[1..]) == ""
    ensures PathKeys(mods, ks[1..]) && (ks[1..] != [] ==> ks[1..][|ks[1..]| - 1] == ks[|ks| - 1])
  {
    PrintedBoundary(mods, ks[1..]);
    PrintFront(mods, ks);
    assert ks[1..] == [] ==> PrintKeys(mods, ks[1..]) == "";
    hide PrintKeys, ParsePath, PrintKey;
    ParsePrinted(mods, ks[0], PrintKeys(mods, ks[1..]));
  }

  lemma MissingIsThere(heap: Heap, a: Addr, k: Key)
    requires Missing(heap, a, k)
    ensures a in heap
  {
  }

  lemma RetrieveUnfolds(mods: Mods, heap: Heap, next: Addr, a: Addr, path: string, kr: KeyAndRest)
    requires ParsePath(mods, path) == Some(kr) && a in heap
    ensures var step := CreativeStep(mods, heap, next, a, kr);
            && (kr.rest == "" ==>
                 CreativeRetrieve(mods, heap, next, a, path) == Walk(step.heap, step.next, Some(Access(a, kr.key))))
            && (kr.rest != "" && step.result.Holds? ==>
                  CreativeRetrieve(mods, heap, next, a, path)
                  == CreativeRetrieve(mods, step.heap, step.next, step.result.obj, kr.rest))
  {
    hide ParsePath, CreativeStep;
  }

  lemma LastAccepts(mods: Mods, heap: Heap, next: Addr, a: Addr, kr: KeyAndRest)
    requires Missing(heap, a, kr.key)
    ensures var step := CreativeStep(mods, heap, next, a, kr);
            kr.rest == "" ==> step.next == next && a in step.heap && Fits(step.heap[a], kr.key)
  {
  }

  /** Assigning to a path of keys none of which is there creates one container of the fitting kind for
      each key but the last, and succeeds. */
  lemma FreshPathSucceeds(mods: Mods, heap: Heap, next: Addr, a: Addr, ks: seq<Key>, v: Item)
    requires ks != [] && PathKeys(mods, ks) && |PrintKeys(mods, ks)| <= PATH_LENGTH_MAX
    requires Missing(heap, a, ks[0]) && forall b | b in heap :: b < next
    ensures AssignCreative(mods, heap, next, a, PrintKeys(mods, ks), v).result
    ensures AssignCreative(mods, heap, next, a, PrintKeys(mods, ks), v).next == next + |ks| - 1
  {
    WalkCreates(mods, heap, next, a, ks, PrintKeys(mods, ks));
    hide CreativeRetrieve, PrintKeys;
  }

  // ------------------------------------------------------------------ the code

  class Accessor {
    const mods: Mods
    var heap: Heap
    var next: Addr

    constructor (mods: Mods, heap: Heap, next: Addr)
      ensures this.mods == mods && this.heap == heap && this.next == next
    {
      this.mods, this.heap, this.next := mods, heap, next;
    }

    /** creative_accessor::access_value */
    method AccessValue(a: Addr, kr: KeyAndRest) returns (found: Found)
      requires a in heap
      modifies this
      ensures Walk(heap, next, found) == CreativeStep(mods, old(heap), old(next), a, kr)
    {
      var present := Get(heap[a], kr.key);
      if present.Some? {
        return Classify(present.value);
      }
      var blank := Put(heap[a], kr.key, Blank);
      if blank.None? {
        return Absent;
      }
      heap := heap[a := blank.value];
      var following := ParsePath(mods, kr.rest);
      if following.None? {
        return NoObject;
      }
      var made := Put(heap[a], kr.key, Object(next));
      if made.Some? {
        heap := heap[a := made.value];
      }
      heap := heap[next := ContainerFor(following.value.key)];
      found := Holds(next);
      next := next + 1;
    }

    /** retrieve and recurs */
    method AccessCreative(a: Addr, path: string) returns (acc: Option<Access>)
      modifies this
      ensures Walk(heap, next, acc) == CreativeRetrieve(mods, old(heap), old(next), a, path)
      decreases |path|
    {
      hide CreativeStep;
      var kr := ParsePath(mods, path);
      if kr.None? || a !in heap {
        return None;
      }
      var found := AccessValue(a, kr.value);
      if kr.value.rest == "" {
        return Some(Access(a, kr.value.key));
      }
      match found
      case Holds(b) => acc := AccessCreative(b, kr.value.rest);
      case _ => acc := None;
    }

    /** ca::assign with way == creative */
    method Assign(a: Addr, path: string, v: Item) returns (ok: bool)
      modifies this
      ensures Walk(heap, next, ok) == AssignCreative(mods, old(heap), old(next), a, path, v)
    {
      hide CreativeRetrieve;
      var acc := AccessCreative(a, Limit(path));
      if acc.None? || acc.value.collection !in heap {
        return false;
      }
      var written := Put(heap[acc.value.collection], acc.value.key, v);
      if written.None? {
        return false;
      }
      heap := heap[acc.value.collection := written.value];
      ok := true;
    }
  }
}
