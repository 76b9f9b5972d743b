/** The form observer and a form map as the code keeps them. */
module FormMap {
  import opened Wrappers
  import opened FormCodec
  import opened Collections
  import opened FormKeys

  /** What a lookup by id gives. */
  function Lookup(w: Watch, keys: seq<Ref>, items: seq<Item>, id: FormId): Option<Item>
    requires |items| == |keys|
  {
    match FindId(w, keys, id)
    case None => None
    case Some(p) => Some(items[p])
  }

  /** The items after a value was put under a key. */
  function SetItems(w: Watch, keys: seq<Ref>, items: seq<Item>, r: Ref, v: Item): seq<Item>
    requires |items| == |keys|
  {
    match FindRef(w, keys, r)
    case Some(p) => items[p := v]
    case None => var p := LowerBound(w, keys, RankOf(w, r)); items[..p] + [v] + items[p..]
  }

  lemma ItemsAt(w: Watch, keys: seq<Ref>, items: seq<Item>, r: Ref, v: Item, i: nat)
    requires |items| == |keys| && FindRef(w, keys, r).None? && i <= |keys|
    ensures |SetItems(w, keys, items, r, v)| == |keys| + 1 == |InsertKey(w, keys, r)|
    ensures var p := LowerBound(w, keys, RankOf(w, r));
            SetItems(w, keys, items, r, v)[i] == if i < p then items[i] else if i == p then v else items[i - 1]
  {
  }

  /** A value put under a live key is found by its id, and what other ids lead to stays the same. */
  lemma SetThenLookup(w: Watch, keys: seq<Ref>, items: seq<Item>, r: Ref, v: Item, id: FormId)
    requires Coherent(w) && Ordered(w, keys) && |items| == |keys| && Exists(w, r) && !IsExpired(w, r) && id != 0
    ensures |SetItems(w, keys, items, r, v)| == |InsertKey(w, keys, r)|
    ensures Lookup(w, InsertKey(w, keys, r), SetItems(w, keys, items, r, v), id)
         == if id == Raw(w, r) then Some(v) else Lookup(w, keys, items, id)
  {
    assert |InsertKey(w, keys, r)| <= |keys| + 1;
    hide Ordered, InsertKey, LowerBound, Coherent, FindId, FindRef, Exists, IsExpired, Raw;
    SizesAgree(w, keys, items, r, v);
    AfterInsert(w, keys, r, id);
    FindRefIsFindId(w, keys, r);
    var place := PlaceOf(w, keys, r, id);
    if FindRef(w, keys, r).None? && place.Some? {
      FindInside(w, InsertKey(w, keys, r), id);
      ItemsAt(w, keys, items, r, v, place.value);
    }
    if id == Raw(w, r) {
      FindSame(w, keys, r);
    }
    if FindRef(w, keys, r).Some? && FindId(w, keys, id).Some? && id != Raw(w, r) {
      DifferentPlaces(w, keys, id, Raw(w, r));
    }
  }

  /** The items after the one at p was erased. */
  function EraseItem(items: seq<Item>, p: nat): seq<Item>
    requires p < |items|
  {
    items[..p] + items[p + 1..]
  }

  lemma ErasedAt(w: Watch, keys: seq<Ref>, p: nat, id: FormId, i: nat)
    requires p < |keys|
    ensures IsLiveKey(w, EraseKey(keys, p), i, id) <==> IsLiveKey(w, keys, if i < p then i else i + 1, id)
  {
  }

  /** The form whose key was erased is no longer found, and what other ids lead to stays the same. */
  lemma EraseThenLookup(w: Watch, keys: seq<Ref>, items: seq<Item>, p: nat, id: FormId)
    requires Ordered(w, keys) && |items| == |keys| && p < |keys| && id != 0
    ensures |EraseItem(items, p)| == |EraseKey(keys, p)|
    ensures Lookup(w, EraseKey(keys, p), EraseItem(items, p), id)
         == if IsLiveKey(w, keys, p, id) then None else Lookup(w, keys, items, id)
  {
    EraseKeeps(w, keys, p);
    var ks := EraseKey(keys, p);
    var before, after := FindId(w, keys, id), FindId(w, ks, id);
    if before.Some? {
      FindIdExact(w, keys, id, before.value);
      if before.value != p {
        var i := if before.value < p then before.value else before.value - 1;
        ErasedAt(w, keys, p, id, i);
        FindIdExact(w, ks, id, i);
      }
    }
    if after.Some? {
      FindIdExact(w, ks, id, after.value);
      ErasedAt(w, keys, p, id, after.value);
      FindIdExact(w, keys, id, if after.value < p then after.value else after.value + 1);
    }
    FindIdExact(w, keys, id, p);
    hide Ordered, FindId, IsLiveKey;
  }

  lemma SizesAgree(w: Watch, keys: seq<Ref>, items: seq<Item>, r: Ref, v: Item)
    requires |items| == |keys|
    ensures |SetItems(w, keys, items, r, v)| == |InsertKey(w, keys, r)|
  {
  }

  lemma FindInside(w: Watch, keys: seq<Ref>, id: FormId)
    ensures FindId(w, keys, id).Some? ==> FindId(w, keys, id).value < |keys|
  {
  }

  lemma FindSame(w: Watch, keys: seq<Ref>, r: Ref)
    requires Coherent(w) && Ordered(w, keys) && Exists(w, r) && !IsExpired(w, r)
    ensures FindRef(w, keys, r) == FindId(w, keys, Raw(w, r)) && Raw(w, r) != 0
  {
    FindRefIsFindId(w, keys, r);
    LiveIsNotZero(w, r);
  }

  lemma DifferentPlaces(w: Watch, keys: seq<Ref>, id: FormId, other: FormId)
    requires Ordered(w, keys) && id != 0 && other != 0 && id != other
    requires FindId(w, keys, id).Some? && FindId(w, keys, other).Some?
    ensures FindId(w, keys, id) != FindId(w, keys, other)
  {
    FindIdExact(w, keys, id, FindId(w, keys, id).value);
    FindIdExact(w, keys, other, FindId(w, keys, other).value);
  }

  lemma AfterInsert(w: Watch, keys: seq<Ref>, r: Ref, id: FormId)
    requires Coherent(w) && Ordered(w, keys) && Exists(w, r) && !IsExpired(w, r) && id != 0
    ensures FindId(w, InsertKey(w, keys, r), id) == PlaceOf(w, keys, r, id)
  {
    var ks, place := InsertKey(w, keys, r), PlaceOf(w, keys, r, id);
    InsertKeeps(w, keys, r);
    hide Ordered, InsertKey, Coherent, FindId, PlaceOf;
    forall p: nat ensures FindId(w, ks, id) == Some(p) <==> place == Some(p) {
      FindIdExact(w, ks, id, p);
      PlaceIsLive(w, keys, r, id, p);
    }
    if place.Some? {
      assert FindId(w, ks, id) == Some(place.value);
    }
  }

  /** Where the live key of a form is after r was inserted. */
  function PlaceOf(w: Watch, keys: seq<Ref>, r: Ref, id: FormId): Option<nat>
  {
    var p := LowerBound(w, keys, RankOf(w, r));
    if FindRef(w, keys, r).Some? then FindId(w, keys, id)
    else if id == Raw(w, r) then Some(p)
    else
      match FindId(w, keys, id)
      case None => None
      case Some(i) => Some(if i < p then i else i + 1)
  }

  lemma PlaceIsLive(w: Watch, keys: seq<Ref>, r: Ref, id: FormId, p: nat)
    requires Coherent(w) && Ordered(w, keys) && Exists(w, r) && !IsExpired(w, r) && id != 0
    ensures IsLiveKey(w, InsertKey(w, keys, r), p, id) <==> PlaceOf(w, keys, r, id) == Some(p)
  {
    FindRefIsFindId(w, keys, r);
    LiveIsNotZero(w, r);
    var q := LowerBound(w, keys, RankOf(w, r));
    if FindRef(w, keys, r).Some? {
      FindIdExact(w, keys, id, p);
    } else {
      if p < |InsertKey(w, keys, r)| {
        InsertAt(w, keys, r, p);
      }
      FindIdExact(w, keys, id, p);
      if p > 0 {
        FindIdExact(w, keys, id, p - 1);
      }
      FindIdExact(w, keys, Raw(w, r), p);
      if p > 0 {
        FindIdExact(w, keys, Raw(w, r), p - 1);
      }
      hide Ordered, Coherent, LowerBound;
    }
  }

  /** A probe at mid tells on which side of it the lower bound lies. */
  lemma ProbeSplits(w: Watch, keys: seq<Ref>, k: Rank, mid: nat)
    requires Ordered(w, keys) && mid < |keys|
    ensures Less(RankOf(w, keys[mid]), k) <==> mid < LowerBound(w, keys, k)
  {
    LowerBoundSplits(w, keys, k);
  }

  /** std::lower_bound. Keys that expired in place do not lead it astray. */
  method Halving(w: Watch, keys: seq<Ref>, k: Rank) returns (first: nat)
    requires Ordered(w, keys)
    ensures first == LowerBound(w, keys, k)
  {
    hide Ordered, Less, LowerBound;
    first := 0;
    var count := |keys|;
    while count > 0
      invariant first <= LowerBound(w, keys, k) <= first + count <= |keys|
    {
      var half := count / 2;
      ProbeSplits(w, keys, k, first + half);
      if Less(RankOf(w, keys[first + half]), k) {
        first := first + half + 1;
        count := count - half - 1;
      } else {
        count := half;
      }
    }
  }

  /** The descent in std::map, which probes wherever the shape of the tree has it. */
  method Descend(w: Watch, keys: seq<Ref>, k: Rank) returns (first: nat)
    requires Ordered(w, keys)
    ensures first == LowerBound(w, keys, k)
  {
    hide Ordered, Less, LowerBound;
    first := 0;
    var last := |keys|;
    while first < last
      invariant first <= LowerBound(w, keys, k) <= last <= |keys|
    {
      var mid :| first <= mid < last;
      ProbeSplits(w, keys, k, mid);
      if Less(RankOf(w, keys[mid]), k) {
        first := mid + 1;
      } else {
        last := mid;
      }
    }
  }

  class FormObserver {
    var entries: map<EntryRef, Entry>
    var watchedForms: map<FormId, EntryRef>
    var live: set<EntryRef>
    var next: EntryRef

    function State(): Watch
      reads this
    {
      Watch(entries, watchedForms, live)
    }

    ghost predicate Valid()
      reads this
    {
      Coherent(State()) && forall e | e in entries :: e < next
    }

    constructor ()
      ensures Valid() && State() == Watch(map[], map[], {})
    {
      entries, watchedForms, live, next := map[], map[], {}, 0;
    }

    method WatchForm(id: FormId) returns (r: Ref)
      requires Valid()
      modifies this
      ensures Valid() && (State(), r) == FormKeys.WatchForm(old(State()), id, old(next))
    {
      WatchKeeps(State(), id, next);
      hide Coherent;
      if id == 0 {
        return None;
      }
      if id in watchedForms {
        var e := watchedForms[id];
        if e !in live || e !in entries || entries[e].deleted {
          r := MakeEntry(id);
        } else {
          r := Some(e);
        }
      } else {
        r := MakeEntry(id);
      }
    }

    /** form_entry::make, held by the form_ref about to be returned, and put into the weak table. */
    method MakeEntry(id: FormId) returns (r: Ref)
      modifies this
      ensures r == Some(old(next)) && next == old(next) + 1
      ensures State() == Watch(old(entries)[old(next) := Entry(id, false)],
                               old(watchedForms)[id := old(next)], old(live) + {old(next)})
    {
      r := Some(next);
      entries := entries[next := Entry(id, false)];
      watchedForms := watchedForms[id := next];
      live := live + {next};
      next := next + 1;
    }

    method OnFormDeleted(handle: FormHandle)
      requires Valid()
      modifies this
      ensures Valid() && State() == FormDeleted(old(State()), handle)
    {
      DeletedTogether(State(), handle, None);
      hide Coherent;
      if !IsFormHandle(handle) {
        return;
      }
      var id := HandleToId(handle);
      if id in watchedForms {
        var e := watchedForms[id];
        if e in live && e in entries {
          entries := entries[e := entries[e].(deleted := true)];
        }
      }
    }

    method RemoveExpiredForms()
      requires Valid()
      modifies this
      ensures Valid() && State() == RemoveExpired(old(State()))
      ensures watchedForms.Values <= live
    {
      RemoveExpiredKeeps(State(), None);
      hide Coherent;
      watchedForms := map id | id in watchedForms && watchedForms[id] in live :: watchedForms[id];
    }
  }

  class Map {
    const observer: FormObserver
    var keys: seq<Ref>
    var items: seq<Item>

    ghost predicate Valid()
      reads this, observer
    {
      observer.Valid() && Ordered(observer.State(), keys) && |items| == |keys|
    }

    constructor (observer: FormObserver)
      requires observer.Valid()
      ensures Valid() && this.observer == observer && keys == []
    {
      this.observer := observer;
      keys, items := [], [];
    }

    /** u_set: operator[] and assignment. */
    method Set(r: Ref, v: Item)
      requires Valid() && Exists(observer.State(), r)
      modifies this
      ensures Valid() && keys == InsertKey(observer.State(), old(keys), r)
      ensures items == SetItems(observer.State(), old(keys), old(items), r, v)
    {
      var w := observer.State();
      InsertKeeps(w, keys, r);
      hide Ordered, Coherent;
      var p := Descend(w, keys, RankOf(w, r));
      if p < |keys| && !Less(RankOf(w, r), RankOf(w, keys[p])) {
        items := items[p := v];
      } else {
        keys := keys[..p] + [r] + keys[p..];
        items := items[..p] + [v] + items[p..];
      }
    }

    /** u_get with a lightweight reference: std::lower_bound, then a comparison of ids. */
    method Find(id: FormId) returns (found: Option<Item>)
      requires Valid()
      ensures found == Lookup(observer.State(), keys, items, id)
      ensures id != 0 ==> (found.Some? <==> exists p :: IsLiveKey(observer.State(), keys, p, id))
    {
      var w := observer.State();
      ghost var at := FindId(w, keys, id);
      if id != 0 {
        forall p: nat ensures at == Some(p) <==> IsLiveKey(w, keys, p, id) {
          FindIdExact(w, keys, id, p);
        }
      }
      var p := Halving(w, keys, Rank(id, id == 0));
      if p < |keys| && FormKeys.Get(w, keys[p]) == id {
        found := Some(items[p]);
      } else {
        found := None;
      }
    }

    /** u_erase with a lightweight reference. */
    method Erase(id: FormId) returns (erased: bool)
      requires Valid()
      modifies this
      ensures Valid() && erased == FindId(observer.State(), old(keys), id).Some?
      ensures erased ==> keys == EraseKey(old(keys), FindId(observer.State(), old(keys), id).value)
      ensures erased ==> items == EraseItem(old(items), FindId(observer.State(), old(keys), id).value)
      ensures !erased ==> keys == old(keys) && items == old(items)
    {
      var w := observer.State();
      var p := Halving(w, keys, Rank(id, id == 0));
      erased := p < |keys| && FormKeys.Get(w, keys[p]) == id;
      if erased {
        EraseKeeps(w, keys, p);
        hide Ordered, Coherent;
        keys := keys[..p] + keys[p + 1..];
        items := items[..p] + items[p + 1..];
      }
    }
  }
}
