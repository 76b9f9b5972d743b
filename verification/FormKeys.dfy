/** References to game forms that expire in place, and the ordered map that uses them as keys. */
module FormKeys {
  import opened Wrappers
  import opened FormCodec
  import opened Collections

  type EntryRef = nat

  /** form_entry */
  datatype Entry = Entry(id: FormId, deleted: bool)

  /** form_ref: a shared pointer to an entry, or null. */
  type Ref = Option<EntryRef>

  /** The entries made so far, the weak table by form id, and the entries that some form_ref still holds. */
  datatype Watch = Watch(entries: map<EntryRef, Entry>, watched: map<FormId, EntryRef>, live: set<EntryRef>)

  // ------------------------------------------------------------------ form handles

  type FormHandle = h: nat | h < 0x1_0000_0000_0000_0000

  predicate IsFormHandle(h: FormHandle)
  {
    h / 0x1_0000_0000 == 0xffff
  }

  function HandleToId(h: FormHandle): FormId
  {
    h % 0x1_0000_0000
  }

  function IdToHandle(id: FormId): FormHandle
  {
    0xffff * 0x1_0000_0000 + id
  }

  lemma HandleRoundTrip(id: FormId, h: FormHandle)
    ensures IsFormHandle(IdToHandle(id)) && HandleToId(IdToHandle(id)) == id
    ensures IsFormHandle(h) <==> IdToHandle(HandleToId(h)) == h
    ensures IdToHandle(id) == 0x0000_ffff_0000_0000 + id
  {
  }

  // ------------------------------------------------------------------ references

  /** A form_ref that exists: null, or its entry is held. */
  predicate Exists(w: Watch, r: Ref)
  {
    r.Some? ==> r.value in w.live && r.value in w.entries
  }

  predicate IsExpired(w: Watch, r: Ref)
  {
    r.None? || r.value !in w.entries || w.entries[r.value].deleted
  }

  /** get_raw */
  function Raw(w: Watch, r: Ref): FormId
  {
    if r.Some? && r.value in w.entries then w.entries[r.value].id else 0
  }

  /** get */
  function Get(w: Watch, r: Ref): FormId
  {
    if IsExpired(w, r) then 0 else Raw(w, r)
  }

  /** The weak table finds every held entry that is not deleted. */
  ghost predicate Coherent(w: Watch)
  {
    && w.live <= w.entries.Keys
    && (forall id | id in w.watched :: id != 0 && w.watched[id] in w.entries && w.entries[w.watched[id]].id == id)
    && (forall e | e in w.live && !w.entries[e].deleted ::
         w.entries[e].id in w.watched && w.watched[w.entries[e].id] == e)
  }

  /** A form has at most one entry that is held and not deleted, so all live references to it share it. */
  lemma OneLiveEntry(w: Watch, r: Ref, s: Ref)
    requires Coherent(w) && Exists(w, r) && Exists(w, s) && !IsExpired(w, r) && !IsExpired(w, s) &&
             Raw(w, r) == Raw(w, s)
    ensures r == s
  {
  }

  // ------------------------------------------------------------------ the observer

  /** watch_form finds the entry of a form; a weak pointer that ran out, or a deleted entry, is replaced. */
  predicate Watched(w: Watch, id: FormId)
  {
    id in w.watched && w.watched[id] in w.live && w.watched[id] in w.entries && !w.entries[w.watched[id]].deleted
  }

  function WatchForm(w: Watch, id: FormId, made: EntryRef): (Watch, Ref)
  {
    if id == 0 then (w, None)
    else if Watched(w, id) then (w, Some(w.watched[id]))
    else (Watch(w.entries[made := Entry(id, false)], w.watched[id := made], w.live + {made}), Some(made))
  }

  function MakeExpired(w: Watch, id: FormId, made: EntryRef): (Watch, Ref)
  {
    (w.(entries := w.entries[made := Entry(id, true)], live := w.live + {made}), Some(made))
  }

  function FormDeleted(w: Watch, handle: FormHandle): Watch
  {
    var id := HandleToId(handle);
    if IsFormHandle(handle) && id in w.watched && w.watched[id] in w.live && w.watched[id] in w.entries then
      w.(entries := w.entries[w.watched[id] := w.entries[w.watched[id]].(deleted := true)])
    else w
  }

  function RemoveExpired(w: Watch): Watch
  {
    w.(watched := map id | id in w.watched && w.watched[id] in w.live :: w.watched[id])
  }

  /** The last form_ref to an entry goes away. */
  function Forget(w: Watch, e: EntryRef): Watch
  {
    w.(live := w.live - {e})
  }

  lemma WatchKeeps(w: Watch, id: FormId, made: EntryRef)
    requires Coherent(w) && made !in w.entries
    ensures Coherent(WatchForm(w, id, made).0) && Coherent(MakeExpired(w, id, made).0)
    ensures var (t, r) := WatchForm(w, id, made);
            && Exists(t, r) && Raw(t, r) == id && (id != 0 ==> !IsExpired(t, r))
            && forall s | Exists(w, s) :: Exists(t, s) && IsExpired(t, s) == IsExpired(w, s) && Raw(t, s) == Raw(w, s)
    ensures var (t, r) := MakeExpired(w, id, made);
            && Exists(t, r) && IsExpired(t, r) && Raw(t, r) == id
            && forall s | Exists(w, s) :: Exists(t, s) && IsExpired(t, s) == IsExpired(w, s) && Raw(t, s) == Raw(w, s)
  {
  }

  /** Deleting a form expires all references to it at once, and no other reference; nothing revives. */
  lemma DeletedTogether(w: Watch, handle: FormHandle, r: Ref)
    requires Coherent(w) && Exists(w, r)
    ensures Coherent(FormDeleted(w, handle)) && Exists(FormDeleted(w, handle), r) &&
            Raw(FormDeleted(w, handle), r) == Raw(w, r)
    ensures IsExpired(FormDeleted(w, handle), r) <==>
              IsExpired(w, r) || (IsFormHandle(handle) && Raw(w, r) == HandleToId(handle))
  {
  }

  lemma RemoveExpiredKeeps(w: Watch, r: Ref)
    requires Coherent(w)
    ensures Coherent(RemoveExpired(w))
    ensures IsExpired(RemoveExpired(w), r) == IsExpired(w, r) && Raw(RemoveExpired(w), r) == Raw(w, r) &&
            Exists(RemoveExpired(w), r) == Exists(w, r)
  {
  }

  /** Exactly the entries that some reference holds stay in the table. */
  lemma RemoveExpiredLeaves(w: Watch)
    ensures var t := RemoveExpired(w);
            && t.watched.Values <= w.live && t.entries == w.entries && t.live == w.live
            && forall id :: (id in t.watched <==> id in w.watched && w.watched[id] in w.live)
                 && (id in t.watched ==> t.watched[id] == w.watched[id])
  {
  }

  lemma ForgetKeeps(w: Watch, e: EntryRef, r: Ref)
    requires Coherent(w) && r != Some(e)
    ensures Coherent(Forget(w, e)) && IsExpired(Forget(w, e), r) == IsExpired(w, r) && Raw(Forget(w, e), r) == Raw(w, r)
    ensures Exists(Forget(w, e), r) == Exists(w, r)
  {
  }

  /** A form watched again while its entry is held and not deleted gets that entry; after the last reference went away,
      or the form was deleted, it gets a new one. */
  lemma WatchedAgain(w: Watch, id: FormId, made: EntryRef, later: EntryRef)
    requires Coherent(w) && id != 0 && made !in w.entries && later != made
    ensures var (t, r) := WatchForm(w, id, made);
            && WatchForm(t, id, later) == (t, r)
            && WatchForm(Forget(t, r.value), id, later).1 == Some(later)
            && WatchForm(FormDeleted(t, IdToHandle(id)), id, later).1 == Some(later)
  {
    HandleRoundTrip(id, IdToHandle(id));
  }

  // ------------------------------------------------------------------ the order of the keys

  datatype Rank = Rank(raw: FormId, expired: bool)

  function RankOf(w: Watch, r: Ref): Rank
  {
    Rank(Raw(w, r), IsExpired(w, r))
  }

  /** stable_less_comparer */
  predicate Less(a: Rank, b: Rank)
  {
    a.raw < b.raw || (a.raw == b.raw && !a.expired && b.expired)
  }

  /** The key sequence is sorted, with equal neighbours allowed, and no live key occurs twice. */
  ghost predicate Ordered(w: Watch, keys: seq<Ref>)
  {
    && (forall i | 0 <= i < |keys| :: Exists(w, keys[i]))
    && (forall i, j | 0 <= i < j < |keys| :: !Less(RankOf(w, keys[j]), RankOf(w, keys[i])))
    && (forall i, j | 0 <= i < j < |keys| && !IsExpired(w, keys[i]) && !IsExpired(w, keys[j]) ::
         Raw(w, keys[i]) != Raw(w, keys[j]))
  }

  /** Keys are in the order of their form ids, and for one id the live key comes before the expired ones. */
  lemma OrderIs(w: Watch, keys: seq<Ref>, i: nat, j: nat)
    requires Ordered(w, keys) && i < j < |keys|
    ensures Raw(w, keys[i]) < Raw(w, keys[j])
         || (Raw(w, keys[i]) == Raw(w, keys[j]) && IsExpired(w, keys[j]))
  {
    assert !Less(RankOf(w, keys[j]), RankOf(w, keys[i]));
  }

  /** The position of the first key that is not less. */
  function LowerBound(w: Watch, keys: seq<Ref>, k: Rank): (p: nat)
    ensures p <= |keys| && (forall i | 0 <= i < p :: Less(RankOf(w, keys[i]), k))
    ensures p < |keys| ==> !Less(RankOf(w, keys[p]), k)
  {
    if keys == [] || !Less(RankOf(w, keys[0]), k) then 0 else 1 + LowerBound(w, keys[1..], k)
  }

  /** std::map::find with a form_ref. */
  function FindRef(w: Watch, keys: seq<Ref>, r: Ref): Option<nat>
  {
    var p := LowerBound(w, keys, RankOf(w, r));
    if p < |keys| && !Less(RankOf(w, r), RankOf(w, keys[p])) then Some(p) else None
  }

  /** form_map::_find with a form_ref_lightweight, which is a bare id, expired when it is 0. */
  function FindId(w: Watch, keys: seq<Ref>, id: FormId): Option<nat>
  {
    var p := LowerBound(w, keys, Rank(id, id == 0));
    if p < |keys| && Get(w, keys[p]) == id then Some(p) else None
  }

  predicate IsLiveKey(w: Watch, keys: seq<Ref>, p: int, id: FormId)
  {
    0 <= p < |keys| && !IsExpired(w, keys[p]) && Raw(w, keys[p]) == id
  }

  /** Behind the lower bound no key is less, whatever expired in the meantime. */
  lemma LowerBoundSplits(w: Watch, keys: seq<Ref>, k: Rank)
    requires Ordered(w, keys)
    ensures forall i | LowerBound(w, keys, k) <= i < |keys| :: !Less(RankOf(w, keys[i]), k)
  {
    var p := LowerBound(w, keys, k);
    forall i | p <= i < |keys| ensures !Less(RankOf(w, keys[i]), k) {
      assert i == p || !Less(RankOf(w, keys[i]), RankOf(w, keys[p]));
    }
  }

  /** Looking up an id other than 0 finds the one live key of that form, and fails if there is none,
      however many expired keys of the same form there are. */
  lemma FindIdExact(w: Watch, keys: seq<Ref>, id: FormId, p: nat)
    requires Ordered(w, keys) && id != 0
    ensures FindId(w, keys, id) == Some(p) <==> IsLiveKey(w, keys, p, id)
  {
    var k := Rank(id, false);
    LowerBoundSplits(w, keys, k);
    if IsLiveKey(w, keys, p, id) {
      var q := LowerBound(w, keys, k);
      assert RankOf(w, keys[p]) == k;
      assert q <= p;
      assert q == p || !Less(RankOf(w, keys[p]), RankOf(w, keys[q]));
    }
  }

  /** Looking up id 0 does not look for the null key: it gives the first key if that one is expired. */
  lemma FindZero(w: Watch, keys: seq<Ref>)
    requires Coherent(w) && Ordered(w, keys)
    ensures FindId(w, keys, 0) == if keys != [] && IsExpired(w, keys[0]) then Some(0) else None
  {
    if keys != [] {
      LiveIsNotZero(w, keys[0]);
    }
  }

  lemma LiveIsNotZero(w: Watch, r: Ref)
    requires Coherent(w) && Exists(w, r)
    ensures !IsExpired(w, r) ==> Raw(w, r) != 0
  {
  }

  /** std::map::find with a live form_ref agrees with the lookup by id. */
  lemma FindRefIsFindId(w: Watch, keys: seq<Ref>, r: Ref)
    requires Coherent(w) && Ordered(w, keys) && Exists(w, r) && !IsExpired(w, r)
    ensures FindRef(w, keys, r) == FindId(w, keys, Raw(w, r))
  {
    LiveIsNotZero(w, r);
    LowerBoundSplits(w, keys, RankOf(w, r));
  }

  // ------------------------------------------------------------------ changes of the map

  /** operator[] of the map: the position of the key, inserted if it is not found. */
  function InsertKey(w: Watch, keys: seq<Ref>, r: Ref): seq<Ref>
  {
    var p := LowerBound(w, keys, RankOf(w, r));
    if FindRef(w, keys, r).Some? then keys else keys[..p] + [r] + keys[p..]
  }

  lemma InsertAt(w: Watch, keys: seq<Ref>, r: Ref, i: nat)
    requires i < |InsertKey(w, keys, r)|
    ensures var p := LowerBound(w, keys, RankOf(w, r));
            InsertKey(w, keys, r)[i] ==
            if FindRef(w, keys, r).Some? || i < p then keys[i] else if i == p then r else keys[i - 1]
  {
  }

  /** Insertion keeps the keys sorted and the live keys distinct. */
  lemma InsertKeeps(w: Watch, keys: seq<Ref>, r: Ref)
    requires Ordered(w, keys) && Exists(w, r)
    ensures Ordered(w, InsertKey(w, keys, r))
  {
    if FindRef(w, keys, r).None? {
      var ks, k, p := InsertKey(w, keys, r), RankOf(w, r), LowerBound(w, keys, RankOf(w, r));
      LowerBoundSplits(w, keys, k);
      InsertStrictly(w, keys, r);
      forall i | 0 <= i < |ks| ensures Exists(w, ks[i]) {
        InsertAt(w, keys, r, i);
      }
      forall i, j | 0 <= i < j < |ks|
        ensures !Less(RankOf(w, ks[j]), RankOf(w, ks[i]))
        ensures !IsExpired(w, ks[i]) && !IsExpired(w, ks[j]) ==> Raw(w, ks[i]) != Raw(w, ks[j])
      {
        InsertAt(w, keys, r, i);
        InsertAt(w, keys, r, j);
        hide InsertKey, LowerBound, FindRef;
      }
    }
  }

  /** Without an equal key all keys behind the place of insertion are greater. */
  lemma InsertStrictly(w: Watch, keys: seq<Ref>, r: Ref)
    requires Ordered(w, keys) && FindRef(w, keys, r).None?
    ensures forall i | LowerBound(w, keys, RankOf(w, r)) <= i < |keys| :: Less(RankOf(w, r), RankOf(w, keys[i]))
  {
    var p := LowerBound(w, keys, RankOf(w, r));
    forall i | p <= i < |keys| ensures Less(RankOf(w, r), RankOf(w, keys[i])) {
      assert i == p || !Less(RankOf(w, keys[i]), RankOf(w, keys[p]));
    }
  }

  function EraseKey(keys: seq<Ref>, p: nat): seq<Ref>
    requires p < |keys|
  {
    keys[..p] + keys[p + 1..]
  }

  lemma EraseKeeps(w: Watch, keys: seq<Ref>, p: nat)
    requires Ordered(w, keys) && p < |keys|
    ensures Ordered(w, EraseKey(keys, p))
  {
    var ks := EraseKey(keys, p);
    assert forall i | 0 <= i < |ks| :: ks[i] == keys[if i < p then i else i + 1];
  }

  /** u_onLoaded */
  function DropExpired(w: Watch, keys: seq<Ref>): seq<Ref>
  {
    if keys == [] then []
    else DropExpired(w, keys[..|keys| - 1]) + (if IsExpired(w, keys[|keys| - 1]) then [] else [keys[|keys| - 1]])
  }

  lemma {:induction false} DropExpiredKeeps(w: Watch, keys: seq<Ref>)
    requires Ordered(w, keys)
    ensures Ordered(w, DropExpired(w, keys))
    ensures forall r :: r in DropExpired(w, keys) <==> r in keys && !IsExpired(w, r)
  {
    if keys != [] {
      var front, last := keys[..|keys| - 1], keys[|keys| - 1];
      DropExpiredKeeps(w, front);
      assert forall r :: r in keys <==> r in front || r == last;
      var kept := DropExpired(w, front);
      forall i | 0 <= i < |kept|
        ensures !Less(RankOf(w, last), RankOf(w, kept[i]))
        ensures !IsExpired(w, kept[i]) && !IsExpired(w, last) ==> Raw(w, kept[i]) != Raw(w, last)
      {
        assert kept[i] in front;
        var j :| 0 <= j < |front| && front[j] == kept[i];
        assert keys[j] == front[j];
      }
    }
  }

  /** Expiry changes the ranks of keys while they are in the map, and the map stays ordered. */
  lemma ExpiryKeeps(w: Watch, keys: seq<Ref>, handle: FormHandle)
    requires Coherent(w) && Ordered(w, keys)
    ensures Ordered(FormDeleted(w, handle), keys)
  {
    var t, id := FormDeleted(w, handle), HandleToId(handle);
    forall i | 0 <= i < |keys| ensures Exists(t, keys[i]) {
      DeletedTogether(w, handle, keys[i]);
    }
    forall i, j | 0 <= i < j < |keys|
      ensures !Less(RankOf(t, keys[j]), RankOf(t, keys[i]))
      ensures !IsExpired(t, keys[i]) && !IsExpired(t, keys[j]) ==> Raw(t, keys[i]) != Raw(t, keys[j])
    {
      DeletedTogether(w, handle, keys[i]);
      DeletedTogether(w, handle, keys[j]);
      hide FormDeleted, IsFormHandle, HandleToId;
    }
  }

  /** A change that keeps what references say keeps the map ordered. */
  lemma SameRanksKeep(w: Watch, t: Watch, keys: seq<Ref>)
    requires Ordered(w, keys)
    requires forall i | 0 <= i < |keys| :: Exists(t, keys[i]) && RankOf(t, keys[i]) == RankOf(w, keys[i])
    ensures Ordered(t, keys)
  {
    assert forall i | 0 <= i < |keys| ::
             IsExpired(t, keys[i]) == RankOf(t, keys[i]).expired && Raw(t, keys[i]) == RankOf(t, keys[i]).raw;
    assert forall i | 0 <= i < |keys| ::
             IsExpired(w, keys[i]) == RankOf(w, keys[i]).expired && Raw(w, keys[i]) == RankOf(w, keys[i]).raw;
    hide IsExpired, Raw, RankOf, Exists;
  }

  // ------------------------------------------------------------------ runs

  /** An observer and one form map. */
  datatype System = System(watch: Watch, keys: seq<Ref>)

  datatype Action =
    | DoWatch(id: FormId, made: EntryRef)
    | DoMakeExpired(id: FormId, made: EntryRef)
    | DoFormDeleted(handle: FormHandle)
    | DoRemoveExpired
    | DoForget(entry: EntryRef)
    | DoInsert(key: Ref)
    | DoErase(position: nat)
    | DoLoaded

  ghost predicate Enabled(s: System, act: Action)
  {
    match act
    case DoWatch(_, e) => e !in s.watch.entries
    case DoMakeExpired(_, e) => e !in s.watch.entries
    case DoForget(e) => Some(e) !in s.keys
    case DoInsert(r) => Exists(s.watch, r)
    case DoErase(p) => p < |s.keys|
    case _ => true
  }

  function Apply(s: System, act: Action): System
    requires act.DoErase? ==> act.position < |s.keys|
  {
    match act
    case DoWatch(id, e) => s.(watch := WatchForm(s.watch, id, e).0)
    case DoMakeExpired(id, e) => s.(watch := MakeExpired(s.watch, id, e).0)
    case DoFormDeleted(h) => s.(watch := FormDeleted(s.watch, h))
    case DoRemoveExpired => s.(watch := RemoveExpired(s.watch))
    case DoForget(e) => s.(watch := Forget(s.watch, e))
    case DoInsert(r) => s.(keys := InsertKey(s.watch, s.keys, r))
    case DoErase(p) => s.(keys := EraseKey(s.keys, p))
    case DoLoaded => s.(keys := DropExpired(s.watch, s.keys))
  }

  ghost predicate Good(s: System)
  {
    Coherent(s.watch) && Ordered(s.watch, s.keys)
  }

  lemma StepKeeps(s: System, act: Action)
    requires Good(s) && Enabled(s, act)
    ensures Good(Apply(s, act))
  {
    var w, t, keys := s.watch, Apply(s, act).watch, s.keys;
    hide Ordered, Coherent, WatchForm, MakeExpired, FormDeleted, RemoveExpired, Forget, InsertKey, EraseKey;
    OrderedExists(w, keys);
    match act
    case DoWatch(id, e) =>
      WatchKeeps(w, id, e);
      SameRanksKeep(w, t, keys);
    case DoMakeExpired(id, e) =>
      WatchKeeps(w, id, e);
      SameRanksKeep(w, t, keys);
    case DoFormDeleted(h) =>
      DeletedTogether(w, h, None);
      ExpiryKeeps(w, keys, h);
    case DoRemoveExpired =>
      RemoveExpiredKeeps(w, None);
      forall i | 0 <= i < |keys| ensures Exists(t, keys[i]) && RankOf(t, keys[i]) == RankOf(w, keys[i]) {
        RemoveExpiredKeeps(w, keys[i]);
      }
      SameRanksKeep(w, t, keys);
    case DoForget(e) =>
      ForgetKeeps(w, e, None);
      forall i | 0 <= i < |keys| ensures Exists(t, keys[i]) && RankOf(t, keys[i]) == RankOf(w, keys[i]) {
        ForgetKeeps(w, e, keys[i]);
      }
      SameRanksKeep(w, t, keys);
    case DoInsert(r) => InsertKeeps(w, keys, r);
    case DoErase(p) => EraseKeeps(w, keys, p);
    case DoLoaded => DropExpiredKeeps(w, keys);
  }

  lemma OrderedExists(w: Watch, keys: seq<Ref>)
    requires Ordered(w, keys)
    ensures forall i | 0 <= i < |keys| :: Exists(w, keys[i])
  {
  }

  ghost predicate IsRun(acts: seq<Action>, states: seq<System>)
  {
    && |states| == |acts| + 1 && states[0] == System(Watch(map[], map[], {}), [])
    && forall k | 0 <= k < |acts| :: Enabled(states[k], acts[k]) && states[k + 1] == Apply(states[k], acts[k])
  }

  /** However watching, deletion, insertion and removal are interleaved, the map stays ordered. */
  lemma {:induction false} RunIsGood(acts: seq<Action>, states: seq<System>, k: nat)
    requires IsRun(acts, states) && k < |states|
    ensures Good(states[k])
  {
    hide Good, Enabled;
    if k > 0 {
      RunIsGood(acts, states, k - 1);
      StepKeeps(states[k - 1], acts[k - 1]);
    } else {
      EmptyIsGood();
    }
  }

  lemma EmptyIsGood()
    ensures Good(System(Watch(map[], map[], {}), []))
  {
  }

  /** In every run: lookups find the one live key, and a key that has expired stays expired. */
  lemma LookupsStayRight(acts: seq<Action>, states: seq<System>, k: nat, id: FormId, p: nat)
    requires IsRun(acts, states) && k < |states| && id != 0
    ensures FindId(states[k].watch, states[k].keys, id) == Some(p) <==>
              IsLiveKey(states[k].watch, states[k].keys, p, id)
  {
    RunIsGood(acts, states, k);
    FindIdExact(states[k].watch, states[k].keys, id, p);
  }

  lemma {:induction false} NeverRevives(acts: seq<Action>, states: seq<System>, k: nat, m: nat, e: EntryRef)
    requires IsRun(acts, states) && k <= m < |states|
    requires e in states[k].watch.entries && states[k].watch.entries[e].deleted
    ensures e in states[m].watch.entries && states[m].watch.entries[e] == states[k].watch.entries[e]
  {
    if k < m {
      NeverRevives(acts, states, k, m - 1, e);
      assert Enabled(states[m - 1], acts[m - 1]);
    }
  }

  lemma NoLiveKey(w: Watch, keys: seq<Ref>, id: FormId)
    requires Ordered(w, keys) && id != 0
    ensures FindId(w, keys, id).None? <==> forall i | 0 <= i < |keys| :: IsExpired(w, keys[i]) || Raw(w, keys[i]) != id
  {
    forall p: nat ensures FindId(w, keys, id) == Some(p) <==> IsLiveKey(w, keys, p, id) {
      FindIdExact(w, keys, id, p);
    }
    hide Ordered, FindId;
    if FindId(w, keys, id).Some? {
      assert IsLiveKey(w, keys, FindId(w, keys, id).value, id);
    }
    assert forall p: nat | p < |keys| && !IsLiveKey(w, keys, p, id) :: IsExpired(w, keys[p]) || Raw(w, keys[p]) != id;
  }

  /** Each round of watching a form, using it as a key and deleting it leaves one more expired key of that
      form in the map, and none that a lookup finds. */
  lemma ExpiredPileUp(s: System, id: FormId, e: EntryRef)
    requires Good(s) && e !in s.watch.entries && id != 0 && FindId(s.watch, s.keys, id).None?
    ensures
      var r := WatchForm(s.watch, id, e).1;
      var s1 := Apply(s, DoWatch(id, e));
      var s2 := Apply(s1, DoInsert(r));
      var s3 := Apply(s2, DoFormDeleted(IdToHandle(id)));
      && Enabled(s, DoWatch(id, e)) && Enabled(s1, DoInsert(r)) && Good(s3)
      && |s3.keys| == |s.keys| + 1 && r in s3.keys && RankOf(s3.watch, r) == Rank(id, true)
      && FindId(s3.watch, s3.keys, id).None?
  {
    var w, h := s.watch, IdToHandle(id);
    var (w1, r) := WatchForm(w, id, e);
    WatchKeeps(w, id, e);
    StepKeeps(s, DoWatch(id, e));
    StepKeeps(System(w1, s.keys), DoInsert(r));
    var keys := InsertKey(w1, s.keys, r);
    StepKeeps(System(w1, keys), DoFormDeleted(h));
    NoLiveKey(w, s.keys, id);
    NoLiveKey(w1, s.keys, id);
    OrderedExists(w, s.keys);
    FindRefIsFindId(w1, s.keys, r);
    HandleRoundTrip(id, h);
    DeletedTogether(w1, h, r);
    OrderedExists(w1, keys);
    forall i | 0 <= i < |keys|
      ensures IsExpired(FormDeleted(w1, h), keys[i]) || Raw(FormDeleted(w1, h), keys[i]) != id
    {
      DeletedTogether(w1, h, keys[i]);
    }
    NoLiveKey(FormDeleted(w1, h), keys, id);
    assert r in keys by {
      InsertAt(w1, s.keys, r, LowerBound(w1, s.keys, RankOf(w1, r)));
    }
    hide Ordered, Coherent, FormDeleted, WatchForm, LowerBound;
  }
}
