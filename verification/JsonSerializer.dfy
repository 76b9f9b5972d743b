/** json_serializer: a breadth-first walk that fills JSON nodes in place. */
module JsonSerializer {
  import opened Wrappers
  import opened Numerals
  import opened Sequences
  import opened FormCodec
  import opened Graph
  import opened Collections
  import opened Paths
  import opened JsonDocument
  import opened JsonEncoding

  /** Nothing discovered is more than one key further from the root than a. */
  ghost predicate NoneFurther(s: Session, a: Addr)
    requires a in s.place
  {
    forall x | x in s.place :: |s.place[x].path| <= |s.place[a].path| + 1
  }

  /** Breadth first: the objects being filled and then those of ps are in the order of their distance. */
  ghost predicate InOrder(s: Session, ps: seq<(Addr, nat)>, current: set<Addr>)
  {
    && (forall i | 0 <= i < |ps| :: ps[i].0 in s.place)
    && (forall i, j | 0 <= i < j < |ps| :: |s.place[ps[i].0].path| <= |s.place[ps[j].0].path|)
    && (ps != [] ==> NoneFurther(s, ps[0].0))
    && (forall c | c in current && c in s.place ::
          NoneFurther(s, c) && forall i | 0 <= i < |ps| :: |s.place[c].path| <= |s.place[ps[i].0].path|)
  }

  /** t has the places of s, and perhaps that of item, one key further from the root than a. */
  ghost predicate PlacesGrew(s: Session, t: Session, a: Addr, item: Item)
  {
    && a in s.place && (item.Object? ==> item.ref in t.place)
    && (forall x | x in s.place :: x in t.place && |t.place[x].path| == |s.place[x].path|)
    && (forall x | x in t.place && x !in s.place :: item == Object(x) && |t.place[x].path| == |s.place[a].path| + 1)
  }

  lemma SteppedPlaces(g: Heap, s: Session, t: Session, a: Addr, q: Key, k: Key, item: Item)
    requires Stepped(g, s, t, a, q, k, item) && (item.Object? ==> item.ref in t.place)
    ensures PlacesGrew(s, t, a, item)
  {
    hide EmptyNode;
  }

  lemma InOrderStep(s: Session, t: Session, ps: seq<(Addr, nat)>, a: Addr, item: Item)
    requires InOrder(s, ps, {a}) && PlacesGrew(s, t, a, item)
    ensures InOrder(t, ps + NewlyFound(s.place, |s.doc|, item), {a})
  {
    StillInOrder(s, t, ps, a, item);
    if item.Object? && item.ref !in s.place {
      OneMoreInOrder(t, ps, a, (item.ref, |s.doc|));
    } else {
      assert ps + [] == ps;
    }
    hide InOrder;
  }

  lemma StillInOrder(s: Session, t: Session, ps: seq<(Addr, nat)>, a: Addr, item: Item)
    requires InOrder(s, ps, {a}) && PlacesGrew(s, t, a, item)
    ensures InOrder(t, ps, {a})
  {
    assert NoneFurther(s, a);
    assert forall i | 0 <= i < |ps| :: ps[i].0 in s.place;
  }

  lemma OneMoreInOrder(t: Session, ps: seq<(Addr, nat)>, a: Addr, p: (Addr, nat))
    requires InOrder(t, ps, {a}) && a in t.place && p.0 in t.place && |t.place[p.0].path| == |t.place[a].path| + 1
    ensures InOrder(t, ps + [p], {a})
  {
    var qs := ps + [p];
    assert forall i | 0 <= i < |qs| :: if i < |ps| then qs[i] == ps[i] else qs[i] == p;
    assert forall i | 0 <= i < |ps| :: ps[i].0 in t.place;
    assert NoneFurther(t, a);
  }

  lemma SamePlacesInOrder(s: Session, t: Session, ps: seq<(Addr, nat)>, a: Addr)
    requires InOrder(s, ps, {a}) && t.place == s.place
    ensures InOrder(t, ps, {a})
  {
  }

  lemma InOrderTail(s: Session, ps: seq<(Addr, nat)>)
    requires ps != [] && InOrder(s, ps, {})
    ensures InOrder(s, ps[1..], {ps[0].0})
  {
    assert forall i | 0 <= i < |ps[1..]| :: ps[1..][i] == ps[i + 1];
  }

  ghost predicate Pending(g: Heap, s: Session, ps: seq<(Addr, nat)>, current: set<Addr>)
  {
    Unwritten(g, s, ps, current) && InOrder(s, ps, current)
  }

  /** Exactly the objects of ps and of current are not completely written, and those of ps are untouched. */
  ghost predicate Unwritten(g: Heap, s: Session, ps: seq<(Addr, nat)>, current: set<Addr>)
  {
    && (forall i | 0 <= i < |ps| ::
          ps[i].0 !in current && Untouched(g, s, ps[i].0) && s.place[ps[i].0].node == ps[i].1)
    && (forall i, j | 0 <= i < j < |ps| :: ps[i].0 != ps[j].0)
    && (forall a | a in s.place && a !in current && (forall i | 0 <= i < |ps| :: ps[i].0 != a) :: Filled(g, s, a))
  }

  lemma PendingStep(g: Heap, s: Session, t: Session, ps: seq<(Addr, nat)>, a: Addr, q: Key, k: Key, item: Item)
    requires Pending(g, s, ps, {a}) && Stepped(g, s, t, a, q, k, item) && Separate(s)
    requires item.Object? ==> item.ref in t.place
    requires forall b, r | (b, r) in s.done :: b in s.place
    requires forall b | b in s.metaOf :: b in s.place
    ensures Pending(g, t, ps + NewlyFound(s.place, |s.doc|, item), {a})
  {
    hide Unwritten, InOrder, Separate, Stepped, PlacesGrew;
    SteppedPlaces(g, s, t, a, q, k, item);
    InOrderStep(s, t, ps, a, item);
    UnwrittenStep(g, s, t, ps, a, q, k, item);
  }

  lemma UnwrittenStep(g: Heap, s: Session, t: Session, ps: seq<(Addr, nat)>, a: Addr, q: Key, k: Key, item: Item)
    requires Unwritten(g, s, ps, {a}) && Stepped(g, s, t, a, q, k, item) && Separate(s)
    requires item.Object? ==> item.ref in t.place
    requires forall b, r | (b, r) in s.done :: b in s.place
    requires forall b | b in s.metaOf :: b in s.place
    ensures Unwritten(g, t, ps + NewlyFound(s.place, |s.doc|, item), {a})
  {
    forall i | 0 <= i < |ps|
      ensures ps[i].0 !in {a} && Untouched(g, t, ps[i].0) && t.place[ps[i].0].node == ps[i].1
    {
      assert Untouched(g, s, ps[i].0);
    }
    {
      hide *;
      UnwrittenRest(g, s, t, ps, a, q, k, item);
    }
    hide Separate, HasSlot, Filled;
  }

  lemma UnwrittenRest(g: Heap, s: Session, t: Session, ps: seq<(Addr, nat)>, a: Addr, q: Key, k: Key, item: Item)
    requires Unwritten(g, s, ps, {a}) && Stepped(g, s, t, a, q, k, item)
    ensures forall b | b in t.place && b !in {a} && (forall i | 0 <= i < |ps + NewlyFound(s.place, |s.doc|, item)| ::
              (ps + NewlyFound(s.place, |s.doc|, item))[i].0 != b) :: Filled(g, t, b)
  {
    var added := NewlyFound(s.place, |s.doc|, item);
    hide Untouched;
    forall b | b in t.place && b !in {a} && (forall i | 0 <= i < |ps + added| :: (ps + added)[i].0 != b)
      ensures Filled(g, t, b)
    {
      forall i | 0 <= i < |ps| ensures ps[i].0 != b {
        assert (ps + added)[i].0 != b;
      }
      assert added != [] ==> (ps + added)[|ps|] == added[0];
      assert Filled(g, s, b);
    }
  }

  /** The object an item adds to the work list. */
  ghost function NewlyFound(place: map<Addr, Place>, node: nat, item: Item): seq<(Addr, nat)>
  {
    if item.Object? && item.ref !in place then [(item.ref, node)] else []
  }

  /** _keyInfo and _serializedObjects agree with the places of the discovered objects. */
  ghost predicate KeyInfoFits(root: Addr, place: map<Addr, Place>, serialized: set<Addr>,
                              keyInfo: map<Addr, (Addr, Key)>)
  {
    && serialized == place.Keys
    && forall c | c in serialized && c != root :: c in keyInfo && keyInfo[c] == (place[c].parent, place[c].key)
  }

  ghost function Noted(keyInfo: map<Addr, (Addr, Key)>, a: Addr, k: Key, item: Item): map<Addr, (Addr, Key)>
  {
    if item.Object? && item.ref !in keyInfo then keyInfo[item.ref := (a, k)] else keyInfo
  }

  lemma FoundFits(root: Addr, place: map<Addr, Place>, keyInfo: map<Addr, (Addr, Key)>,
                  a: Addr, k: Key, item: Item, node: nat, path: seq<Key>)
    requires KeyInfoFits(root, place, place.Keys, keyInfo) && keyInfo.Keys <= place.Keys && root in place
    ensures
      var found := item.Object? && item.ref !in place;
      var after := if found then place[item.ref := Place(node, path, a, k)] else place;
      KeyInfoFits(root, after, after.Keys, Noted(keyInfo, a, k, item)) && Noted(keyInfo, a, k, item).Keys <= after.Keys
  {
  }

  lemma NotedFits(root: Addr, place: map<Addr, Place>, serialized: set<Addr>, keyInfo: map<Addr, (Addr, Key)>,
                  a: Addr, k: Key, item: Item)
    requires KeyInfoFits(root, place, serialized, keyInfo)
    ensures KeyInfoFits(root, place, serialized, Noted(keyInfo, a, k, item))
  {
  }

  lemma SlotReady(mods: Mods, g: Heap, root: Addr, s: Session, a: Addr, q: Key, k: Key, item: Item, pos: Position,
                  keyInfo: map<Addr, (Addr, Key)>)
    requires Inv(mods, g, root, s) && a in s.place && a in g && HasSlot(g[a], q) && (a, q) !in s.done
    requires SpellingAt(g[a], q) == k && ItemAt(g[a], q) == item
    requires PosOf(mods, g[a], q) == Some(pos) && CanWrite(s, s.place[a].node, pos)
    requires KeyInfoFits(root, s.place, s.place.Keys, keyInfo) && keyInfo.Keys <= s.place.Keys
    ensures item.Object? ==> item.ref in g
    ensures Ready(mods, g, s, a, q) && Inv(mods, g, root, Emit(mods, g, root, s, a, q))
    ensures KeyInfoFits(root, s.place, s.place.Keys, Noted(keyInfo, a, k, item))
    ensures
      var found := item.Object? && item.ref !in s.place;
      var after := if found then s.place[item.ref := Place(|s.doc|, s.place[a].path + [k], a, k)] else s.place;
      KeyInfoFits(root, after, after.Keys, Noted(keyInfo, a, k, item)) && Noted(keyInfo, a, k, item).Keys <= after.Keys
  {
    hide KeyInfoFits;
    PlacedInGraph(mods, g, root, s, a, q);
    CanEmit(mods, g, root, s, a, q);
    hide CanWrite;
    EmitKeepsInv(mods, g, root, s, a, q);
    hide Inv, Ready, Emit, HasSlot, PosOf, ItemAt, SpellingAt;
    NotedFits(root, s.place, s.place.Keys, keyInfo, a, k, item);
    FoundFits(root, s.place, keyInfo, a, k, item, |s.doc|, s.place[a].path + [k]);
  }

  lemma Advance(mods: Mods, g: Heap, root: Addr, s: Session, a: Addr, q: Key, pos: Position, ps: seq<(Addr, nat)>)
    requires Inv(mods, g, root, s) && Ready(mods, g, s, a, q) && (a, q) !in s.done && PosOf(mods, g[a], q) == Some(pos)
    requires Pending(g, s, ps, {a})
    ensures
      var t, added := Emit(mods, g, root, s, a, q), NewlyFound(s.place, |s.doc|, ItemAt(g[a], q));
      && Pending(g, t, ps + added, {a})
      && t.done == s.done + {(a, q)} && t.metaOf == s.metaOf && a in t.place && t.place[a] == s.place[a]
      && t.place[a].node < |t.doc|
      && (var node := t.doc[t.place[a].node];
          if pos.Element? then node.JArray? && |node.elems| == pos.index + 1 else node.JObject?)
      && s.place.Keys <= t.place.Keys && (t.place.Keys == s.place.Keys ==> added == [])
  {
    hide Pending;
    EmitSummary(mods, g, root, s, a, q, pos);
    DoneIsPlaced(mods, g, root, s);
    EmitValue(mods, g, root, s, a, q);
    hide Inv, Ready, Emit, PosOf, HasSlot;
    PendingStep(g, s, Emit(mods, g, root, s, a, q), ps, a, q, SpellingAt(g[a], q), ItemAt(g[a], q));
  }

  lemma DoneIsPlaced(mods: Mods, g: Heap, root: Addr, s: Session)
    requires Inv(mods, g, root, s)
    ensures Separate(s)
    ensures forall b, r | (b, r) in s.done :: b in s.place
    ensures forall b | b in s.metaOf :: b in s.place
  {
    forall b, r | (b, r) in s.done ensures b in s.place {
      assert SlotDone(mods, g, root, s, b, r);
    }
    forall b | b in s.metaOf ensures b in s.place {
      assert Marked(g, s, b);
    }
  }

  /** Once the last slot is written, the object joins the finished ones. */
  lemma Finish(g: Heap, s: Session, ps: seq<(Addr, nat)>, a: Addr)
    requires Pending(g, s, ps, {a}) && Filled(g, s, a)
    ensures Pending(g, s, ps, {})
  {
  }

  /** Taking the first object off the work list. */
  lemma TakeFirst(g: Heap, s: Session, ps: seq<(Addr, nat)>)
    requires ps != [] && Pending(g, s, ps, {})
    ensures Pending(g, s, ps[1..], {ps[0].0}) && Untouched(g, s, ps[0].0) && s.place[ps[0].0].node == ps[0].1
  {
    var a, tail := ps[0].0, ps[1..];
    InOrderTail(s, ps);
    hide InOrder;
    forall b | b in s.place && b !in {a} && (forall i | 0 <= i < |tail| :: tail[i].0 != b) ensures Filled(g, s, b) {
      forall i | 0 <= i < |ps| ensures ps[i].0 != b {
        if i > 0 {
          assert tail[i - 1].0 != b;
        }
      }
    }
  }

  /** The elements of the array a before index are written, those from index on are not. */
  ghost predicate ArrayProgress(g: Heap, s: Session, a: Addr, n: nat, index: nat)
  {
    && a in g && g[a].Array? && |g[a].items| <= INT_MAX
    && a in s.place && s.place[a].node == n && n < |s.doc|
    && s.doc[n].JArray? && |s.doc[n].elems| == index
    && forall q :: (a, q) in s.done <==> q.IntKey? && 0 <= q.index < index
  }

  lemma NoElementWritten(mods: Mods, g: Heap, root: Addr, s: Session, a: Addr)
    requires Inv(mods, g, root, s) && Untouched(g, s, a) && g[a].Array?
    ensures ArrayProgress(g, s, a, s.place[a].node, 0)
  {
    PlacedInGraph(mods, g, root, s, a, IntKey(0));
  }

  lemma ElementSlot(mods: Mods, g: Heap, s: Session, a: Addr, n: nat, i: nat)
    requires ArrayProgress(g, s, a, n, i) && i < |g[a].items|
    ensures i < INT_MAX && CanWrite(s, n, Element(i)) && a in s.place && s.place[a].node == n
    ensures var q := IntKey(i);
            && (a, q) !in s.done && HasSlot(g[a], q) && SpellingAt(g[a], q) == q && ItemAt(g[a], q) == g[a].items[i]
            && PosOf(mods, g[a], q) == Some(Element(i))
  {
  }

  lemma ElementWritten(g: Heap, s: Session, t: Session, a: Addr, n: nat, i: nat)
    requires ArrayProgress(g, s, a, n, i) && i < INT_MAX && t.done == s.done + {(a, IntKey(i))}
    requires a in t.place && t.place[a].node == n && n < |t.doc| && t.doc[n].JArray? && |t.doc[n].elems| == i + 1
    ensures ArrayProgress(g, t, a, n, i + 1)
  {
  }

  lemma AllElementsWritten(g: Heap, s: Session, a: Addr, n: nat)
    requires a in g && g[a].Array? && ArrayProgress(g, s, a, n, |g[a].items|)
    ensures Filled(g, s, a)
  {
  }

  lemma TreeSlot(mods: Mods, c: Container, q: Key)
    requires c.Tree? && q in c.slots
    ensures HasSlot(c, q) && SpellingAt(c, q) == c.slots[q].spelling && ItemAt(c, q) == c.slots[q].item
    ensures PosOf(mods, c, q) ==
            match SlotName(mods, c.slots[q].spelling) case None => None case Some(m) => Some(Member(m))
  {
  }

  /** The slots of the tree a outside todo are written, those in todo are not. */
  ghost predicate WrittenExcept(s: Session, g: Heap, a: Addr, todo: set<Key>)
  {
    && a in g && g[a].Tree? && todo <= g[a].slots.Keys
    && (g[a].kind != MapKind ==> a in s.metaOf)
    && forall q | q in g[a].slots :: (a, q) in s.done <==> q !in todo
  }

  lemma WriteAny(s: Session, t: Session, g: Heap, a: Addr, todo: set<Key>, q: Key)
    requires WrittenExcept(s, g, a, todo) && q in todo
    requires t.done == s.done + {(a, q)} && t.metaOf == s.metaOf
    ensures WrittenExcept(t, g, a, todo - {q})
  {
  }

  lemma AllSlotsWritten(g: Heap, s: Session, a: Addr)
    requires WrittenExcept(s, g, a, {})
    ensures Filled(g, s, a)
  {
  }

  lemma PassOverPending(g: Heap, s: Session, t: Session, ps: seq<(Addr, nat)>, a: Addr, q: Key)
    requires Pending(g, s, ps, {a}) && t == s.(done := s.done + {(a, q)})
    ensures Pending(g, t, ps, {a})
  {
    SamePlacesInOrder(s, t, ps, a);
    hide InOrder;
    forall i | 0 <= i < |ps| ensures Untouched(g, t, ps[i].0) {
      assert Untouched(g, s, ps[i].0);
    }
  }

  lemma MarkPending(mods: Mods, g: Heap, s: Session, ps: seq<(Addr, nat)>, a: Addr)
    requires Pending(g, s, ps, {a}) && Separate(s) && Untouched(g, s, a) && g[a].Tree?
    requires forall b | b in s.place :: s.place[b].node < |s.doc|
    ensures Pending(g, MarkKind(g, s, a), ps, {a})
  {
    var t := MarkKind(g, s, a);
    SamePlacesInOrder(s, t, ps, a);
    hide InOrder;
    forall i | 0 <= i < |ps| ensures Untouched(g, t, ps[i].0) {
      assert Untouched(g, s, ps[i].0);
    }
  }

  lemma MarkStep(mods: Mods, g: Heap, root: Addr, s: Session, ps: seq<(Addr, nat)>, a: Addr)
    requires Inv(mods, g, root, s) && Near(mods, g, s) && Pending(g, s, ps, {a}) && Untouched(g, s, a)
    requires g[a].Tree? && g[a].kind != MapKind
    ensures
      var t, n := MarkKind(g, s, a), s.place[a].node;
      && Inv(mods, g, root, t) && Near(mods, g, t) && Pending(g, t, ps, {a}) && t.place == s.place
      && n < |s.doc| && s.doc[n].JObject? && n < |t.doc| && t.doc[n].JObject?
      && t.doc == s.doc[n := PutAt(s.doc[n], Member(META_INFO), JNode(|s.doc|))] + [MetaNode(g[a].kind)]
  {
    MarkKeepsInv(mods, g, root, s, a);
    assert forall b | b in s.place :: s.place[b].node < |s.doc|;
    assert Separate(s);
    hide Inv, Pending, HasSlot, PosOf, ItemAt;
    MarkPending(mods, g, s, ps, a);
  }

  ghost function AfterMark(g: Heap, s: Session, a: Addr): Session
  {
    if a in g && g[a].Tree? && a in s.place && CanWrite(s, s.place[a].node, Member(META_INFO))
    then MarkKind(g, s, a) else s
  }

  lemma PassStep(mods: Mods, g: Heap, root: Addr, s: Session, t: Session, ps: seq<(Addr, nat)>, a: Addr, q: Key)
    requires Inv(mods, g, root, s) && Near(mods, g, s) && Pending(g, s, ps, {a}) && t == s.(done := s.done + {(a, q)})
    requires a in s.place && a in g && HasSlot(g[a], q) && PosOf(mods, g[a], q).None?
    ensures Inv(mods, g, root, t) && Near(mods, g, t) && Pending(g, t, ps, {a})
  {
    PassOver(mods, g, root, s, t, a, q);
    hide Inv, Near, Pending, PosOf, HasSlot;
    PassOverPending(g, s, t, ps, a, q);
    PassOverNear(mods, g, s, t, a, q);
  }

  lemma PassOverNear(mods: Mods, g: Heap, s: Session, t: Session, a: Addr, q: Key)
    requires Near(mods, g, s) && t == s.(done := s.done + {(a, q)})
    requires a in g && HasSlot(g[a], q) && PosOf(mods, g[a], q).None?
    ensures Near(mods, g, t)
  {
    hide PosOf, HasSlot, ItemAt;
    forall b, r | (b, r) in t.done && b in t.place && b in g && HasSlot(g[b], r) && PosOf(mods, g[b], r).Some?
      ensures NearSlot(t, b, ItemAt(g[b], r))
    {
      assert (b, r) in s.done && NearSlot(s, b, ItemAt(g[b], r));
    }
  }

  lemma StillToWrite(s: Session, g: Heap, a: Addr, todo: set<Key>, q: Key)
    requires WrittenExcept(s, g, a, todo) && q in todo
    ensures (a, q) !in s.done
  {
  }

  lemma NoneWritten(s: Session, g: Heap, a: Addr)
    requires a in g && g[a].Tree? && (g[a].kind != MapKind ==> a in s.metaOf)
    requires forall q :: (a, q) !in s.done
    ensures WrittenExcept(s, g, a, g[a].slots.Keys)
  {
  }

  lemma PendingOrder(g: Heap, s: Session, ps: seq<(Addr, nat)>, a: Addr)
    requires Pending(g, s, ps, {a}) && a in s.place
    ensures NoneFurther(s, a)
  {
    hide Untouched, Filled;
  }

  lemma StartPending(g: Heap, root: Addr)
    requires root in g
    ensures Pending(g, Start(g, root), [(root, 0)], {})
  {
    var ps := [(root, 0)];
    assert ps[0].0 == root && Untouched(g, Start(g, root), root);
  }

  /** The state that create_placeholder leaves for the root. */
  lemma StartFacts(mods: Mods, g: Heap, root: Addr)
    requires HeapClosed(g) && root in g
    ensures var s := Start(g, root);
            && Inv(mods, g, root, s) && Near(mods, g, s) && Pending(g, s, [(root, 0)], {})
            && s.doc == [EmptyNode(g[root])] && s.place.Keys == {root} && KeyInfoFits(root, s.place, {root}, map[])
    ensures [] + [EmptyNode(g[root])] == [EmptyNode(g[root])] && [] + [(root, 0)] == [(root, 0)]
  {
    StartInv(mods, g, root);
    StartPending(g, root);
    hide Inv, Pending, EmptyNode;
  }

  lemma SerializedInGraph(mods: Mods, g: Heap, root: Addr, s: Session)
    requires Inv(mods, g, root, s)
    ensures s.place.Keys <= g.Keys
  {
  }

  lemma NothingPending(mods: Mods, g: Heap, root: Addr, s: Session)
    requires Inv(mods, g, root, s) && Pending(g, s, [], {})
    ensures Serialized(mods, g, root, s)
  {
  }

  lemma PlusIsAssociative<T>(a: seq<T>, b: seq<T>, c: seq<T>)
    ensures (a + b) + c == a + (b + c)
  {
  }

  class Serializer {
    const mods: Mods
    const graph: Heap
    const root: Addr

    var nodes: Doc
    var serialized: set<Addr>
    var keyInfo: map<Addr, (Addr, Key)>
    var toFill: seq<(Addr, nat)>

    ghost var session: Session

    constructor (mods: Mods, graph: Heap, root: Addr)
      requires HeapClosed(graph) && root in graph
      ensures this.mods == mods && this.graph == graph && this.root == root
      ensures nodes == [] && serialized == {} && keyInfo == map[] && toFill == [] && session.place == map[]
    {
      this.mods, this.graph, this.root := mods, graph, root;
      nodes, serialized, keyInfo, toFill := [], {}, map[], [];
      session := Session([], map[], {}, map[], map[]);
    }

    ghost predicate Known()
      reads this
    {
      KeyInfoFits(root, session.place, serialized, keyInfo)
    }

    ghost predicate Valid()
      reads this
    {
      && Known() && keyInfo.Keys <= serialized && nodes == session.doc
      && Inv(mods, graph, root, session) && Near(mods, graph, session)
    }

    method FillKeyInfo(value: Item, owner: Addr, key: Key)
      modifies this`keyInfo
      ensures keyInfo == Noted(old(keyInfo), owner, key, value)
    {
      if value.Object? {
        if value.ref !in keyInfo {
          keyInfo := keyInfo[value.ref := (owner, key)];
        }
      }
    }

    /** Following _keyInfo from an object leads back to the root and collects the keys of its place. */
    method KeysTo(obj: Addr) returns (keys: seq<Key>)
      requires Known() && Inv(mods, graph, root, session) && obj in serialized
      ensures keys == session.place[obj].path
    {
      hide Inv;
      keys := [];
      var child := obj;
      while child != root && child in keyInfo
        invariant child in session.place
        invariant session.place[obj].path == session.place[child].path + keys
        decreases session.place[child].node
      {
        ParentOf(mods, graph, root, session, child);
        var (owner, key) := keyInfo[child];
        PlusIsAssociative(session.place[owner].path, [key], keys);
        child := owner;
        keys := [key] + keys;
      }
      RootPlace(mods, graph, root, session);
    }

    method PathToObject(obj: Addr) returns (path: string)
      requires Known() && Inv(mods, graph, root, session) && obj in serialized
      ensures path == REFERENCE + PrintKeys(mods, session.place[obj].path)
    {
      var keys := KeysTo(obj);
      path := AppendKeys(REFERENCE, keys);
    }

    method AppendKeys(prefix: string, keys: seq<Key>) returns (path: string)
      ensures path == prefix + PrintKeys(mods, keys)
    {
      path := prefix;
      for i := 0 to |keys|
        invariant path == prefix + PrintKeys(mods, keys[..i])
      {
        assert keys[..i + 1][..i] == keys[..i];
        PlusIsAssociative(prefix, PrintKeys(mods, keys[..i]), PrintKey(mods, keys[i]));
        path := path + PrintKey(mods, keys[i]);
      }
      assert keys[..|keys|] == keys;
    }

    method CreatePlaceholder(obj: Addr) returns (placeholder: Value)
      requires serialized == session.place.Keys && obj in graph
      requires obj in serialized ==> Known() && Inv(mods, graph, root, session)
      modifies this`nodes, this`toFill, this`serialized
      ensures Created(mods, graph, session.place, old(nodes), Object(obj), placeholder, nodes, serialized)
      ensures toFill == old(toFill) + NewlyFound(session.place, old(|nodes|), Object(obj))
    {
      if obj !in serialized {
        placeholder := JNode(|nodes|);
        toFill := toFill + [(obj, |nodes|)];
        nodes := nodes + [if graph[obj].Array? then JArray([]) else JObject(map[])];
        serialized := serialized + {obj};
      } else {
        var path := PathToObject(obj);
        placeholder := JString(path);
      }
    }

    method CreateValue(item: Item) returns (v: Value)
      requires Known() && Inv(mods, graph, root, session) && (item.Object? ==> item.ref in graph)
      modifies this`nodes, this`toFill, this`serialized
      ensures Created(mods, graph, session.place, old(nodes), item, v, nodes, serialized)
      ensures toFill == old(toFill) + NewlyFound(session.place, old(|nodes|), item)
    {
      match item
      case Text(text) => v := JString(text);
      case Blank => v := JNull;
      case Integer(i) => v := JInteger(i);
      case Real(bits) => v := JReal(bits);
      case Form(form) =>
        var s := FormToString(mods, form);
        v := if s.Some? then JString(s.value) else JNull;
      case Object(obj) => v := CreatePlaceholder(obj);
    }

    /** fill_key_info, create_value and json_array_append_new or json_object_set_new for one slot. */
    method WriteSlot(a: Addr, n: nat, key: Key, item: Item, pos: Position, ghost q: Key)
      requires Valid() && a in serialized && a in graph && session.place[a].node == n && (a, q) !in session.done
      requires HasSlot(graph[a], q) && SpellingAt(graph[a], q) == key && ItemAt(graph[a], q) == item
      requires PosOf(mods, graph[a], q) == Some(pos) && CanWrite(session, n, pos)
      requires a in session.place && NoneFurther(session, a)
      modifies this
      ensures Valid()
      ensures Ready(mods, graph, old(session), a, q) && session == Emit(mods, graph, root, old(session), a, q)
      ensures toFill == old(toFill) + NewlyFound(old(session).place, old(|nodes|), item)
    {
      ghost var s, before := session, keyInfo;
      hide Inv, Near, HasSlot, PosOf, ItemAt, SpellingAt, CanWrite, Created, Emit, PutAt;
      SlotReady(mods, graph, root, s, a, q, key, item, pos, keyInfo);
      FillKeyInfo(item, a, key);
      var v := CreateValue(item);
      EmitEffect(mods, graph, root, s, a, q, pos, item, v, nodes, serialized);
      NearStep(mods, graph, root, s, a, q);
      nodes := nodes[n := PutAt(nodes[n], pos, v)];
      session := Emit(mods, graph, root, s, a, q);
    }

    /** One slot of the object being filled; what it discovers joins the work list. */
    method FillSlot(a: Addr, n: nat, key: Key, item: Item, pos: Position, ghost q: Key, ghost rest: seq<(Addr, nat)>)
      requires Valid() && a in serialized && a in graph && session.place[a].node == n && (a, q) !in session.done
      requires HasSlot(graph[a], q) && SpellingAt(graph[a], q) == key && ItemAt(graph[a], q) == item
      requires PosOf(mods, graph[a], q) == Some(pos) && CanWrite(session, n, pos)
      requires Pending(graph, session, rest + toFill, {a})
      modifies this
      ensures Valid() && Pending(graph, session, rest + toFill, {a})
      ensures session.done == old(session.done) + {(a, q)} && session.metaOf == old(session.metaOf)
      ensures a in session.place && session.place[a].node == n && old(serialized) <= serialized
      ensures n < |nodes| &&
              (if pos.Element? then nodes[n].JArray? && |nodes[n].elems| == pos.index + 1 else nodes[n].JObject?)
      ensures serialized == old(serialized) ==> toFill == old(toFill)
    {
      hide Inv, Near, Pending, Ready, Emit, PosOf, HasSlot, SpellingAt, ItemAt;
      ghost var s, ps := session, rest + toFill;
      PendingOrder(graph, s, ps, a);
      WriteSlot(a, n, key, item, pos, q);
      Advance(mods, graph, root, s, a, q, pos, ps);
      assert rest + toFill == ps + NewlyFound(s.place, |s.doc|, item);
    }

    method FillArray(a: Addr, n: nat, ghost rest: seq<(Addr, nat)>)
      requires Valid() && a in graph && graph[a].Array?
      requires Untouched(graph, session, a) && session.place[a].node == n && Pending(graph, session, rest + toFill, {a})
      modifies this
      ensures Valid() && Pending(graph, session, rest + toFill, {})
      ensures old(serialized) <= serialized && (serialized == old(serialized) ==> toFill == old(toFill))
    {
      hide Inv, Near, Pending, KeyInfoFits;
      var items := graph[a].items;
      NoElementWritten(mods, graph, root, session, a);
      hide *;
      for index := 0 to |items|
        invariant Valid() && Pending(graph, session, rest + toFill, {a})
        invariant ArrayProgress(graph, session, a, n, index)
        invariant old(serialized) <= serialized && (serialized == old(serialized) ==> toFill == old(toFill))
      {
        FillElement(a, n, index, rest);
      }
      AllElementsWritten(graph, session, a, n);
      Finish(graph, session, rest + toFill, a);
    }

    method FillElement(a: Addr, n: nat, index: nat, ghost rest: seq<(Addr, nat)>)
      requires Valid() && Pending(graph, session, rest + toFill, {a}) && ArrayProgress(graph, session, a, n, index)
      requires a in graph && graph[a].Array? && index < |graph[a].items|
      modifies this
      ensures Valid() && Pending(graph, session, rest + toFill, {a}) && ArrayProgress(graph, session, a, n, index + 1)
      ensures old(serialized) <= serialized && (serialized == old(serialized) ==> toFill == old(toFill))
    {
      hide Inv, Near, Pending, ArrayProgress, HasSlot, PosOf, ItemAt, SpellingAt;
      ElementSlot(mods, graph, session, a, n, index);
      ghost var s := session;
      FillSlot(a, n, IntKey(index), graph[a].items[index], Element(index), IntKey(index), rest);
      ElementWritten(graph, s, session, a, n, index);
    }

    method PutMetainfo(a: Addr, n: nat, ghost rest: seq<(Addr, nat)>)
      requires Untouched(graph, session, a) && session.place[a].node == n
      requires graph[a].Tree? && graph[a].kind != MapKind && Valid() && Pending(graph, session, rest + toFill, {a})
      modifies this`nodes, this`session
      ensures Valid() && Pending(graph, session, rest + toFill, {a})
      ensures session == AfterMark(graph, old(session), a) && n < |nodes| && nodes[n].JObject?
    {
      hide Inv, Near, Pending;
      MarkStep(mods, graph, root, session, rest + toFill, a);
      hide *;
      var metaInfo := |nodes|;
      nodes := nodes[n := PutAt(nodes[n], Member(META_INFO), JNode(metaInfo))] + [MetaNode(graph[a].kind)];
      session := MarkKind(graph, session, a);
    }

    method FillTree(a: Addr, n: nat, ghost rest: seq<(Addr, nat)>)
      requires Valid() && a in graph && graph[a].Tree?
      requires Untouched(graph, session, a) && session.place[a].node == n && Pending(graph, session, rest + toFill, {a})
      modifies this
      ensures Valid() && Pending(graph, session, rest + toFill, {})
      ensures old(serialized) <= serialized && (serialized == old(serialized) ==> toFill == old(toFill))
    {
      hide Inv, Near, Pending;
      var slots := graph[a].slots;
      if graph[a].kind != MapKind {
        PutMetainfo(a, n, rest);
      }
      NoneWritten(session, graph, a);
      hide *;
      var todo := slots.Keys;
      while todo != {}
        invariant Valid() && Pending(graph, session, rest + toFill, {a}) && todo <= slots.Keys
        invariant a in session.place && session.place[a].node == n && n < |nodes| && nodes[n].JObject?
        invariant WrittenExcept(session, graph, a, todo)
        invariant old(serialized) <= serialized && (serialized == old(serialized) ==> toFill == old(toFill))
      {
        var q :| q in todo;
        todo := FillNext(a, n, q, todo, rest);
      }
      AllSlotsWritten(graph, session, a);
      Finish(graph, session, rest + toFill, a);
    }

    ghost method Skip(a: Addr, q: Key, rest: seq<(Addr, nat)>)
      requires Valid() && Pending(graph, session, rest + toFill, {a}) && a in session.place && a in graph
      requires HasSlot(graph[a], q) && PosOf(mods, graph[a], q).None?
      modifies this`session
      ensures Valid() && Pending(graph, session, rest + toFill, {a})
      ensures session == old(session).(done := old(session).done + {(a, q)})
    {
      hide Inv, Near, Pending, HasSlot, PosOf;
      PassStep(mods, graph, root, session, session.(done := session.done + {(a, q)}), rest + toFill, a, q);
      session := session.(done := session.done + {(a, q)});
    }

    /** One turn of the loop over a tree; a key that does not encode leaves no trace in the JSON. */
    method FillNext(a: Addr, n: nat, q: Key, todo: set<Key>, ghost rest: seq<(Addr, nat)>) returns (left: set<Key>)
      requires Valid() && Pending(graph, session, rest + toFill, {a}) && q in todo
      requires a in graph && graph[a].Tree? && todo <= graph[a].slots.Keys && WrittenExcept(session, graph, a, todo)
      requires a in session.place && session.place[a].node == n && n < |nodes| && nodes[n].JObject?
      modifies this
      ensures left == todo - {q}
      ensures Valid() && Pending(graph, session, rest + toFill, {a}) && WrittenExcept(session, graph, a, left)
      ensures a in session.place && session.place[a].node == n && n < |nodes| && nodes[n].JObject?
      ensures old(serialized) <= serialized && (serialized == old(serialized) ==> toFill == old(toFill))
    {
      hide Inv, Near, Pending, WrittenExcept, HasSlot, PosOf, ItemAt, SpellingAt;
      assert a in serialized;
      hide KeyInfoFits;
      var slot := graph[a].slots[q];
      var name := SlotName(mods, slot.spelling);
      TreeSlot(mods, graph[a], q);
      StillToWrite(session, graph, a, todo, q);
      ghost var s := session;
      if name.Some? {
        FillSlot(a, n, slot.spelling, slot.item, Member(name.value), q, rest);
      } else {
        Skip(a, q, rest);
      }
      hide *;
      WriteAny(s, session, graph, a, todo, q);
      left := todo - {q};
    }

    method Begin() returns (rootValue: Value)
      requires HeapClosed(graph) && root in graph
      requires nodes == [] && serialized == {} && keyInfo == map[] && toFill == [] && session.place == map[]
      modifies this
      ensures Valid() && Pending(graph, session, toFill, {}) && rootValue == JNode(0)
    {
      StartFacts(mods, graph, root);
      hide Inv, Near, Pending, HeapClosed, EmptyNode;
      rootValue := CreatePlaceholder(root);
      session := Start(graph, root);
    }

    /** The whole walk: afterwards the JSON holds every object reachable from the root exactly once. */
    method WriteJson() returns (rootValue: Value)
      requires HeapClosed(graph) && root in graph
      requires nodes == [] && serialized == {} && keyInfo == map[] && toFill == [] && session.place == map[]
      modifies this
      ensures rootValue == JNode(0) && nodes == session.doc && Serialized(mods, graph, root, session)
      ensures Near(mods, graph, session)
    {
      hide Inv, Near, Pending, Serialized, HeapClosed;
      rootValue := Begin();
      while toFill != []
        invariant Valid() && Pending(graph, session, toFill, {})
        decreases graph.Keys - serialized, |toFill|
      {
        ghost var before := serialized;
        var batch := toFill;
        toFill := [];
        FillBatch(batch);
        SerializedInGraph(mods, graph, root, session);
        LessIsLeft(graph.Keys, before, serialized);
      }
      NothingPending(mods, graph, root, session);
    }

    method FillBatch(batch: seq<(Addr, nat)>)
      requires Valid() && toFill == [] && Pending(graph, session, batch, {})
      modifies this
      ensures Valid() && Pending(graph, session, toFill, {})
      ensures old(serialized) <= serialized && (serialized == old(serialized) ==> toFill == [])
    {
      hide Inv, Near, Pending;
      assert batch[0..] + toFill == batch;
      for i := 0 to |batch|
        invariant Valid() && Pending(graph, session, batch[i..] + toFill, {})
        invariant old(serialized) <= serialized && (serialized == old(serialized) ==> toFill == [])
      {
        var (a, n) := batch[i];
        ghost var ps := batch[i..] + toFill;
        assert ps[0] == (a, n) && ps[1..] == batch[i + 1..] + toFill;
        TakeFirst(graph, session, ps);
        if graph[a].Array? {
          FillArray(a, n, batch[i + 1..]);
        } else {
          FillTree(a, n, batch[i + 1..]);
        }
      }
      assert batch[|batch|..] + toFill == toFill;
    }
  }
}
