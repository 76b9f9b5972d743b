/** What json_serializer has written at any moment, and the invariant each written slot keeps. */
module JsonEncoding {
  import opened Wrappers
  import opened Numerals
  import opened FormCodec
  import opened Graph
  import opened Collections
  import opened Paths
  import opened JsonDocument

  // ------------------------------------------------------------------ slots and their places

  ghost predicate HasSlot(c: Container, q: Key)
  {
    match c
    case Array(items) => q.IntKey? && 0 <= q.index < |items|
    case Tree(_, slots) => q in slots
  }

  ghost function ItemAt(c: Container, q: Key): Item
    requires HasSlot(c, q)
  {
    if c.Array? then c.items[q.index] else c.slots[q].item
  }

  ghost function SpellingAt(c: Container, q: Key): Key
    requires HasSlot(c, q)
  {
    if c.Array? then q else c.slots[q].spelling
  }

  /** The JSON member name of a key; None for a form that does not encode. */
  function SlotName(mods: Mods, k: Key): Option<string>
  {
    match k
    case NameKey(name) => Some(name)
    case IntKey(index) => Some(Decimal(index))
    case FormKey(form) => FormToString(mods, form)
  }

  ghost function PosOf(mods: Mods, c: Container, q: Key): Option<Position>
    requires HasSlot(c, q)
  {
    if c.Array? then Some(Element(q.index))
    else
      match SlotName(mods, c.slots[q].spelling)
      case None => None
      case Some(name) => Some(Member(name))
  }

  /** No other slot of c has the member name of q. Two forms have one string when their mods have one name. */
  ghost predicate Alone(mods: Mods, c: Container, q: Key)
    requires HasSlot(c, q)
  {
    forall r | HasSlot(c, r) && PosOf(mods, c, r) == PosOf(mods, c, q) :: r == q
  }

  lemma PosOfInjective(mods: Mods, c: Container, q: Key, r: Key)
    requires WellFormed(c) && HasSlot(c, q) && HasSlot(c, r)
    requires SpellingAt(c, q).FormKey? ==> NameLeadsBack(mods, SpellingAt(c, q).form)
    requires SpellingAt(c, r).FormKey? ==> NameLeadsBack(mods, SpellingAt(c, r).form)
    requires PosOf(mods, c, q).Some? && PosOf(mods, c, q) == PosOf(mods, c, r)
    ensures q == r
  {
    if c.Tree? {
      var k, l := c.slots[q].spelling, c.slots[r].spelling;
      var s := SlotName(mods, k).value;
      assert Norm(k) == q && Norm(l) == r;
      match k
      case NameKey(_) =>
      case IntKey(i) => DecimalInjective(i, l.index);
      case FormKey(form) =>
        RoundTrip(mods, form, s, []);
        RoundTrip(mods, l.form, s, []);
    }
  }

  lemma MetaIsNoSlot(mods: Mods, c: Container, q: Key)
    requires WellFormed(c) && c.Tree? && c.kind != MapKind && HasSlot(c, q)
    ensures PosOf(mods, c, q) != Some(Member(META_INFO))
  {
    var k := c.slots[q].spelling;
    if k.FormKey? && SlotName(mods, k).Some? {
      var s := SlotName(mods, k).value;
      FormShape(mods, k.form, s);
      assert s[2] == s[..|PREFIX|][2] == 'f';
    } else if k.IntKey? {
      assert Decimal(k.index)[0] != '_';
    }
  }

  // ------------------------------------------------------------------ the state of a serialization

  /** Where an object was first found: its JSON node, the keys from the root to it, and the slot holding it. */
  datatype Place = Place(node: nat, path: seq<Key>, parent: Addr, key: Key)

  datatype Session = Session(
    doc: Doc,                             // the JSON nodes made so far
    place: map<Addr, Place>,              // the objects discovered so far
    done: set<(Addr, Key)>,               // slots already written
    metaOf: map<Addr, nat>,               // the "__metaInfo" node of form maps and integer maps
    owner: map<nat, (nat, Position)>)     // the slot each non-root node is referred to from

  ghost function Start(g: Heap, root: Addr): Session
    requires root in g
  {
    Session([EmptyNode(g[root])], map[root := Place(0, [], root, IntKey(0))], {}, map[], map[])
  }

  function EmptyNode(c: Container): Node
  {
    if c.Array? then JArray([]) else JObject(map[])
  }

  function EncodeScalar(mods: Mods, item: Item): Value
    requires !item.Object?
  {
    match item
    case Blank => JNull
    case Integer(v) => JInteger(v)
    case Real(bits) => JReal(bits)
    case Text(text) => JString(text)
    case Form(form) =>
      match FormToString(mods, form)
      case None => JNull
      case Some(s) => JString(s)
  }

  /** "__reference|" and the printed path. */
  function ReferenceTo(mods: Mods, path: seq<Key>): Value
  {
    JString(REFERENCE + PrintKeys(mods, path))
  }

  ghost predicate Placed(s: Session, item: Item)
  {
    item.Object? ==> item.ref in s.place
  }

  /** The value a slot is written as: an object goes into the slot it was first found in,
      every other slot that holds it gets a reference string. */
  ghost function EncodeItem(mods: Mods, s: Session, root: Addr, a: Addr, k: Key, item: Item): Value
    requires Placed(s, item)
  {
    if !item.Object? then EncodeScalar(mods, item)
    else
      var place := s.place[item.ref];
      if item.ref != root && place.parent == a && place.key == k then JNode(place.node)
      else ReferenceTo(mods, place.path)
  }

  function TypeName(kind: Kind): string
  {
    if kind == FormMapKind then "JFormMap" else "JIntMap"
  }

  function MetaNode(kind: Kind): Node
  {
    JObject(map[TYPE_NAME := JString(TypeName(kind))])
  }

  ghost predicate SlotDone(mods: Mods, g: Heap, root: Addr, s: Session, a: Addr, q: Key)
  {
    && a in g && HasSlot(g[a], q)
    && a in s.place && s.place[a].node < |s.doc|
    && (PosOf(mods, g[a], q).Some? ==>
          && Placed(s, ItemAt(g[a], q))
          && (Alone(mods, g[a], q) ==>
                At(s.doc[s.place[a].node], PosOf(mods, g[a], q).value)
                == Some(EncodeItem(mods, s, root, a, SpellingAt(g[a], q), ItemAt(g[a], q)))))
  }

  /** A discovered object other than the root is held by an earlier, already written slot. */
  ghost predicate HangsUnder(mods: Mods, g: Heap, s: Session, c: Addr)
    requires c in s.place
  {
    var p, k := s.place[c].parent, s.place[c].key;
    && p in s.place && p in g
    && (p, Norm(k)) in s.done
    && HasSlot(g[p], Norm(k)) && SpellingAt(g[p], Norm(k)) == k && ItemAt(g[p], Norm(k)) == Object(c)
    && PosOf(mods, g[p], Norm(k)).Some?
    && s.place[p].node < s.place[c].node
    && s.place[c].path == s.place[p].path + [k]
  }

  ghost predicate Rooted(mods: Mods, g: Heap, root: Addr, s: Session)
  {
    && root in s.place && s.place[root].node == 0 && s.place[root].path == []
    && (forall a | a in s.place :: a in g && s.place[a].node < |s.doc|)
    && (forall c | c in s.place && c != root :: HangsUnder(mods, g, s, c))
    && Separate(s)
  }

  /** No two objects share a JSON node. */
  ghost predicate Separate(s: Session)
  {
    forall a, b | a in s.place && b in s.place && s.place[a].node == s.place[b].node :: a == b
  }

  /** A node holds the slots written so far and its type mark, and nothing else. */
  ghost predicate OnlySlots(mods: Mods, g: Heap, s: Session, a: Addr)
  {
    && a in g && a in s.place && s.place[a].node < |s.doc|
    && s.doc[s.place[a].node].JArray? == g[a].Array?
    && forall pos | At(s.doc[s.place[a].node], pos).Some? ::
         || (a in s.metaOf && pos == Member(META_INFO))
         || exists q :: (a, q) in s.done && HasSlot(g[a], q) && PosOf(mods, g[a], q) == Some(pos)
  }

  ghost predicate Marked(g: Heap, s: Session, a: Addr)
  {
    && a in s.metaOf && a in g && g[a].Tree? && g[a].kind != MapKind
    && a in s.place && s.place[a].node < |s.doc|
    && At(s.doc[s.place[a].node], Member(META_INFO)) == Some(JNode(s.metaOf[a]))
    && s.metaOf[a] < |s.doc| && s.doc[s.metaOf[a]] == MetaNode(g[a].kind)
    && (forall b | b in s.place :: s.place[b].node != s.metaOf[a])
  }

  ghost predicate Inv(mods: Mods, g: Heap, root: Addr, s: Session)
  {
    && HeapClosed(g) && Rooted(mods, g, root, s)
    && (forall a, q | (a, q) in s.done :: SlotDone(mods, g, root, s, a, q))
    && (forall a | a in s.place :: OnlySlots(mods, g, s, a))
    && (forall a | a in s.metaOf :: Marked(g, s, a))
    && OwnedBy(s.doc, s.owner) && Fits(s.doc)
  }

  lemma ParentOf(mods: Mods, g: Heap, root: Addr, s: Session, c: Addr)
    requires Inv(mods, g, root, s) && c in s.place && c != root
    ensures s.place[c].parent in s.place && s.place[s.place[c].parent].node < s.place[c].node
    ensures s.place[c].path == s.place[s.place[c].parent].path + [s.place[c].key]
  {
    assert HangsUnder(mods, g, s, c);
  }

  lemma RootPlace(mods: Mods, g: Heap, root: Addr, s: Session)
    requires Inv(mods, g, root, s)
    ensures root in s.place && s.place[root].path == []
  {
  }

  lemma PlacedInGraph(mods: Mods, g: Heap, root: Addr, s: Session, a: Addr, q: Key)
    requires Inv(mods, g, root, s) && a in s.place
    ensures a in g && WellFormed(g[a]) && s.place[a].node < |s.doc|
    ensures s.doc[s.place[a].node].JArray? == g[a].Array?
    ensures HasSlot(g[a], q) && ItemAt(g[a], q).Object? ==> ItemAt(g[a], q).ref in g
    ensures root in s.place
  {
    assert OnlySlots(mods, g, s, a);
    if HasSlot(g[a], q) && ItemAt(g[a], q).Object? {
      assert ItemAt(g[a], q).ref in Refs(g[a]);
    }
  }

  // ------------------------------------------------------------------ the steps

  function PutAt(node: Node, pos: Position, v: Value): Node
    requires node.JArray? <==> pos.Element?
  {
    match node
    case JArray(elems) => JArray(elems + [v])
    case JObject(members) => JObject(members[pos.name := v])
  }

  ghost predicate CanWrite(s: Session, n: nat, pos: Position)
  {
    && n < |s.doc| && (s.doc[n].JArray? <==> pos.Element?)
    && (pos.Element? ==> pos.index == |s.doc[n].elems|)
  }

  /** put_metainfo */
  ghost function MarkKind(g: Heap, s: Session, a: Addr): Session
    requires a in g && g[a].Tree? && a in s.place && CanWrite(s, s.place[a].node, Member(META_INFO))
  {
    var m, n := |s.doc|, s.place[a].node;
    s.(doc := s.doc[n := PutAt(s.doc[n], Member(META_INFO), JNode(m))] + [MetaNode(g[a].kind)],
       metaOf := s.metaOf[a := m],
       owner := s.owner[m := (n, Member(META_INFO))])
  }

  /** An object seen for the first time gets an empty node and its place under key k of a. */
  ghost function Discover(g: Heap, s: Session, a: Addr, k: Key, item: Item): Session
    requires a in s.place && (item.Object? ==> item.ref in g)
  {
    if !item.Object? || item.ref in s.place then s
    else
      s.(doc := s.doc + [EmptyNode(g[item.ref])],
         place := s.place[item.ref := Place(|s.doc|, s.place[a].path + [k], a, k)])
  }

  ghost predicate Writable(g: Heap, s: Session, a: Addr, item: Item, pos: Position)
  {
    a in s.place && CanWrite(s, s.place[a].node, pos) && (item.Object? ==> item.ref in g)
  }

  /** The value v put at pos, after the item has been discovered. */
  ghost function Write(g: Heap, s: Session, a: Addr, q: Key, k: Key, item: Item, pos: Position, v: Value): Session
    requires Writable(g, s, a, item, pos)
  {
    var n, t := s.place[a].node, Discover(g, s, a, k, item);
    t.(doc := t.doc[n := PutAt(t.doc[n], pos, v)],
       done := t.done + {(a, q)},
       owner := if v.JNode? then t.owner[v.id := (n, pos)] else t.owner)
  }

  /** The slot q of a can be written next. */
  ghost predicate Ready(mods: Mods, g: Heap, s: Session, a: Addr, q: Key)
  {
    && a in g && a in s.place && HasSlot(g[a], q)
    && (PosOf(mods, g[a], q).Some? ==>
          && Writable(g, s, a, ItemAt(g[a], q), PosOf(mods, g[a], q).value)
          && Placed(Discover(g, s, a, SpellingAt(g[a], q), ItemAt(g[a], q)), ItemAt(g[a], q)))
  }

  /** The value the slot q of a is written as. */
  ghost function ValueFor(mods: Mods, g: Heap, root: Addr, s: Session, a: Addr, q: Key): Value
    requires Ready(mods, g, s, a, q) && PosOf(mods, g[a], q).Some?
  {
    var k, item := SpellingAt(g[a], q), ItemAt(g[a], q);
    EncodeItem(mods, Discover(g, s, a, k, item), root, a, k, item)
  }

  /** One slot written; a slot whose key does not encode is passed over. */
  ghost function Emit(mods: Mods, g: Heap, root: Addr, s: Session, a: Addr, q: Key): Session
    requires Ready(mods, g, s, a, q)
  {
    match PosOf(mods, g[a], q)
    case None => s.(done := s.done + {(a, q)})
    case Some(pos) =>
      Write(g, s, a, q, SpellingAt(g[a], q), ItemAt(g[a], q), pos, ValueFor(mods, g, root, s, a, q))
  }

  lemma CanEmit(mods: Mods, g: Heap, root: Addr, s: Session, a: Addr, q: Key)
    requires Inv(mods, g, root, s) && a in s.place && a in g && HasSlot(g[a], q)
    requires PosOf(mods, g[a], q).Some? ==> CanWrite(s, s.place[a].node, PosOf(mods, g[a], q).value)
    ensures Ready(mods, g, s, a, q)
  {
    {
      hide *;
      PlacedInGraph(mods, g, root, s, a, q);
    }
    hide Inv, PosOf, HasSlot, ItemAt, SpellingAt, CanWrite;
    assert Placed(Discover(g, s, a, SpellingAt(g[a], q), ItemAt(g[a], q)), ItemAt(g[a], q));
    hide Discover, Placed;
  }

  // ------------------------------------------------------------------ a step keeps the invariant

  /** t is s after one slot, holding item under key k of a, was written. */
  ghost predicate Stepped(g: Heap, s: Session, t: Session, a: Addr, q: Key, k: Key, item: Item)
  {
    && a in s.place && t.metaOf == s.metaOf && t.done == s.done + {(a, q)}
    && |s.doc| <= |t.doc|
    && (forall m: nat | m < |s.doc| && m != s.place[a].node :: t.doc[m] == s.doc[m])
    && (forall x | x in s.place :: x in t.place && t.place[x] == s.place[x])
    && (forall x | x in t.place && x !in s.place ::
          && item == Object(x) && x in g && t.place[x] == Place(|s.doc|, s.place[a].path + [k], a, k)
          && |s.doc| < |t.doc| && t.doc[|s.doc|] == EmptyNode(g[x]))
  }

  lemma WriteSteps(g: Heap, s: Session, a: Addr, q: Key, k: Key, item: Item, pos: Position, v: Value)
    requires Writable(g, s, a, item, pos)
    ensures Stepped(g, s, Write(g, s, a, q, k, item, pos, v), a, q, k, item)
  {
  }

  /** Writing at a position leaves every other position as it was. */
  lemma WriteAt(g: Heap, s: Session, a: Addr, q: Key, k: Key, item: Item, pos: Position, v: Value, other: Position)
    requires Writable(g, s, a, item, pos)
    ensures
      var t, n := Write(g, s, a, q, k, item, pos, v), s.place[a].node;
      && n < |t.doc| && At(t.doc[n], other) == (if other == pos then Some(v) else At(s.doc[n], other))
      && t.doc[n].JArray? == s.doc[n].JArray?
  {
  }

  lemma SteppedHangs(mods: Mods, g: Heap, s: Session, t: Session, a: Addr, q: Key, k: Key, item: Item, c: Addr)
    requires Stepped(g, s, t, a, q, k, item) && c in t.place && (c in s.place ==> HangsUnder(mods, g, s, c))
    requires a in g && s.place[a].node < |s.doc|
    requires HasSlot(g[a], q) && SpellingAt(g[a], q) == k && ItemAt(g[a], q) == item && Norm(k) == q
    requires PosOf(mods, g[a], q).Some?
    ensures HangsUnder(mods, g, t, c)
  {
  }

  lemma SteppedSeparate(g: Heap, s: Session, t: Session, a: Addr, q: Key, k: Key, item: Item)
    requires Separate(s) && Stepped(g, s, t, a, q, k, item)
    requires forall x | x in s.place :: s.place[x].node < |s.doc|
    ensures Separate(t)
  {
  }

  lemma SteppedRooted(mods: Mods, g: Heap, root: Addr, s: Session, t: Session, a: Addr, q: Key, k: Key, item: Item)
    requires Rooted(mods, g, root, s) && Stepped(g, s, t, a, q, k, item)
    requires HasSlot(g[a], q) && SpellingAt(g[a], q) == k && ItemAt(g[a], q) == item && Norm(k) == q
    requires PosOf(mods, g[a], q).Some?
    ensures Rooted(mods, g, root, t)
  {
    hide Separate, HangsUnder, HasSlot, ItemAt, SpellingAt, PosOf, EmptyNode;
    {
      hide Rooted, Stepped;
      SteppedHanging(mods, g, root, s, t, a, q, k, item);
    }
    SteppedSeparate(g, s, t, a, q, k, item);
  }

  lemma SteppedHanging(mods: Mods, g: Heap, root: Addr, s: Session, t: Session, a: Addr, q: Key, k: Key, item: Item)
    requires Rooted(mods, g, root, s) && Stepped(g, s, t, a, q, k, item)
    requires HasSlot(g[a], q) && SpellingAt(g[a], q) == k && ItemAt(g[a], q) == item && Norm(k) == q
    requires PosOf(mods, g[a], q).Some?
    ensures forall c | c in t.place && c != root :: HangsUnder(mods, g, t, c)
  {
    hide Separate, HangsUnder, HasSlot, ItemAt, SpellingAt, PosOf, EmptyNode;
    forall c | c in t.place && c != root ensures HangsUnder(mods, g, t, c) {
      SteppedHangs(mods, g, s, t, a, q, k, item, c);
    }
  }

  lemma SlotDoneGrows(mods: Mods, g: Heap, root: Addr, s: Session, t: Session, b: Addr, r: Key)
    requires SlotDone(mods, g, root, s, b, r)
    requires forall x | x in s.place :: x in t.place && t.place[x] == s.place[x]
    requires t.place[b].node < |t.doc|
    requires PosOf(mods, g[b], r).Some? && Alone(mods, g[b], r) ==>
               At(t.doc[t.place[b].node], PosOf(mods, g[b], r).value)
               == At(s.doc[s.place[b].node], PosOf(mods, g[b], r).value)
    ensures SlotDone(mods, g, root, t, b, r)
  {
  }

  /** Slots do not overwrite the type mark. */
  lemma OffMark(mods: Mods, g: Heap, s: Session, a: Addr, q: Key)
    requires a in g && WellFormed(g[a]) && HasSlot(g[a], q) && (a in s.metaOf ==> Marked(g, s, a))
    ensures a in s.metaOf ==> PosOf(mods, g[a], q) != Some(Member(META_INFO))
  {
    if a in s.metaOf {
      MetaIsNoSlot(mods, g[a], q);
    }
  }

  lemma NormSpelling(c: Container, q: Key)
    requires WellFormed(c) && HasSlot(c, q)
    ensures Norm(SpellingAt(c, q)) == q
  {
  }

  /** Nothing hangs under an unwritten slot, so a node put there is a new one. */
  lemma ValueIsNew(mods: Mods, g: Heap, root: Addr, s: Session, a: Addr, q: Key)
    requires Ready(mods, g, s, a, q) && WellFormed(g[a]) && PosOf(mods, g[a], q).Some? && (a, q) !in s.done
    requires var i := ItemAt(g[a], q); i.Object? && i.ref in s.place && i.ref != root ==> HangsUnder(mods, g, s, i.ref)
    ensures
      var t, v := Emit(mods, g, root, s, a, q), ValueFor(mods, g, root, s, a, q);
      && t.owner == (if v.JNode? then s.owner[v.id := (s.place[a].node, PosOf(mods, g[a], q).value)] else s.owner)
      && (v.JNode? ==> v.id == |s.doc| && |t.doc| == |s.doc| + 1)
  {
    NormSpelling(g[a], q);
  }

  /** t's node for a is s's with v put at pos. */
  ghost predicate Wrote(s: Session, t: Session, a: Addr, pos: Position, v: Value)
  {
    && a in s.place && s.place[a].node < |s.doc| && s.place[a].node < |t.doc|
    && t.doc[s.place[a].node].JArray? == s.doc[s.place[a].node].JArray?
    && forall p :: At(t.doc[s.place[a].node], p) == if p == pos then Some(v) else At(s.doc[s.place[a].node], p)
  }

  lemma EmitSteps(mods: Mods, g: Heap, root: Addr, s: Session, a: Addr, q: Key, pos: Position)
    requires Ready(mods, g, s, a, q) && PosOf(mods, g[a], q) == Some(pos)
    ensures Stepped(g, s, Emit(mods, g, root, s, a, q), a, q, SpellingAt(g[a], q), ItemAt(g[a], q))
    ensures Wrote(s, Emit(mods, g, root, s, a, q), a, pos, ValueFor(mods, g, root, s, a, q))
  {
    var k, item, v := SpellingAt(g[a], q), ItemAt(g[a], q), ValueFor(mods, g, root, s, a, q);
    WriteSteps(g, s, a, q, k, item, pos, v);
    forall p {
      WriteAt(g, s, a, q, k, item, pos, v, p);
    }
  }

  lemma SlotKept(mods: Mods, g: Heap, root: Addr, s: Session, t: Session, a: Addr, q: Key, pos: Position, v: Value,
                 b: Addr, r: Key)
    requires SlotDone(mods, g, root, s, b, r) && Wrote(s, t, a, pos, v) && |s.doc| <= |t.doc| && Separate(s)
    requires a in g && HasSlot(g[a], q) && PosOf(mods, g[a], q) == Some(pos) && (b, r) != (a, q)
    requires forall x | x in s.place :: x in t.place && t.place[x] == s.place[x]
    requires forall m: nat | m < |s.doc| && m != s.place[a].node :: t.doc[m] == s.doc[m]
    ensures SlotDone(mods, g, root, t, b, r)
  {
    hide HasSlot, PosOf, EncodeItem;
    assert b != a ==> s.place[b].node != s.place[a].node;
    SlotDoneGrows(mods, g, root, s, t, b, r);
  }

  lemma OnlySlotsKept(mods: Mods, g: Heap, s: Session, t: Session, a: Addr, q: Key, k: Key, item: Item, pos: Position,
                      v: Value, b: Addr)
    requires Stepped(g, s, t, a, q, k, item) && Wrote(s, t, a, pos, v) && b in t.place
    requires b in s.place ==> OnlySlots(mods, g, s, b) && (s.place[b].node == s.place[a].node ==> b == a)
    requires a in g && HasSlot(g[a], q) && PosOf(mods, g[a], q) == Some(pos)
    ensures OnlySlots(mods, g, t, b)
  {
    assert (a, q) in t.done;
    if b in s.place && b != a {
      assert t.doc[t.place[b].node] == s.doc[s.place[b].node];
    }
  }

  lemma MarkedKept(g: Heap, s: Session, t: Session, a: Addr, q: Key, k: Key, item: Item, pos: Position, v: Value,
                   b: Addr)
    requires Stepped(g, s, t, a, q, k, item) && Wrote(s, t, a, pos, v) && Marked(g, s, b)
    requires s.place[b].node == s.place[a].node ==> b == a && pos != Member(META_INFO)
    ensures Marked(g, t, b)
  {
  }

  lemma OwnedKept(g: Heap, s: Session, t: Session, a: Addr, q: Key, k: Key, item: Item, pos: Position, v: Value)
    requires Stepped(g, s, t, a, q, k, item) && Wrote(s, t, a, pos, v) && OwnedBy(s.doc, s.owner)
    requires t.owner == if v.JNode? then s.owner[v.id := (s.place[a].node, pos)] else s.owner
    requires v.JNode? ==> v.id == |s.doc| && |t.doc| == |s.doc| + 1
    requires |t.doc| > |s.doc| ==>
               |t.doc| == |s.doc| + 1 && (t.doc[|s.doc|] == JArray([]) || t.doc[|s.doc|] == JObject(map[]))
    ensures OwnedBy(t.doc, t.owner)
  {
    forall n: nat, p | n < |t.doc| && At(t.doc[n], p).Some? && At(t.doc[n], p).value.JNode?
      ensures var c := At(t.doc[n], p).value.id; n < c < |t.doc| && c in t.owner && t.owner[c] == (n, p)
    {
      assert n < |s.doc|;
    }
  }

  lemma EmitValue(mods: Mods, g: Heap, root: Addr, s: Session, a: Addr, q: Key)
    requires Ready(mods, g, s, a, q) && PosOf(mods, g[a], q).Some?
    ensures var t, item := Emit(mods, g, root, s, a, q), ItemAt(g[a], q);
            Placed(t, item) &&
              ValueFor(mods, g, root, s, a, q) == EncodeItem(mods, t, root, a, SpellingAt(g[a], q), item)
  {
  }

  /** What create_value returns and leaves behind. */
  ghost predicate Created(mods: Mods, g: Heap, place: map<Addr, Place>, nodes: Doc, item: Item,
                          v: Value, nodes': Doc, serialized': set<Addr>)
    requires item.Object? ==> item.ref in g
  {
    if !item.Object? then v == EncodeScalar(mods, item) && nodes' == nodes && serialized' == place.Keys
    else if item.ref in place then
      v == ReferenceTo(mods, place[item.ref].path) && nodes' == nodes && serialized' == place.Keys
    else v == JNode(|nodes|) && nodes' == nodes + [EmptyNode(g[item.ref])] && serialized' == place.Keys + {item.ref}
  }

  /** Writing one slot is create_value followed by putting the value in its position. */
  lemma EmitEffect(mods: Mods, g: Heap, root: Addr, s: Session, a: Addr, q: Key, pos: Position, item: Item,
                   v: Value, nodes: Doc, serialized: set<Addr>)
    requires Inv(mods, g, root, s) && Ready(mods, g, s, a, q) && (a, q) !in s.done
    requires PosOf(mods, g[a], q) == Some(pos) && item == ItemAt(g[a], q)
    requires Created(mods, g, s.place, s.doc, item, v, nodes, serialized)
    ensures
      var t, n := Emit(mods, g, root, s, a, q), s.place[a].node;
      && n < |nodes| && (nodes[n].JArray? <==> pos.Element?) && t.doc == nodes[n := PutAt(nodes[n], pos, v)]
      && serialized == t.place.Keys
      && t.place == (if item.Object? && item.ref !in s.place
                     then s.place[item.ref := Place(|s.doc|, s.place[a].path + [SpellingAt(g[a], q)], a,
                       SpellingAt(g[a], q))]
                     else s.place)
  {
    CreatedValue(mods, g, root, s, a, q, item, v, nodes, serialized);
    PlacedInGraph(mods, g, root, s, a, q);
    DiscoverCreated(mods, g, s, a, SpellingAt(g[a], q), item, v, nodes, serialized);
    hide Inv, ValueFor, HasSlot, ItemAt, SpellingAt, PosOf, Created, Discover;
    assert Emit(mods, g, root, s, a, q) == Write(g, s, a, q, SpellingAt(g[a], q), item, pos, v);
  }

  lemma DiscoverCreated(mods: Mods, g: Heap, s: Session, a: Addr, k: Key, item: Item, v: Value, nodes: Doc,
                        serialized: set<Addr>)
    requires a in s.place && (item.Object? ==> item.ref in g)
    requires Created(mods, g, s.place, s.doc, item, v, nodes, serialized)
    ensures var d := Discover(g, s, a, k, item);
            && d.doc == nodes && d.place.Keys == serialized && |s.doc| <= |nodes|
            && (forall m: nat | m < |s.doc| :: nodes[m] == s.doc[m])
            && d.place == (if item.Object? && item.ref !in s.place
                           then s.place[item.ref := Place(|s.doc|, s.place[a].path + [k], a, k)] else s.place)
  {
    hide EncodeScalar, ReferenceTo, EmptyNode;
  }

  lemma CreatedValue(mods: Mods, g: Heap, root: Addr, s: Session, a: Addr, q: Key, item: Item,
                     v: Value, nodes: Doc, serialized: set<Addr>)
    requires Inv(mods, g, root, s) && Ready(mods, g, s, a, q) && (a, q) !in s.done
    requires PosOf(mods, g[a], q).Some? && item == ItemAt(g[a], q)
    requires Created(mods, g, s.place, s.doc, item, v, nodes, serialized)
    ensures v == ValueFor(mods, g, root, s, a, q)
  {
    PlacedInGraph(mods, g, root, s, a, q);
    NormSpelling(g[a], q);
    assert item.Object? && item.ref in s.place && item.ref != root ==> HangsUnder(mods, g, s, item.ref);
    hide Inv, PosOf;
  }

  lemma EmitSize(mods: Mods, g: Heap, root: Addr, s: Session, a: Addr, q: Key)
    requires Ready(mods, g, s, a, q) && PosOf(mods, g[a], q).Some?
    ensures var t := Emit(mods, g, root, s, a, q);
            |t.doc| > |s.doc| ==>
                |t.doc| == |s.doc| + 1 && (t.doc[|s.doc|] == JArray([]) || t.doc[|s.doc|] == JObject(map[]))
  {
  }

  lemma EmitKeepsInv(mods: Mods, g: Heap, root: Addr, s: Session, a: Addr, q: Key)
    requires Inv(mods, g, root, s) && (a, q) !in s.done && Ready(mods, g, s, a, q)
    ensures Inv(mods, g, root, Emit(mods, g, root, s, a, q))
  {
    var t := Emit(mods, g, root, s, a, q);
    match PosOf(mods, g[a], q)
    case None => PassOver(mods, g, root, s, t, a, q);
    case Some(pos) =>
      var k, item, v := SpellingAt(g[a], q), ItemAt(g[a], q), ValueFor(mods, g, root, s, a, q);
      EmitSteps(mods, g, root, s, a, q, pos);
      ValueIsNew(mods, g, root, s, a, q);
      EmitSize(mods, g, root, s, a, q);
      NormSpelling(g[a], q);
      EmitValue(mods, g, root, s, a, q);
      StepKeepsInv(mods, g, root, s, t, a, q, k, item, pos, v);
  }

  lemma StepKeepsInv(mods: Mods, g: Heap, root: Addr, s: Session, t: Session, a: Addr, q: Key, k: Key, item: Item,
                     pos: Position, v: Value)
    requires Inv(mods, g, root, s) && Stepped(g, s, t, a, q, k, item) && Wrote(s, t, a, pos, v)
    requires HasSlot(g[a], q) && SpellingAt(g[a], q) == k && ItemAt(g[a], q) == item && Norm(k) == q
    requires PosOf(mods, g[a], q) == Some(pos) && Placed(t, item) && v == EncodeItem(mods, t, root, a, k, item)
    requires t.owner == if v.JNode? then s.owner[v.id := (s.place[a].node, pos)] else s.owner
    requires v.JNode? ==> v.id == |s.doc| && |t.doc| == |s.doc| + 1
    requires |t.doc| > |s.doc| ==>
               |t.doc| == |s.doc| + 1 && (t.doc[|s.doc|] == JArray([]) || t.doc[|s.doc|] == JObject(map[]))
    ensures Inv(mods, g, root, t)
  {
    hide SlotDone, Rooted, OnlySlots, Marked, OwnedBy, HeapClosed, Fits, Stepped, Wrote, HasSlot, PosOf;
    {
      hide Inv;
      StepKeepsPlaces(mods, g, root, s, t, a, q, k, item, pos, v);
      StepFits(mods, g, root, s, t, a, q, k, item);
    }
    OwnedKept(g, s, t, a, q, k, item, pos, v);
  }

  lemma StepKeepsPlaces(mods: Mods, g: Heap, root: Addr, s: Session, t: Session, a: Addr, q: Key, k: Key, item: Item,
                        pos: Position, v: Value)
    requires Inv(mods, g, root, s) && Stepped(g, s, t, a, q, k, item) && Wrote(s, t, a, pos, v)
    requires HasSlot(g[a], q) && SpellingAt(g[a], q) == k && ItemAt(g[a], q) == item && Norm(k) == q
    requires PosOf(mods, g[a], q) == Some(pos) && Placed(t, item) && v == EncodeItem(mods, t, root, a, k, item)
    ensures Rooted(mods, g, root, t)
    ensures forall b, r | (b, r) in t.done :: SlotDone(mods, g, root, t, b, r)
    ensures forall b | b in t.place :: OnlySlots(mods, g, t, b)
    ensures forall b | b in t.metaOf :: Marked(g, t, b)
  {
    assert a in g;
    {
      hide *;
      RootedSeparate(mods, g, root, s);
      OffMarkInv(mods, g, root, s, a, q);
    }
    hide SlotDone, Rooted, OnlySlots, Marked, OwnedBy, HeapClosed, Fits, Stepped, Wrote, Separate, HasSlot, PosOf;
    SteppedRooted(mods, g, root, s, t, a, q, k, item);
    StepSlots(mods, g, root, s, t, a, q, k, item, pos, v);
    StepMarks(mods, g, s, t, a, q, k, item, pos, v);
  }

  lemma OffMarkInv(mods: Mods, g: Heap, root: Addr, s: Session, a: Addr, q: Key)
    requires Inv(mods, g, root, s) && a in s.place && a in g && HasSlot(g[a], q)
    ensures a in s.metaOf ==> PosOf(mods, g[a], q) != Some(Member(META_INFO))
  {
    {
      hide *;
      PlacedInGraph(mods, g, root, s, a, q);
    }
    hide Rooted, SlotDone, OnlySlots, OwnedBy, Fits, PosOf, HasSlot, WellFormed;
    OffMark(mods, g, s, a, q);
  }

  lemma RootedSeparate(mods: Mods, g: Heap, root: Addr, s: Session)
    requires Inv(mods, g, root, s)
    ensures Separate(s)
  {
  }

  lemma StepFits(mods: Mods, g: Heap, root: Addr, s: Session, t: Session, a: Addr, q: Key, k: Key, item: Item)
    requires Inv(mods, g, root, s) && Stepped(g, s, t, a, q, k, item)
    requires forall b | b in t.place :: OnlySlots(mods, g, t, b)
    requires |t.doc| > |s.doc| ==>
               |t.doc| == |s.doc| + 1 && (t.doc[|s.doc|] == JArray([]) || t.doc[|s.doc|] == JObject(map[]))
    ensures Fits(t.doc)
  {
    hide SlotDone, Rooted, OnlySlots, Marked, OwnedBy;
    PlacedInGraph(mods, g, root, s, a, q);
    FitsKept(mods, g, s, t, a);
  }

  /** An array node has no more elements than the array it stands for. */
  lemma FitsKept(mods: Mods, g: Heap, s: Session, t: Session, a: Addr)
    requires Fits(s.doc) && OnlySlots(mods, g, t, a) && WellFormed(g[a])
    requires forall m: nat | m < |s.doc| && m != t.place[a].node :: m < |t.doc| && t.doc[m] == s.doc[m]
    requires forall m: nat | |s.doc| <= m < |t.doc| :: t.doc[m].JArray? ==> t.doc[m] == JArray([])
    ensures Fits(t.doc)
  {
    var n := t.place[a].node;
    if t.doc[n].JArray? && t.doc[n].elems != [] {
      var pos := Element(|t.doc[n].elems| - 1);
      assert At(t.doc[n], pos).Some?;
      var q :| HasSlot(g[a], q) && PosOf(mods, g[a], q) == Some(pos);
    }
  }

  lemma StepSlots(mods: Mods, g: Heap, root: Addr, s: Session, t: Session, a: Addr, q: Key, k: Key, item: Item,
                  pos: Position, v: Value)
    requires forall b, r | (b, r) in s.done :: SlotDone(mods, g, root, s, b, r)
    requires Separate(s) && Stepped(g, s, t, a, q, k, item) && Wrote(s, t, a, pos, v)
    requires a in g && HasSlot(g[a], q) && SpellingAt(g[a], q) == k && ItemAt(g[a], q) == item
    requires PosOf(mods, g[a], q) == Some(pos) && Placed(t, item) && v == EncodeItem(mods, t, root, a, k, item)
    ensures forall b, r | (b, r) in t.done :: SlotDone(mods, g, root, t, b, r)
  {
    forall b, r | (b, r) in t.done ensures SlotDone(mods, g, root, t, b, r) {
      if (b, r) != (a, q) {
        SlotKept(mods, g, root, s, t, a, q, pos, v, b, r);
      }
    }
  }

  lemma StepMarks(mods: Mods, g: Heap, s: Session, t: Session, a: Addr, q: Key, k: Key, item: Item, pos: Position,
                  v: Value)
    requires Separate(s) && Stepped(g, s, t, a, q, k, item) && Wrote(s, t, a, pos, v)
    requires forall b | b in s.place :: OnlySlots(mods, g, s, b)
    requires forall b | b in s.metaOf :: Marked(g, s, b)
    requires a in g && HasSlot(g[a], q) && PosOf(mods, g[a], q) == Some(pos) &&
             (a in s.metaOf ==> pos != Member(META_INFO))
    ensures forall b | b in t.place :: OnlySlots(mods, g, t, b)
    ensures forall b | b in t.metaOf :: Marked(g, t, b)
  {
    forall b | b in t.place ensures OnlySlots(mods, g, t, b) {
      OnlySlotsKept(mods, g, s, t, a, q, k, item, pos, v, b);
    }
    forall b | b in t.metaOf ensures Marked(g, t, b) {
      MarkedKept(g, s, t, a, q, k, item, pos, v, b);
    }
  }

  lemma PassOver(mods: Mods, g: Heap, root: Addr, s: Session, t: Session, a: Addr, q: Key)
    requires Inv(mods, g, root, s) && t == s.(done := s.done + {(a, q)})
    requires a in s.place && HasSlot(g[a], q) && PosOf(mods, g[a], q).None?
    ensures Inv(mods, g, root, t)
  {
    PassOverRooted(mods, g, root, s, t, a, q);
    PassOverMarks(mods, g, root, s, t, a, q);
    PassOverSlots(mods, g, root, s, t, a, q);
    hide Rooted, OnlySlots, Marked, SlotDone, OwnedBy, HeapClosed;
  }

  lemma PassOverSlots(mods: Mods, g: Heap, root: Addr, s: Session, t: Session, a: Addr, q: Key)
    requires Inv(mods, g, root, s) && t == s.(done := s.done + {(a, q)})
    requires a in s.place && HasSlot(g[a], q) && PosOf(mods, g[a], q).None?
    ensures forall b, r | (b, r) in t.done :: SlotDone(mods, g, root, t, b, r)
  {
    {
      hide *;
      PlacedInGraph(mods, g, root, s, a, q);
    }
    hide Inv, EncodeItem, PosOf;
    assert SlotDone(mods, g, root, t, a, q);
    hide SlotDone;
    forall b, r | (b, r) in t.done ensures SlotDone(mods, g, root, t, b, r) {
      if (b, r) != (a, q) {
        DoneSlot(mods, g, root, s, b, r);
        DoneOnly(mods, g, root, s, t, b, r);
      }
    }
  }

  lemma DoneOnly(mods: Mods, g: Heap, root: Addr, s: Session, t: Session, b: Addr, r: Key)
    requires SlotDone(mods, g, root, s, b, r) && t == s.(done := t.done)
    ensures SlotDone(mods, g, root, t, b, r)
  {
    hide PosOf, HasSlot, ItemAt, SpellingAt;
  }

  lemma DoneSlot(mods: Mods, g: Heap, root: Addr, s: Session, b: Addr, r: Key)
    requires Inv(mods, g, root, s) && (b, r) in s.done
    ensures SlotDone(mods, g, root, s, b, r)
  {
    hide SlotDone, Rooted, OnlySlots, Marked, OwnedBy;
  }

  lemma PassOverRooted(mods: Mods, g: Heap, root: Addr, s: Session, t: Session, a: Addr, q: Key)
    requires Inv(mods, g, root, s) && t == s.(done := s.done + {(a, q)})
    ensures Rooted(mods, g, root, t)
  {
    forall c | c in t.place && c != root ensures HangsUnder(mods, g, t, c) {
      assert HangsUnder(mods, g, s, c);
    }
  }

  lemma PassOverMarks(mods: Mods, g: Heap, root: Addr, s: Session, t: Session, a: Addr, q: Key)
    requires Inv(mods, g, root, s) && t == s.(done := s.done + {(a, q)})
    ensures forall b | b in t.place :: OnlySlots(mods, g, t, b)
    ensures forall b | b in t.metaOf :: Marked(g, t, b)
  {
    hide SlotDone, Rooted;
    forall b | b in t.place ensures OnlySlots(mods, g, t, b) {
      assert OnlySlots(mods, g, s, b);
    }
    hide OnlySlots;
    forall b | b in t.metaOf ensures Marked(g, t, b) {
      assert Marked(g, s, b);
    }
  }

  /** What one written slot changes, without saying which value was written. */
  lemma EmitSummary(mods: Mods, g: Heap, root: Addr, s: Session, a: Addr, q: Key, pos: Position)
    requires Inv(mods, g, root, s) && Ready(mods, g, s, a, q) && (a, q) !in s.done && PosOf(mods, g[a], q) == Some(pos)
    ensures
      var t, n := Emit(mods, g, root, s, a, q), s.place[a].node;
      && Stepped(g, s, t, a, q, SpellingAt(g[a], q), ItemAt(g[a], q))
      && n < |t.doc| && CanWrite(s, n, pos) && exists v :: t.doc[n] == PutAt(s.doc[n], pos, v)
  {
    PlacedInGraph(mods, g, root, s, a, q);
    EmitSteps(mods, g, root, s, a, q, pos);
    hide Inv;
    assert Emit(mods, g, root, s, a, q).doc[s.place[a].node]
        == PutAt(s.doc[s.place[a].node], pos, ValueFor(mods, g, root, s, a, q));
  }

  lemma StartInv(mods: Mods, g: Heap, root: Addr)
    requires HeapClosed(g) && root in g
    ensures Inv(mods, g, root, Start(g, root))
  {
  }

  /** The type mark goes into a node before any slot does. */
  lemma MarkKeepsInv(mods: Mods, g: Heap, root: Addr, s: Session, a: Addr)
    requires Inv(mods, g, root, s) && a in s.place && a !in s.metaOf
    requires g[a].Tree? && g[a].kind != MapKind && s.doc[s.place[a].node] == EmptyNode(g[a])
    requires forall q :: (a, q) !in s.done
    ensures Inv(mods, g, root, MarkKind(g, s, a))
  {
    {
      hide Inv, MarkKind;
      MarkKeepsRooted(mods, g, root, s, a);
      MarkKeepsSlots(mods, g, root, s, a);
    }
    MarkKeepsMarks(mods, g, s, a);
    MarkKeepsOwned(g, s, a);
    MarkKeepsFits(g, s, a);
    hide SlotDone, Rooted, OnlySlots, Marked, OwnedBy, HeapClosed, Fits;
  }

  lemma MarkKeepsFits(g: Heap, s: Session, a: Addr)
    requires a in g && g[a].Tree? && a in s.place && s.place[a].node < |s.doc| && Fits(s.doc)
    requires s.doc[s.place[a].node] == EmptyNode(g[a])
    ensures Fits(MarkKind(g, s, a).doc)
  {
  }

  lemma MarkKeepsRooted(mods: Mods, g: Heap, root: Addr, s: Session, a: Addr)
    requires Inv(mods, g, root, s) && a in s.place && g[a].Tree? && g[a].kind != MapKind
    requires s.doc[s.place[a].node] == EmptyNode(g[a])
    ensures Rooted(mods, g, root, MarkKind(g, s, a))
  {
    hide SlotDone, OnlySlots, Marked, OwnedBy, Fits, HeapClosed;
    var t := MarkKind(g, s, a);
    forall c | c in t.place && c != root ensures HangsUnder(mods, g, t, c) {
      assert HangsUnder(mods, g, s, c);
    }
  }

  lemma MarkKeepsSlots(mods: Mods, g: Heap, root: Addr, s: Session, a: Addr)
    requires Inv(mods, g, root, s) && a in s.place && g[a].Tree? && g[a].kind != MapKind
    requires s.doc[s.place[a].node] == EmptyNode(g[a]) && forall q :: (a, q) !in s.done
    ensures forall b, r | (b, r) in MarkKind(g, s, a).done :: SlotDone(mods, g, root, MarkKind(g, s, a), b, r)
  {
    var t := MarkKind(g, s, a);
    {
      hide *;
      RootedSeparate(mods, g, root, s);
    }
    forall b, r | (b, r) in t.done ensures SlotDone(mods, g, root, t, b, r) {
      hide Inv;
      assert (b, r) in s.done;
      DoneSlot(mods, g, root, s, b, r);
      MarkLeavesSlot(mods, g, root, s, a, b, r);
    }
  }

  lemma MarkLeavesSlot(mods: Mods, g: Heap, root: Addr, s: Session, a: Addr, b: Addr, r: Key)
    requires a in g && g[a].Tree? && a in s.place && s.place[a].node < |s.doc| &&
             s.doc[s.place[a].node] == EmptyNode(g[a])
    requires SlotDone(mods, g, root, s, b, r) && Separate(s) && a != b
    ensures SlotDone(mods, g, root, MarkKind(g, s, a), b, r)
  {
    hide PosOf, HasSlot, EncodeItem;
    assert s.place[b].node != s.place[a].node;
    SlotDoneGrows(mods, g, root, s, MarkKind(g, s, a), b, r);
  }

  lemma MarkKeepsMarks(mods: Mods, g: Heap, s: Session, a: Addr)
    requires a in s.place && a !in s.metaOf && a in g && Separate(s)
    requires g[a].Tree? && g[a].kind != MapKind
    requires forall b | b in s.place :: OnlySlots(mods, g, s, b)
    requires forall b | b in s.metaOf :: Marked(g, s, b)
    requires s.place[a].node < |s.doc| && s.doc[s.place[a].node] == EmptyNode(g[a])
    ensures forall b | b in s.place :: OnlySlots(mods, g, MarkKind(g, s, a), b)
    ensures forall b | b in s.metaOf + map[a := 0] :: Marked(g, MarkKind(g, s, a), b)
  {
    var t, n := MarkKind(g, s, a), s.place[a].node;
    forall b | b in s.place ensures OnlySlots(mods, g, t, b) {
      assert OnlySlots(mods, g, s, b);
    }
    forall b | b in s.metaOf + map[a := 0] ensures Marked(g, t, b) {
      if b != a {
        assert Marked(g, s, b);
      }
    }
  }

  lemma MarkKeepsOwned(g: Heap, s: Session, a: Addr)
    requires a in g && g[a].Tree? && a in s.place && s.place[a].node < |s.doc| && OwnedBy(s.doc, s.owner)
    requires s.doc[s.place[a].node] == EmptyNode(g[a])
    ensures OwnedBy(MarkKind(g, s, a).doc, MarkKind(g, s, a).owner)
  {
  }

  // ------------------------------------------------------------------ a finished serialization

  ghost predicate Filled(g: Heap, s: Session, a: Addr)
  {
    && a in g
    && (forall q | HasSlot(g[a], q) :: (a, q) in s.done)
    && (g[a].Tree? && g[a].kind != MapKind ==> a in s.metaOf)
  }

  ghost predicate Untouched(g: Heap, s: Session, a: Addr)
  {
    && a in g && a in s.place && s.place[a].node < |s.doc|
    && s.doc[s.place[a].node] == EmptyNode(g[a]) && a !in s.metaOf && forall q :: (a, q) !in s.done
  }

  ghost predicate Serialized(mods: Mods, g: Heap, root: Addr, s: Session)
  {
    Inv(mods, g, root, s) && forall a | a in s.place :: Filled(g, s, a)
  }

  /** The objects held in slots whose key encodes. */
  ghost function VisibleRefs(mods: Mods, c: Container): set<Addr>
  {
    set a | a in Refs(c) && exists q :: HasSlot(c, q) && ItemAt(c, q) == Object(a) && PosOf(mods, c, q).Some?
  }

  ghost function VisibleEdges(mods: Mods, g: Heap): Edges
  {
    map a | a in g :: VisibleRefs(mods, g[a])
  }

  lemma HangsVisibly(mods: Mods, g: Heap, s: Session, c: Addr)
    requires c in s.place && HangsUnder(mods, g, s, c)
    ensures c in VisibleRefs(mods, g[s.place[c].parent])
  {
    var p, k := s.place[c].parent, s.place[c].key;
    assert HasSlot(g[p], Norm(k)) && ItemAt(g[p], Norm(k)) == Object(c) && PosOf(mods, g[p], Norm(k)).Some?;
  }

  lemma {:induction false} ParentsFirst(mods: Mods, g: Heap, root: Addr, s: Session, t: set<Addr>, c: Addr)
    requires Rooted(mods, g, root, s) && c in s.place
    requires root in t && Closed(VisibleEdges(mods, g), t)
    ensures c in t
    decreases s.place[c].node
  {
    if c != root {
      var p := s.place[c].parent;
      assert HangsUnder(mods, g, s, c);
      ParentsFirst(mods, g, root, s, t, p);
      HangsVisibly(mods, g, s, c);
      assert VisibleEdges(mods, g)[p] <= t;
    }
  }

  lemma ChildrenPlaced(mods: Mods, g: Heap, root: Addr, s: Session, a: Addr, c: Addr)
    requires Serialized(mods, g, root, s) && a in s.place && c in VisibleRefs(mods, g[a])
    ensures c in s.place
  {
    var q :| HasSlot(g[a], q) && ItemAt(g[a], q) == Object(c) && PosOf(mods, g[a], q).Some?;
    assert Filled(g, s, a);
    assert SlotDone(mods, g, root, s, a, q);
  }

  /** The objects in the JSON are exactly those reachable from the root through slots whose key encodes. */
  lemma PlacedIsReachable(mods: Mods, g: Heap, root: Addr, s: Session)
    requires Serialized(mods, g, root, s)
    ensures ReachSet(VisibleEdges(mods, g), {root}, s.place.Keys)
  {
    var e := VisibleEdges(mods, g);
    forall a, c | a in s.place && a in e && c in e[a] ensures c in s.place {
      ChildrenPlaced(mods, g, root, s, a, c);
    }
    forall t: set<Addr> | {root} <= t && Closed(e, t) ensures s.place.Keys <= t {
      forall c | c in s.place ensures c in t {
        ParentsFirst(mods, g, root, s, t, c);
      }
    }
  }

  // ------------------------------------------------------------------ noted paths are shortest

  /** No written slot holds an object whose noted path is more than one key longer than that of its holder. */
  ghost predicate Near(mods: Mods, g: Heap, s: Session)
  {
    forall a, q | (a, q) in s.done && a in s.place && a in g && HasSlot(g[a], q) && PosOf(mods, g[a], q).Some? ::
      NearSlot(s, a, ItemAt(g[a], q))
  }

  ghost predicate NearSlot(s: Session, a: Addr, item: Item)
    requires a in s.place
  {
    item.Object? && item.ref in s.place ==> |s.place[item.ref].path| <= |s.place[a].path| + 1
  }

  /** Writing a slot of an object than which nothing is more than one key further away. */
  lemma NearStep(mods: Mods, g: Heap, root: Addr, s: Session, a: Addr, q: Key)
    requires Inv(mods, g, root, s) && Near(mods, g, s) && Ready(mods, g, s, a, q) && (a, q) !in s.done
    requires PosOf(mods, g[a], q).Some? && forall x | x in s.place :: |s.place[x].path| <= |s.place[a].path| + 1
    ensures Near(mods, g, Emit(mods, g, root, s, a, q))
  {
    var t := Emit(mods, g, root, s, a, q);
    EmitSummary(mods, g, root, s, a, q, PosOf(mods, g[a], q).value);
    hide Inv, Ready, Emit, PosOf, HasSlot, ItemAt, SpellingAt, EmptyNode, EncodeItem;
    forall b, r | (b, r) in s.done
      ensures b in s.place && b in g && HasSlot(g[b], r) && (PosOf(mods, g[b], r).Some? ==> Placed(s, ItemAt(g[b], r)))
    {
      DoneSlot(mods, g, root, s, b, r);
    }
    NearStepped(mods, g, s, t, a, q);
  }

  lemma NearStepped(mods: Mods, g: Heap, s: Session, t: Session, a: Addr, q: Key)
    requires Near(mods, g, s) && a in g && HasSlot(g[a], q)
    requires Stepped(g, s, t, a, q, SpellingAt(g[a], q), ItemAt(g[a], q))
    requires forall b, r | (b, r) in s.done :: b in s.place && b in g && HasSlot(g[b], r)
              && (PosOf(mods, g[b], r).Some? ==> Placed(s, ItemAt(g[b], r)))
    requires forall x | x in s.place :: |s.place[x].path| <= |s.place[a].path| + 1
    ensures Near(mods, g, t)
  {
    hide PosOf, HasSlot, ItemAt, SpellingAt, EmptyNode;
    forall b, r | (b, r) in t.done && b in t.place && b in g && HasSlot(g[b], r) && PosOf(mods, g[b], r).Some?
      ensures NearSlot(t, b, ItemAt(g[b], r))
    {
      if (b, r) in s.done {
        assert NearSlot(s, b, ItemAt(g[b], r));
      }
    }
  }

  ghost predicate IsPathFrom(e: Edges, root: Addr, p: seq<Addr>, a: Addr)
  {
    IsPath(e, p) && p[0] == root && p[|p| - 1] == a
  }

  lemma PathFront(e: Edges, root: Addr, p: seq<Addr>, a: Addr)
    requires IsPathFrom(e, root, p, a) && |p| > 1
    ensures IsPathFrom(e, root, p[..|p| - 1], p[|p| - 2]) && p[|p| - 2] in e && a in e[p[|p| - 2]]
  {
  }

  lemma PathEnds(e: Edges, root: Addr, p: seq<Addr>, a: Addr)
    requires IsPathFrom(e, root, p, a)
    ensures p != [] && (|p| == 1 ==> a == root)
  {
  }

  lemma RootIn(mods: Mods, g: Heap, root: Addr, s: Session)
    requires Serialized(mods, g, root, s)
    ensures root in s.place && s.place[root].path == []
  {
    RootPlace(mods, g, root, s);
  }

  lemma PathAlone(e: Edges, root: Addr)
    ensures IsPathFrom(e, root, [root], root)
  {
  }

  lemma PathMore(e: Edges, root: Addr, p: seq<Addr>, a: Addr, b: Addr)
    requires IsPathFrom(e, root, p, a) && a in e && b in e[a]
    ensures IsPathFrom(e, root, p + [b], b)
  {
  }

  /** Whatever path leads to an object, its noted path has no more keys. */
  lemma {:induction false} NoShorter(mods: Mods, g: Heap, root: Addr, s: Session, p: seq<Addr>, a: Addr)
    requires Serialized(mods, g, root, s) && Near(mods, g, s) && IsPathFrom(VisibleEdges(mods, g), root, p, a)
    ensures a in s.place && |s.place[a].path| <= |p| - 1
    decreases |p|
  {
    PathEnds(VisibleEdges(mods, g), root, p, a);
    RootIn(mods, g, root, s);
    hide Serialized, Near, IsPathFrom, VisibleRefs;
    if |p| > 1 {
      var b := p[|p| - 2];
      PathFront(VisibleEdges(mods, g), root, p, a);
      NoShorter(mods, g, root, s, p[..|p| - 1], b);
      ChildrenPlaced(mods, g, root, s, b, a);
      NearChild(mods, g, root, s, b, a);
    }
  }

  lemma NearChild(mods: Mods, g: Heap, root: Addr, s: Session, b: Addr, a: Addr)
    requires Serialized(mods, g, root, s) && Near(mods, g, s) && b in s.place && b in g
    requires a in VisibleRefs(mods, g[b]) && a in s.place
    ensures |s.place[a].path| <= |s.place[b].path| + 1
  {
    hide Inv, PosOf, HasSlot, ItemAt;
    var q :| HasSlot(g[b], q) && ItemAt(g[b], q) == Object(a) && PosOf(mods, g[b], q).Some?;
    assert Filled(g, s, b);
    assert NearSlot(s, b, ItemAt(g[b], q));
  }

  lemma ParentHolds(mods: Mods, g: Heap, root: Addr, s: Session, a: Addr)
    requires Serialized(mods, g, root, s) && a in s.place && a != root
    ensures var b := s.place[a].parent;
            && b in s.place && b in g && s.place[b].node < s.place[a].node && a in VisibleRefs(mods, g[b])
            && |s.place[a].path| == |s.place[b].path| + 1
  {
    hide SlotDone, OnlySlots, Marked, OwnedBy, Fits, Separate, VisibleRefs;
    assert HangsUnder(mods, g, s, a);
    HangsVisibly(mods, g, s, a);
  }

  /** And there is a path with as many. */
  lemma {:induction false} NotedPath(mods: Mods, g: Heap, root: Addr, s: Session, a: Addr) returns (p: seq<Addr>)
    requires Serialized(mods, g, root, s) && a in s.place
    ensures IsPathFrom(VisibleEdges(mods, g), root, p, a) && |p| == |s.place[a].path| + 1
    decreases s.place[a].node
  {
    hide Serialized, IsPathFrom, VisibleRefs;
    RootIn(mods, g, root, s);
    if a == root {
      p := [root];
      PathAlone(VisibleEdges(mods, g), root);
    } else {
      var b := s.place[a].parent;
      ParentHolds(mods, g, root, s, a);
      p := NotedPath(mods, g, root, s, b);
      PathMore(VisibleEdges(mods, g), root, p, b, a);
      p := p + [a];
    }
  }

  /** The noted path of an object has the least number of keys that lead to it from the root. */
  lemma NotedIsShortest(mods: Mods, g: Heap, root: Addr, s: Session, a: Addr)
    requires Serialized(mods, g, root, s) && Near(mods, g, s) && a in s.place
    ensures exists p :: IsPathFrom(VisibleEdges(mods, g), root, p, a) && |p| == |s.place[a].path| + 1
    ensures forall p | IsPathFrom(VisibleEdges(mods, g), root, p, a) :: |s.place[a].path| + 1 <= |p|
  {
    hide Serialized, Near, IsPathFrom;
    var p := NotedPath(mods, g, root, s, a);
    forall q | IsPathFrom(VisibleEdges(mods, g), root, q, a) ensures |s.place[a].path| + 1 <= |q| {
      NoShorter(mods, g, root, s, q, a);
    }
  }
}
