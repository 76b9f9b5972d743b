/** Writing a graph as JSON and reading it back gives an isomorphic graph. */
module JsonRoundTrip {
  import opened Wrappers
  import opened Numerals
  import opened FormCodec
  import opened Graph
  import opened Collections
  import opened Paths
  import opened JsonDocument
  import opened JsonEncoding
  import opened JsonDecoding
  import opened JsonResolution
  import opened JsonDeserializer
  import JsonSerializer

  // ------------------------------------------------------------------ what the format can represent

  /** A form whose string does not decode is read as form 0, which is right for form 0 itself. */
  predicate FallsBackToZero(mods: Mods, form: FormId, s: string)
  {
    form == 0 && StringToForm(mods, s).None?
  }

  /** A scalar whose JSON text is not mistaken for something else. */
  predicate PortableItem(mods: Mods, item: Item)
  {
    match item
    case Text(s) => !IsFormString(s) && !StartsWith(s, REFERENCE)
    case Form(form) =>
      (match FormToString(mods, form)
       case None => false
       case Some(s) => NameLeadsBack(mods, form) || FallsBackToZero(mods, form, s))
    case _ => true
  }

  predicate PortableKey(mods: Mods, k: Key)
  {
    match k
    case NameKey(name) => !IsMetaName(name)
    case IntKey(_) => true
    case FormKey(form) => FormToString(mods, form).Some? && NameLeadsBack(mods, form)
  }

  /** A path that can be printed and followed again. */
  predicate Referable(mods: Mods, path: seq<Key>)
  {
    PathKeys(mods, path) && |PrintKeys(mods, path)| <= PATH_LENGTH_MAX
  }

  ghost predicate PortableSlot(mods: Mods, g: Heap, root: Addr, s: Session, a: Addr, q: Key)
    requires a in g && HasSlot(g[a], q)
  {
    var k, item := SpellingAt(g[a], q), ItemAt(g[a], q);
    && PortableKey(mods, k) && PortableItem(mods, item)
    && (item.Object? && item.ref in s.place && EncodeItem(mods, s, root, a, k, item).JString? ==>
          Referable(mods, s.place[item.ref].path))
  }

  /** Every slot of a discovered object can be represented; only objects held by more than one
      slot need a path that can be followed. */
  ghost predicate Portable(mods: Mods, g: Heap, root: Addr, s: Session)
  {
    forall a, q | a in s.place && a in g && HasSlot(g[a], q) :: PortableSlot(mods, g, root, s, a, q)
  }

  lemma TextDecodes(mods: Mods, placed: map<nat, Addr>, s: string)
    ensures DecodeValue(mods, placed, JString(s)) == Text(s) <==> !IsFormString(s) && !StartsWith(s, REFERENCE)
    ensures IsFormString(s) ==>
              DecodeValue(mods, placed, JString(s)) ==
              match StringToForm(mods, s) case None => Form(0) case Some(f) => Form(f)
  {
    MarksAreSpecial(s);
    hide StartsWith, IsFormString, StringToForm;
  }

  /** A scalar survives exactly when it is portable. */
  lemma ScalarRoundTrip(mods: Mods, placed: map<nat, Addr>, item: Item)
    requires !item.Object? && (item.Form? && HasBar(mods, item.form) ==> ResolvesByName(mods))
    ensures DecodeValue(mods, placed, EncodeScalar(mods, item)) == item <==> PortableItem(mods, item)
  {
    match item
    case Text(s) =>
      hide DecodeValue, StartsWith, IsFormString;
      TextDecodes(mods, placed, s);
    case Form(form) =>
      hide FormToString, StringToForm, NameLeadsBack, HasBar, IsFormString, StartsWith, ResolvesByName;
      if FormToString(mods, form).Some? {
        hide DecodeValue;
        var s := FormToString(mods, form).value;
        RoundTrip(mods, form, s, []);
        FormShape(mods, form, s);
        assert s + [] == s;
        TextDecodes(mods, placed, s);
      }
    case _ =>
  }

  lemma PortableDecodes(mods: Mods, placed: map<nat, Addr>, item: Item)
    requires !item.Object? && PortableItem(mods, item)
    ensures DecodeValue(mods, placed, EncodeScalar(mods, item)) == item
  {
    if item.Form? && !NameLeadsBack(mods, item.form) {
      hide DecodeValue, StringToForm, FormToString, NameLeadsBack;
      var s := FormToString(mods, item.form).value;
      FormShape(mods, item.form, s);
      TextDecodes(mods, placed, s);
    } else {
      ScalarRoundTrip(mods, placed, item);
    }
  }

  /** A key survives exactly when it is portable. */
  lemma KeyRoundTrip(mods: Mods, kind: Kind, k: Key)
    requires Accepts(kind, k) && (k.FormKey? && HasBar(mods, k.form) ==> ResolvesByName(mods))
    ensures (SlotName(mods, k).Some? && !IsMetaName(SlotName(mods, k).value) &&
            KeyOf(mods, kind, SlotName(mods, k).value) == Some(k))
       <==> PortableKey(mods, k)
  {
    match k
    case NameKey(_) =>
    case IntKey(i) =>
      DecimalText(i);
    case FormKey(form) =>
      if FormToString(mods, form).Some? {
        var s := FormToString(mods, form).value;
        RoundTrip(mods, form, s, []);
        FormShape(mods, form, s);
        assert s + [] == s;
        assert |s| > |PREFIX| && s[2] == s[..|PREFIX|][2] == 'f';
      }
  }

  // ------------------------------------------------------------------ the JSON holds the graph

  /** A finished write of a portable graph. */
  ghost predicate Written(mods: Mods, g: Heap, root: Addr, s: Session)
  {
    Serialized(mods, g, root, s) && Portable(mods, g, root, s)
  }

  function Emptied(c: Container): Container
  {
    match c
    case Array(_) => Array([])
    case Tree(kind, _) => Tree(kind, map[])
  }

  lemma PlacedFacts(mods: Mods, g: Heap, root: Addr, s: Session, a: Addr)
    requires Written(mods, g, root, s) && a in s.place
    ensures a in g && WellFormed(g[a]) && s.place[a].node < |s.doc| && OwnedBy(s.doc, s.owner)
    ensures s.doc[s.place[a].node].JArray? == g[a].Array? && OnlySlots(mods, g, s, a)
    ensures g[a].Tree? && g[a].kind != MapKind <==> a in s.metaOf
    ensures a in s.metaOf ==> Marked(g, s, a)
    ensures root in s.place && s.place[root].node == 0 && s.place[root].path == []
  {
    hide PortableSlot, SlotDone, HangsUnder, OwnedBy;
    assert Filled(g, s, a);
  }

  lemma WrittenSlot(mods: Mods, g: Heap, root: Addr, s: Session, a: Addr, q: Key)
    requires Written(mods, g, root, s) && a in s.place && a in g && HasSlot(g[a], q)
    ensures WellFormed(g[a]) && SlotDone(mods, g, root, s, a, q) && PortableSlot(mods, g, root, s, a, q)
  {
    hide SlotDone, PortableSlot, Rooted, OnlySlots, Marked, OwnedBy;
    assert Filled(g, s, a);
  }

  /** Every slot has a position, and its value is there. */
  lemma SlotValue(mods: Mods, g: Heap, root: Addr, s: Session, a: Addr, q: Key)
    requires Written(mods, g, root, s) && a in s.place && a in g && HasSlot(g[a], q)
    ensures Norm(SpellingAt(g[a], q)) == q && PosOf(mods, g[a], q).Some? && Placed(s, ItemAt(g[a], q))
    ensures s.place[a].node < |s.doc|
    ensures At(s.doc[s.place[a].node], PosOf(mods, g[a], q).value)
         == Some(EncodeItem(mods, s, root, a, SpellingAt(g[a], q), ItemAt(g[a], q)))
  {
    hide Written, EncodeItem, Referable;
    WrittenSlot(mods, g, root, s, a, q);
    AloneIfPortable(mods, g, root, s, a, q);
  }

  /** Portable keys of one object are told apart by their strings. */
  lemma AloneIfPortable(mods: Mods, g: Heap, root: Addr, s: Session, a: Addr, q: Key)
    requires Written(mods, g, root, s) && a in s.place && a in g && HasSlot(g[a], q)
    ensures Alone(mods, g[a], q)
  {
    hide Written, Referable, HasSlot, PosOf, SlotDone, EncodeItem, PortableItem;
    WrittenSlot(mods, g, root, s, a, q);
    forall r | HasSlot(g[a], r) && PosOf(mods, g[a], r) == PosOf(mods, g[a], q) ensures r == q {
      WrittenSlot(mods, g, root, s, a, r);
      KeyEncodes(mods, g[a], q);
      PosOfInjective(mods, g[a], q, r);
    }
  }

  lemma KeyEncodes(mods: Mods, c: Container, q: Key)
    requires HasSlot(c, q) && PortableKey(mods, SpellingAt(c, q))
    ensures PosOf(mods, c, q).Some?
  {
  }

  lemma MapShape(mods: Mods, g: Heap, root: Addr, s: Session, a: Addr, name: string)
    requires Written(mods, g, root, s) && a in s.place && a in g && g[a].Tree? && g[a].kind == MapKind
    requires s.place[a].node < |s.doc| && IsMetaName(name)
    ensures At(s.doc[s.place[a].node], Member(name)).None?
  {
    hide Written;
    PlacedFacts(mods, g, root, s, a);
    forall pos | At(s.doc[s.place[a].node], pos).Some? ensures pos != Member(name) {
      var q :| HasSlot(g[a], q) && PosOf(mods, g[a], q) == Some(pos);
      WrittenSlot(mods, g, root, s, a, q);
    }
  }

  lemma UnmarkedShape(doc: Doc, n: nat)
    requires n < |doc| && doc[n].JObject?
    requires At(doc[n], Member(META_INFO)).None? && At(doc[n], Member(META_INFO_LEGACY)).None?
    ensures Shape(doc, n) == Some(Tree(MapKind, map[]))
  {
  }

  lemma MarkedShape(doc: Doc, n: nat, m: nat, kind: Kind)
    requires n < |doc| && m < |doc| && doc[n].JObject? && kind != MapKind
    requires At(doc[n], Member(META_INFO)) == Some(JNode(m)) && doc[m] == MetaNode(kind)
    ensures Shape(doc, n) == Some(Tree(kind, map[]))
  {
    assert At(doc[m], Member(TYPE_NAME)) == Some(JString(TypeName(kind)));
    assert "JFormMap"[1] != "JIntMap"[1];
  }

  lemma ShapeOf(mods: Mods, g: Heap, root: Addr, s: Session, a: Addr)
    requires Written(mods, g, root, s) && a in s.place
    ensures a in g && s.place[a].node < |s.doc| && Shape(s.doc, s.place[a].node) == Some(Emptied(g[a]))
  {
    PlacedFacts(mods, g, root, s, a);
    hide Written, OnlySlots, WellFormed, OwnedBy, MetaNode, At, IsMetaName;
    var n := s.place[a].node;
    if g[a].Array? {
    } else if g[a].kind == MapKind {
      hide Shape;
      assert IsMetaName(META_INFO) && IsMetaName(META_INFO_LEGACY) by {
        MetaNames();
      }
      MapShape(mods, g, root, s, a, META_INFO);
      MapShape(mods, g, root, s, a, META_INFO_LEGACY);
      UnmarkedShape(s.doc, n);
    } else {
      hide Shape;
      MarkedShape(s.doc, n, s.metaOf[a], g[a].kind);
    }
  }

  lemma MetaNames()
    ensures IsMetaName(META_INFO) && IsMetaName(META_INFO_LEGACY)
  {
  }

  lemma ElementKey(mods: Mods, doc: Doc, n: nat, i: nat)
    requires n < |doc| && Shape(doc, n) == Some(Array([])) && i <= INT_MAX && At(doc[n], Element(i)).Some?
    ensures KeyAt(mods, doc, n, Element(i)) == Some(IntKey(i))
  {
    hide Shape;
  }

  lemma MemberKey(mods: Mods, doc: Doc, n: nat, kind: Kind, name: string, k: Key)
    requires n < |doc| && Shape(doc, n) == Some(Tree(kind, map[])) && At(doc[n], Member(name)).Some?
    requires !IsMetaName(name) && KeyOf(mods, kind, name) == Some(k)
    ensures KeyAt(mods, doc, n, Member(name)) == Some(k)
  {
    hide Shape, KeyOf, IsMetaName;
  }

  lemma KeyOfSlot(mods: Mods, g: Heap, root: Addr, s: Session, a: Addr, q: Key)
    requires Written(mods, g, root, s) && a in s.place && a in g && HasSlot(g[a], q)
    ensures s.place[a].node < |s.doc| && PosOf(mods, g[a], q).Some?
    ensures KeyAt(mods, s.doc, s.place[a].node, PosOf(mods, g[a], q).value) == Some(SpellingAt(g[a], q))
  {
    ShapeOf(mods, g, root, s, a);
    SlotValue(mods, g, root, s, a, q);
    hide KeyAt, Written, Shape;
    WrittenSlot(mods, g, root, s, a, q);
    PlacedFacts(mods, g, root, s, a);
    hide SlotDone, OnlySlots, EncodeItem, Marked, OwnedBy, At, KeyOf, IsMetaName, SlotName, Referable;
    if g[a].Tree? {
      KeyRoundTrip(mods, g[a].kind, SpellingAt(g[a], q));
      MemberKey(mods, s.doc, s.place[a].node, g[a].kind, SlotName(mods, SpellingAt(g[a], q)).value,
        SpellingAt(g[a], q));
    } else {
      ElementKey(mods, s.doc, s.place[a].node, q.index);
    }
  }

  lemma NoMetaKey(mods: Mods, doc: Doc, n: nat)
    requires n < |doc|
    ensures KeyAt(mods, doc, n, Member(META_INFO)).None?
    ensures forall pos | KeyAt(mods, doc, n, pos).Some? :: At(doc[n], pos).Some?
  {
    hide Shape, KeyOf;
  }

  lemma SlotOfKey(mods: Mods, g: Heap, root: Addr, s: Session, a: Addr, pos: Position) returns (q: Key)
    requires Written(mods, g, root, s) && a in s.place && s.place[a].node < |s.doc|
    requires KeyAt(mods, s.doc, s.place[a].node, pos).Some?
    ensures a in g && HasSlot(g[a], q) && PosOf(mods, g[a], q) == Some(pos)
    ensures KeyAt(mods, s.doc, s.place[a].node, pos) == Some(SpellingAt(g[a], q))
    ensures Norm(SpellingAt(g[a], q)) == q
  {
    hide KeyAt, Written, HasSlot, PosOf, Marked, OwnedBy, WellFormed, SpellingAt, EncodeItem, At;
    PlacedFacts(mods, g, root, s, a);
    NoMetaKey(mods, s.doc, s.place[a].node);
    q :| HasSlot(g[a], q) && PosOf(mods, g[a], q) == Some(pos);
    hide OnlySlots;
    KeyOfSlot(mods, g, root, s, a, q);
    SlotValue(mods, g, root, s, a, q);
  }

  lemma CleanNode(mods: Mods, g: Heap, root: Addr, s: Session, a: Addr)
    requires Written(mods, g, root, s) && a in s.place && s.place[a].node < |s.doc|
    ensures Clean(mods, s.doc, s.place[a].node)
  {
    hide Written, KeyAt;
    var n := s.place[a].node;
    forall p, r | KeyAt(mods, s.doc, n, p).Some? && KeyAt(mods, s.doc, n, r).Some?
      && Norm(KeyAt(mods, s.doc, n, p).value) == Norm(KeyAt(mods, s.doc, n, r).value)
      ensures p == r
    {
      var i := SlotOfKey(mods, g, root, s, a, p);
      var j := SlotOfKey(mods, g, root, s, a, r);
    }
  }

  lemma RootPlaced(mods: Mods, g: Heap, root: Addr, s: Session)
    requires Written(mods, g, root, s)
    ensures root in s.place && s.place[root].node == 0 && s.place[root].path == [] && OwnedBy(s.doc, s.owner)
  {
    hide SlotDone, OnlySlots, Marked, Portable, OwnedBy, HeapClosed, HangsUnder, Separate;
  }

  lemma Hanging(mods: Mods, g: Heap, root: Addr, s: Session, c: Addr)
    requires Written(mods, g, root, s) && c in s.place && c != root
    ensures HangsUnder(mods, g, s, c) && Separate(s)
  {
    hide SlotDone, OnlySlots, Marked, Portable, OwnedBy, HeapClosed, HangsUnder, Separate, Filled;
  }

  // ------------------------------------------------------------------ paths lead to their objects

  lemma SlotStep(g: Heap, p: Addr, k: Key, c: Addr)
    requires p in g && WellFormed(g[p]) && HasSlot(g[p], Norm(k)) && SpellingAt(g[p], Norm(k)) == k &&
             ItemAt(g[p], Norm(k)) == Object(c)
    ensures Step(g, p, k) == Some(c)
  {
  }

  /** At any moment of the walk, following the noted keys of an object from the root arrives at the object. */
  lemma {:induction false} KeysLead(mods: Mods, g: Heap, root: Addr, s: Session, c: Addr)
    requires Inv(mods, g, root, s) && c in s.place
    ensures WalkKeys(g, root, s.place[c].path) == Some(c)
    decreases s.place[c].node
  {
    hide SlotDone, OnlySlots, Marked, OwnedBy, Fits, Separate, HangsUnder, HasSlot, SpellingAt, ItemAt, WellFormed,
      Step;
    if c != root {
      assert HangsUnder(mods, g, s, c);
      SlotOfChild(mods, g, s, c);
      var p, k := s.place[c].parent, s.place[c].key;
      KeysLead(mods, g, root, s, p);
      assert s.place[c].path[..|s.place[c].path| - 1] == s.place[p].path;
      SlotStep(g, p, k, c);
    }
  }

  /** The printed path of a discovered object, walked from the root of the graph being written, arrives at
      exactly that object. */
  lemma PrintedPathLeads(mods: Mods, g: Heap, root: Addr, s: Session, c: Addr)
    requires Inv(mods, g, root, s) && c in s.place && c != root && Referable(mods, s.place[c].path)
    ensures GetAt(mods, g, root, PrintKeys(mods, s.place[c].path)) == Some(Object(c))
  {
    hide SlotDone, OnlySlots, Marked, OwnedBy, Fits, Separate, PathKeys, PrintKeys, GetAt, WalkKeys;
    KeysLead(mods, g, root, s, c);
    assert HangsUnder(mods, g, s, c);
    WalkPrinted(mods, g, root, s.place[c].path, c);
  }

  // ------------------------------------------------------------------ the load holds the graph

  /** A portable graph was written, and what was written has been loaded. */
  ghost predicate Reread(mods: Mods, g: Heap, root: Addr, s: Session, base: Heap, l: Load)
  {
    Written(mods, g, root, s) && Loaded(mods, s.doc, base, l)
  }

  lemma NodeFacts(mods: Mods, doc: Doc, base: Heap, l: Load, n: nat)
    requires Loaded(mods, doc, base, l) && n in l.placed
    ensures Allocated(doc, base, l, n) && OnlyRead(mods, doc, l, n) && (n != 0 ==> FoundIn(mods, doc, l, n))
    ensures Complete(doc, l, n) && Apart(l) && 0 in l.placed && n < |doc|
  {
    hide OnlyRead, FoundIn, ReadDone, FromReference, Complete, Apart, Frame;
  }

  lemma ReadFact(mods: Mods, doc: Doc, base: Heap, l: Load, n: nat, pos: Position)
    requires Loaded(mods, doc, base, l) && (n, pos) in l.done
    ensures ReadDone(mods, doc, l, n, pos) && n < |doc| && n in l.placed
  {
    assert ReadDone(mods, doc, l, n, pos);
    hide OnlyRead, FoundIn, ReadDone, FromReference, Complete, Apart, Frame, Allocated;
  }

  lemma EncodedNode(mods: Mods, s: Session, root: Addr, a: Addr, k: Key, item: Item, n: nat)
    requires Placed(s, item)
    ensures EncodeItem(mods, s, root, a, k, item) == JNode(n) ==> item.Object? && s.place[item.ref].node == n
    ensures (item.Object? && item.ref != root && s.place[item.ref].parent == a && s.place[item.ref].key == k) ==>
              EncodeItem(mods, s, root, a, k, item) == JNode(s.place[item.ref].node)
  {
  }

  /** Every JSON node that got an object stands for a discovered object. */
  lemma {:induction false} NodeIsPlaced(mods: Mods, g: Heap, root: Addr, s: Session, base: Heap, l: Load, n: nat)
    returns (a: Addr)
    requires Reread(mods, g, root, s, base, l) && n in l.placed
    ensures a in s.place && s.place[a].node == n
    decreases n
  {
    hide Written, Loaded, KeyAt, EncodeItem, ReadDone, OnlyRead, Allocated, Complete, HasSlot, PosOf;
    RootPlaced(mods, g, root, s);
    if n == 0 {
      a := root;
    } else {
      NodeFacts(mods, s.doc, base, l, n);
      var m: nat, pos :| (m, pos) in l.done && m < |s.doc| && At(s.doc[m], pos) == Some(JNode(n)) &&
        KeyAt(mods, s.doc, m, pos).Some?;
      ReadFact(mods, s.doc, base, l, m, pos);
      assert m < n;
      hide OwnedBy, FoundIn;
      var b := NodeIsPlaced(mods, g, root, s, base, l, m);
      var q := SlotOfKey(mods, g, root, s, b, pos);
      SlotValue(mods, g, root, s, b, q);
      EncodedNode(mods, s, root, b, SpellingAt(g[b], q), ItemAt(g[b], q), n);
      a := ItemAt(g[b], q).ref;
    }
  }

  lemma ReadSlot(mods: Mods, g: Heap, root: Addr, s: Session, base: Heap, l: Load, a: Addr, q: Key)
    requires Reread(mods, g, root, s, base, l) && a in s.place && a in g && HasSlot(g[a], q) &&
             s.place[a].node in l.placed
    requires s.place[a].node < |s.doc| && PosOf(mods, g[a], q).Some?
    ensures ReadDone(mods, s.doc, l, s.place[a].node, PosOf(mods, g[a], q).value)
  {
    hide Written, Loaded, KeyAt, EncodeItem, ReadDone, OnlyRead, Allocated, HasSlot, PosOf, At;
    SlotValue(mods, g, root, s, a, q);
    NodeFacts(mods, s.doc, base, l, s.place[a].node);
    ReadFact(mods, s.doc, base, l, s.place[a].node, PosOf(mods, g[a], q).value);
  }

  lemma ReadChild(mods: Mods, doc: Doc, l: Load, n: nat, pos: Position, c: nat)
    requires ReadDone(mods, doc, l, n, pos) && At(doc[n], pos) == Some(JNode(c)) && KeyAt(mods, doc, n, pos).Some?
    requires c < |doc| && Shape(doc, c).Some?
    ensures c in l.placed
  {
    hide KeyAt, Shape;
  }

  lemma SlotOfChild(mods: Mods, g: Heap, s: Session, c: Addr)
    requires c in s.place && HangsUnder(mods, g, s, c)
    ensures var p, k := s.place[c].parent, s.place[c].key;
            && p in s.place && p in g && HasSlot(g[p], Norm(k)) && SpellingAt(g[p], Norm(k)) == k
            && ItemAt(g[p], Norm(k)) == Object(c) && s.place[p].node < s.place[c].node
            && s.place[c].path == s.place[p].path + [k]
  {
  }

  /** Every discovered object got one when the JSON was read. */
  lemma {:induction false} PlacedIsLoaded(mods: Mods, g: Heap, root: Addr, s: Session, base: Heap, l: Load, c: Addr)
    requires Reread(mods, g, root, s, base, l) && c in s.place
    ensures s.place[c].node in l.placed
    decreases s.place[c].node
  {
    hide Written, KeyAt, EncodeItem, ReadDone, HasSlot, PosOf, At, LoadInv, Complete, OwnedBy, HangsUnder, Shape, Norm;
    RootPlaced(mods, g, root, s);
    if c != root {
      Hanging(mods, g, root, s, c);
      SlotOfChild(mods, g, s, c);
      var p, k := s.place[c].parent, s.place[c].key;
      var q := Norm(k);
      PlacedIsLoaded(mods, g, root, s, base, l, p);
      hide Loaded;
      SlotValue(mods, g, root, s, p, q);
      ReadSlot(mods, g, root, s, base, l, p, q);
      KeyOfSlot(mods, g, root, s, p, q);
      EncodedNode(mods, s, root, p, k, Object(c), s.place[c].node);
      ShapeOf(mods, g, root, s, c);
      ReadChild(mods, s.doc, l, s.place[p].node, PosOf(mods, g[p], q).value, s.place[c].node);
    }
  }

  /** The object each discovered object was copied to. */
  ghost function Phi(s: Session, l: Load): map<Addr, Addr>
  {
    map a | a in s.place && s.place[a].node in l.placed :: l.placed[s.place[a].node]
  }

  lemma PhiFacts(mods: Mods, g: Heap, root: Addr, s: Session, base: Heap, l: Load, a: Addr)
    requires Reread(mods, g, root, s, base, l)
    ensures Phi(s, l).Keys == s.place.Keys && Injective(Phi(s, l))
    ensures root in s.place && 0 in l.placed && Phi(s, l)[root] == l.placed[0]
    ensures a in s.place ==>
              s.place[a].node in l.placed && l.placed[s.place[a].node] in l.heap &&
                Phi(s, l)[a] == l.placed[s.place[a].node]
    ensures a in s.place ==> Phi(s, l)[a] !in base
  {
    hide Written, Loaded, OwnedBy, OnlyRead, FoundIn, Complete;
    RootPlaced(mods, g, root, s);
    forall b | b in s.place ensures s.place[b].node in l.placed {
      PlacedIsLoaded(mods, g, root, s, base, l, b);
    }
    SeparatePlaces(mods, g, root, s);
    NodeFacts(mods, s.doc, base, l, s.place[root].node);
    hide Reread;
    if a in s.place {
      AllocatedFact(mods, s.doc, base, l, s.place[a].node);
    }
  }

  lemma AllocatedFact(mods: Mods, doc: Doc, base: Heap, l: Load, n: nat)
    requires Loaded(mods, doc, base, l) && n in l.placed
    ensures l.placed[n] in l.heap && l.placed[n] !in base
  {
    hide Loaded, OnlyRead, FoundIn, Complete, Apart, Shape;
    NodeFacts(mods, doc, base, l, n);
  }

  lemma SeparatePlaces(mods: Mods, g: Heap, root: Addr, s: Session)
    requires Written(mods, g, root, s)
    ensures Separate(s)
  {
    hide SlotDone, OnlySlots, Marked, Portable, OwnedBy, HeapClosed, HangsUnder, Separate, Filled;
  }

  // ------------------------------------------------------------------ slot by slot

  /** The JSON value of a slot. */
  ghost function Wire(mods: Mods, g: Heap, root: Addr, s: Session, a: Addr, q: Key): Value
    requires a in g && HasSlot(g[a], q) && Placed(s, ItemAt(g[a], q))
  {
    EncodeItem(mods, s, root, a, SpellingAt(g[a], q), ItemAt(g[a], q))
  }

  lemma ReferenceDecodes(mods: Mods, placed: map<nat, Addr>, path: seq<Key>)
    ensures ReferencePath(ReferenceTo(mods, path)) == Some(PrintKeys(mods, path))
    ensures DecodeValue(mods, placed, ReferenceTo(mods, path)) == Blank
  {
    hide PrintKeys;
    var text := REFERENCE + PrintKeys(mods, path);
    assert text[..|REFERENCE|] == REFERENCE && text[|REFERENCE|..] == PrintKeys(mods, path);
    assert text[2] == 'r' && text[..|PREFIX|][2] == 'r' != PREFIX[2];
    assert text[..2] == "__";
  }

  lemma ScalarIsNoReference(mods: Mods, item: Item)
    requires !item.Object? && PortableItem(mods, item)
    ensures ReferencePath(EncodeScalar(mods, item)).None?
  {
    if item.Form? && FormToString(mods, item.form).Some? {
      FormShape(mods, item.form, FormToString(mods, item.form).value);
    }
  }

  lemma ReferenceIsBlank(mods: Mods, placed: map<nat, Addr>, v: Value)
    requires ReferencePath(v).Some?
    ensures DecodeValue(mods, placed, v) == Blank
  {
    MarksAreSpecial(v.text);
  }

  /** A slot is read back as what it held, or waits under the path of the object it held. */
  lemma WireDecodes(mods: Mods, g: Heap, root: Addr, s: Session, base: Heap, l: Load, a: Addr, q: Key)
    requires Reread(mods, g, root, s, base, l) && a in s.place && a in g && HasSlot(g[a], q)
    ensures Placed(s, ItemAt(g[a], q))
    ensures
      var v, item := Wire(mods, g, root, s, a, q), ItemAt(g[a], q);
      if ReferencePath(v).None? then DecodeValue(mods, l.placed, v) == RenameItem(Phi(s, l), item)
      else
        && item.Object? && item.ref in Phi(s, l) && ReferencePath(v) == Some(PrintKeys(mods, s.place[item.ref].path))
        && Referable(mods, s.place[item.ref].path)
  {
    hide Written, Loaded, HasSlot, ItemAt, SpellingAt, PosOf, FormToString, DecodeValue, ReferencePath, Referable;
    SlotValue(mods, g, root, s, a, q);
    WrittenSlot(mods, g, root, s, a, q);
    RootPlaced(mods, g, root, s);
    var item := ItemAt(g[a], q);
    if item.Object? {
      PhiFacts(mods, g, root, s, base, l, item.ref);
      NodeDecodes(mods, l.placed, s.place[item.ref].node);
      ReferenceDecodes(mods, l.placed, s.place[item.ref].path);
    } else {
      PortableDecodes(mods, l.placed, item);
      ScalarIsNoReference(mods, item);
    }
    hide SlotDone, PortableItem, PortableKey, EncodeScalar;
  }

  lemma NodeDecodes(mods: Mods, placed: map<nat, Addr>, c: nat)
    ensures ReferencePath(JNode(c)).None?
    ensures c in placed ==> DecodeValue(mods, placed, JNode(c)) == Object(placed[c])
  {
  }

  /** The slot after the load, before references are resolved. */
  lemma LoadedSlot(mods: Mods, g: Heap, root: Addr, s: Session, base: Heap, l: Load, a: Addr, q: Key)
    requires Reread(mods, g, root, s, base, l) && a in s.place && a in g && HasSlot(g[a], q)
    ensures Placed(s, ItemAt(g[a], q)) && a in Phi(s, l) && Phi(s, l)[a] in l.heap
    ensures HasStored(l.heap[Phi(s, l)[a]], SpellingAt(g[a], q),
            DecodeValue(mods, l.placed, Wire(mods, g, root, s, a, q)))
    ensures Scheduled(l.pending, Wire(mods, g, root, s, a, q), (Phi(s, l)[a], SpellingAt(g[a], q)))
  {
    hide Written, Loaded, HasSlot, ItemAt, SpellingAt, PosOf, DecodeValue, KeyAt, Clean, Scheduled, HasStored,
      EncodeItem, Shape;
    SlotValue(mods, g, root, s, a, q);
    PhiFacts(mods, g, root, s, base, l, a);
    ReadSlot(mods, g, root, s, base, l, a, q);
    KeyOfSlot(mods, g, root, s, a, q);
    CleanNode(mods, g, root, s, a);
    hide Reread, Phi;
  }

  lemma SameLength(c: Container, d: Container)
    requires c.Array? && d.Array? && |c.items| <= INT_MAX
    requires forall q :: HasSlot(c, q) <==> HasSlot(d, q)
    ensures |c.items| == |d.items|
  {
    var shorter := if |c.items| <= |d.items| then |c.items| else |d.items|;
    assert HasSlot(c, IntKey(shorter)) <==> HasSlot(d, IntKey(shorter));
  }

  lemma StoredSlot(c: Container, k: Key, item: Item)
    requires HasStored(c, k, item)
    ensures HasSlot(c, Norm(k)) && SpellingAt(c, Norm(k)) == k && ItemAt(c, Norm(k)) == item
  {
  }

  lemma NoOtherSlot(mods: Mods, g: Heap, root: Addr, s: Session, base: Heap, l: Load, a: Addr, q: Key)
    requires Reread(mods, g, root, s, base, l) && a in s.place && s.place[a].node in l.placed &&
             l.placed[s.place[a].node] in l.heap
    requires HasSlot(l.heap[l.placed[s.place[a].node]], q)
    ensures a in g && HasSlot(g[a], q)
  {
    hide Written, Loaded, HasSlot, KeyAt, PosOf, SpellingAt, FoundIn, Complete, Apart, Allocated;
    NodeFacts(mods, s.doc, base, l, s.place[a].node);
    var pos :| (s.place[a].node, pos) in l.done && KeyAt(mods, s.doc, s.place[a].node, pos).Some?
            && Norm(KeyAt(mods, s.doc, s.place[a].node, pos).value) == q;
    var r := SlotOfKey(mods, g, root, s, a, pos);
  }

  lemma LoadedKind(mods: Mods, g: Heap, root: Addr, s: Session, base: Heap, l: Load, a: Addr)
    requires Reread(mods, g, root, s, base, l) && a in s.place && s.place[a].node in l.placed
    ensures a in g && WellFormed(g[a]) && l.placed[s.place[a].node] in l.heap
    ensures var c := l.heap[l.placed[s.place[a].node]]; c.Array? == g[a].Array? && (c.Tree? ==> c.kind == g[a].kind)
  {
    hide Written, Loaded, WellFormed, Shape, OnlyRead, FoundIn, Complete, Apart, OwnedBy, OnlySlots, Marked;
    PlacedFacts(mods, g, root, s, a);
    ShapeOf(mods, g, root, s, a);
    NodeFacts(mods, s.doc, base, l, s.place[a].node);
  }

  /** The copy of an object has the same slots under the same spellings. */
  lemma LoadedSlots(mods: Mods, g: Heap, root: Addr, s: Session, base: Heap, l: Load, a: Addr)
    requires Reread(mods, g, root, s, base, l) && a in s.place
    ensures a in g && a in Phi(s, l) && Phi(s, l)[a] in l.heap && SameSlots(g[a], l.heap[Phi(s, l)[a]])
  {
    hide Reread, HasSlot, SpellingAt, ItemAt, HasStored, DecodeValue, Wire, WellFormed, Scheduled, Injective, Norm;
    PhiFacts(mods, g, root, s, base, l, a);
    LoadedKind(mods, g, root, s, base, l, a);
    var c := l.heap[Phi(s, l)[a]];
    hide Phi;
    forall q | HasSlot(g[a], q) ensures HasSlot(c, q) && SpellingAt(c, q) == SpellingAt(g[a], q) {
      LoadedSlot(mods, g, root, s, base, l, a, q);
      StoredSlot(c, SpellingAt(g[a], q), DecodeValue(mods, l.placed, Wire(mods, g, root, s, a, q)));
      SpellingNorm(g[a], q);
    }
    forall q | HasSlot(c, q) ensures HasSlot(g[a], q) {
      NoOtherSlot(mods, g, root, s, base, l, a, q);
    }
    if g[a].Array? {
      SmallArray(g[a]);
      SameLength(g[a], c);
    }
  }

  lemma SmallArray(c: Container)
    requires WellFormed(c) && c.Array?
    ensures |c.items| <= INT_MAX
  {
  }

  lemma SpellingNorm(c: Container, q: Key)
    requires WellFormed(c) && HasSlot(c, q)
    ensures Norm(SpellingAt(c, q)) == q && (c.Tree? ==> Accepts(c.kind, SpellingAt(c, q)))
  {
  }

  // ------------------------------------------------------------------ references

  lemma PendingSlot(mods: Mods, g: Heap, root: Addr, s: Session, base: Heap, l: Load, path: string, x: (Addr, Key))
    returns (a: Addr, q: Key)
    requires Reread(mods, g, root, s, base, l) && path in l.pending && x in l.pending[path]
    ensures a in s.place && a in Phi(s, l) && Phi(s, l)[a] == x.0
    ensures a in g && HasSlot(g[a], q) && SpellingAt(g[a], q) == x.1 && Norm(x.1) == q && Placed(s, ItemAt(g[a], q))
    ensures ReferencePath(Wire(mods, g, root, s, a, q)) == Some(path)
  {
    hide Written, Loaded, HasSlot, SpellingAt, ItemAt, KeyAt, PosOf, ReferencePath, At, Injective, Norm;
    PendingFact(mods, s.doc, base, l, path, x);
    var n: nat, pos :| (n, pos) in l.done && n < |s.doc| && n in l.placed && KeyAt(mods, s.doc, n, pos) == Some(x.1)
      && At(s.doc[n], pos).Some? && l.placed[n] == x.0 && ReferencePath(At(s.doc[n], pos).value) == Some(path);
    a := NodeIsPlaced(mods, g, root, s, base, l, n);
    q := SlotOfKey(mods, g, root, s, a, pos);
    SlotValue(mods, g, root, s, a, q);
    PhiFacts(mods, g, root, s, base, l, a);
  }

  lemma PendingFact(mods: Mods, doc: Doc, base: Heap, l: Load, path: string, x: (Addr, Key))
    requires Loaded(mods, doc, base, l) && path in l.pending && x in l.pending[path]
    ensures exists n: nat, pos ::
              (n, pos) in l.done && n < |doc| && n in l.placed && KeyAt(mods, doc, n, pos) == Some(x.1)
              && At(doc[n], pos).Some? && l.placed[n] == x.0 && ReferencePath(At(doc[n], pos).value) == Some(path)
  {
    assert FromReference(mods, doc, l, path, x);
    hide Loaded, ReferencePath, At;
    var n: nat, pos :| (n, pos) in l.done && n < |doc| && n in l.placed && KeyAt(mods, doc, n, pos) == Some(x.1)
      && l.placed[n] == x.0 && ReferencePath(At(doc[n], pos).value) == Some(path);
  }

  lemma PendingIsBlank(mods: Mods, g: Heap, root: Addr, s: Session, base: Heap, l: Load, path: string, x: (Addr, Key))
    requires Reread(mods, g, root, s, base, l) && path in l.pending && x in l.pending[path]
    ensures x.0 in l.heap && HasStored(l.heap[x.0], x.1, Blank) &&
            (l.heap[x.0].Tree? ==> Accepts(l.heap[x.0].kind, x.1))
  {
    hide Reread, HasSlot, SpellingAt, ItemAt, HasStored, Wire, Scheduled, Injective, Norm, ReferencePath, DecodeValue,
      Phi, WellFormed;
    var a, q := PendingSlot(mods, g, root, s, base, l, path, x);
    LoadedSlot(mods, g, root, s, base, l, a, q);
    ReferenceIsBlank(mods, l.placed, Wire(mods, g, root, s, a, q));
    PhiFacts(mods, g, root, s, base, l, a);
    LoadedKind(mods, g, root, s, base, l, a);
    SpellingNorm(g[a], q);
  }

  lemma PendingOnce(mods: Mods, g: Heap, root: Addr, s: Session, base: Heap, l: Load, p: string, x: (Addr, Key),
                    r: string, y: (Addr, Key))
    requires Reread(mods, g, root, s, base, l) && p in l.pending && x in l.pending[p] && r in l.pending &&
             y in l.pending[r]
    requires x.0 == y.0 && Norm(x.1) == Norm(y.1)
    ensures p == r
  {
    hide Reread, HasSlot, SpellingAt, ItemAt, Wire, Norm, ReferencePath, Phi;
    var a, q := PendingSlot(mods, g, root, s, base, l, p, x);
    var b, t := PendingSlot(mods, g, root, s, base, l, r, y);
    PhiFacts(mods, g, root, s, base, l, a);
    assert a == b;
  }

  lemma TidyLoad(mods: Mods, g: Heap, root: Addr, s: Session, base: Heap, l: Load)
    requires Reread(mods, g, root, s, base, l)
    ensures Tidy(l.heap, l.pending)
  {
    BlankLoad(mods, g, root, s, base, l);
    OnePathEach(mods, g, root, s, base, l);
    hide Reread, Blanks, OnePath;
  }

  lemma BlankLoad(mods: Mods, g: Heap, root: Addr, s: Session, base: Heap, l: Load)
    requires Reread(mods, g, root, s, base, l)
    ensures Blanks(l.heap, l.pending)
  {
    hide Reread, HasStored;
    forall path, x | path in l.pending && x in l.pending[path]
      ensures x.0 in l.heap && HasStored(l.heap[x.0], x.1, Blank) &&
              (l.heap[x.0].Tree? ==> Accepts(l.heap[x.0].kind, x.1))
    {
      PendingIsBlank(mods, g, root, s, base, l, path, x);
    }
  }

  lemma OnePathEach(mods: Mods, g: Heap, root: Addr, s: Session, base: Heap, l: Load)
    requires Reread(mods, g, root, s, base, l)
    ensures OnePath(l.pending)
  {
    hide Reread, Norm;
    forall p, r, x, y | p in l.pending && r in l.pending && x in l.pending[p] && y in l.pending[r]
      && x.0 == y.0 && Norm(x.1) == Norm(y.1)
      ensures p == r
    {
      PendingOnce(mods, g, root, s, base, l, p, x, r, y);
    }
  }

  lemma StoredGet(c: Container, k: Key, item: Item)
    requires HasStored(c, k, item) && (c.Tree? ==> Accepts(c.kind, k))
    ensures Get(c, k) == Some(item)
  {
  }

  lemma {:induction false} WalkToPlace(mods: Mods, g: Heap, root: Addr, s: Session, base: Heap, l: Load, c: Addr)
    requires Reread(mods, g, root, s, base, l) && c in s.place
    ensures c in Phi(s, l) && 0 in l.placed && WalkKeys(l.heap, l.placed[0], s.place[c].path) == Some(Phi(s, l)[c])
    decreases s.place[c].node
  {
    hide Written, Loaded, HasSlot, SpellingAt, ItemAt, HasStored, Scheduled, Injective, Norm, ReferencePath,
      DecodeValue, Phi, WellFormed, Get, Separate, HangsUnder, EncodeItem, Accepts;
    PhiFacts(mods, g, root, s, base, l, c);
    RootPlaced(mods, g, root, s);
    if c != root {
      Hanging(mods, g, root, s, c);
      SlotOfChild(mods, g, s, c);
      var p, k := s.place[c].parent, s.place[c].key;
      WalkToPlace(mods, g, root, s, base, l, p);
      assert s.place[c].path[..|s.place[c].path| - 1] == s.place[p].path;
      PhiFacts(mods, g, root, s, base, l, p);
      LoadedSlot(mods, g, root, s, base, l, p, Norm(k));
      LoadedKind(mods, g, root, s, base, l, p);
      SpellingNorm(g[p], Norm(k));
      EncodedNode(mods, s, root, p, k, Object(c), s.place[c].node);
      NodeDecodes(mods, l.placed, s.place[c].node);
      StoredGet(l.heap[Phi(s, l)[p]], k, Object(Phi(s, l)[c]));
    }
  }

  /** The printed path of an object leads to its copy. */
  lemma TargetOf(mods: Mods, g: Heap, root: Addr, s: Session, base: Heap, l: Load, c: Addr)
    requires Reread(mods, g, root, s, base, l) && c in s.place && Referable(mods, s.place[c].path)
    ensures c in Phi(s, l) && 0 in l.placed
    ensures Target(mods, l.heap, l.placed[0], PrintKeys(mods, s.place[c].path)) == Some(Phi(s, l)[c])
  {
    var path := s.place[c].path;
    assert path == [] ==> PrintKeys(mods, path) == "";
    hide Written, Loaded, Phi, PrintKeys, GetAt, WalkKeys, PathKeys;
    RootPlaced(mods, g, root, s);
    WalkToPlace(mods, g, root, s, base, l, c);
    PrintedBoundary(mods, path);
    if path != [] {
      WalkPrinted(mods, l.heap, l.placed[0], path, Phi(s, l)[c]);
    } else {
      EmptyWalk(l.heap, l.placed[0]);
    }
  }

  lemma EmptyWalk(heap: Heap, a: Addr)
    ensures WalkKeys(heap, a, []) == Some(a)
  {
  }

  // ------------------------------------------------------------------ the result

  lemma NotAwaited(mods: Mods, g: Heap, root: Addr, s: Session, base: Heap, l: Load, a: Addr, q: Key)
    requires Reread(mods, g, root, s, base, l) && a in s.place && a in g && HasSlot(g[a], q) &&
             Placed(s, ItemAt(g[a], q))
    requires ReferencePath(Wire(mods, g, root, s, a, q)).None? && a in Phi(s, l)
    ensures !Awaits(l.pending, l.pending.Keys, Phi(s, l)[a], q)
  {
    hide Reread, HasSlot, SpellingAt, ItemAt, Wire, Norm, ReferencePath, Phi;
    PhiFacts(mods, g, root, s, base, l, a);
    forall path, x | path in l.pending.Keys && x in l.pending[path] && x.0 == Phi(s, l)[a] ensures Norm(x.1) != q {
      var b, r := PendingSlot(mods, g, root, s, base, l, path, x);
      assert a == b;
    }
  }

  /** After resolution each slot of the copy holds the copy of what the slot held. */
  lemma FinalSlot(mods: Mods, g: Heap, root: Addr, s: Session, base: Heap, l: Load, h: Heap, a: Addr, q: Key)
    requires Reread(mods, g, root, s, base, l) && a in s.place && a in g && HasSlot(g[a], q)
    requires 0 in l.placed && Resolving(mods, l.heap, h, l.pending, l.placed[0], l.pending.Keys)
    ensures a in Phi(s, l) && Phi(s, l)[a] in h && HasSlot(h[Phi(s, l)[a]], q)
    ensures ItemAt(h[Phi(s, l)[a]], q) == RenameItem(Phi(s, l), ItemAt(g[a], q))
  {
    hide Reread, HasSlot, SpellingAt, ItemAt, Wire, Norm, ReferencePath, Phi, DecodeValue, HasStored, Scheduled,
      Target, Referable, PrintKeys, Awaits, Injective;
    WireDecodes(mods, g, root, s, base, l, a, q);
    LoadedSlot(mods, g, root, s, base, l, a, q);
    LoadedSlots(mods, g, root, s, base, l, a);
    PhiFacts(mods, g, root, s, base, l, a);
    LoadedKind(mods, g, root, s, base, l, a);
    SpellingNorm(g[a], q);
    var b, k, v, item := Phi(s, l)[a], SpellingAt(g[a], q), Wire(mods, g, root, s, a, q), ItemAt(g[a], q);
    StoredSlot(l.heap[b], k, DecodeValue(mods, l.placed, v));
    if ReferencePath(v).None? {
      NotAwaited(mods, g, root, s, base, l, a, q);
    } else {
      TargetOf(mods, g, root, s, base, l, item.ref);
      WaitsFor(l.pending, v, (b, k));
      SettledHolds(mods, l.heap, h, l.pending, l.placed[0], PrintKeys(mods, s.place[item.ref].path), (b, k),
        Phi(s, l)[item.ref]);
      StoredSlot(h[b], k, Object(Phi(s, l)[item.ref]));
    }
    hide SameSlots;
  }

  lemma WaitsFor(pending: Pending, v: Value, x: (Addr, Key))
    requires Scheduled(pending, v, x) && ReferencePath(v).Some?
    ensures ReferencePath(v).value in pending && x in pending[ReferencePath(v).value]
  {
    hide ReferencePath;
  }

  lemma SettledHolds(mods: Mods, start: Heap, now: Heap, pending: Pending, root: Addr, path: string, x: (Addr, Key),
                     b: Addr)
    requires Resolving(mods, start, now, pending, root, pending.Keys) && path in pending && x in pending[path]
    requires Target(mods, start, root, path) == Some(b)
    ensures x.0 in now && HasStored(now[x.0], x.1, Object(b))
  {
    hide Between, Target, HasStored;
    assert Holds(now, x, b);
  }

  /** Containers with the same slots and renamed items are renamings of each other. */
  lemma EqualSlots(c: Container, d: Container, phi: map<Addr, Addr>)
    requires SameSlots(c, d) && (c.Array? ==> |c.items| <= INT_MAX)
    requires forall q | HasSlot(c, q) :: HasSlot(d, q) && ItemAt(d, q) == RenameItem(phi, ItemAt(c, q))
    ensures d == Rename(phi, c)
  {
    if c.Array? {
      forall i | 0 <= i < |c.items| ensures d.items[i] == RenameItem(phi, c.items[i]) {
        assert HasSlot(c, IntKey(i));
      }
    } else {
      forall q | q in c.slots
        ensures q in d.slots && d.slots[q] == c.slots[q].(item := RenameItem(phi, c.slots[q].item))
      {
        assert HasSlot(c, q) && SpellingAt(c, q) == SpellingAt(d, q);
      }
      forall q | q in d.slots ensures q in c.slots {
        assert HasSlot(d, q);
      }
    }
  }

  lemma CopiedObject(mods: Mods, g: Heap, root: Addr, s: Session, base: Heap, l: Load, h: Heap, a: Addr)
    requires Reread(mods, g, root, s, base, l) && a in s.place && 0 in l.placed
    requires Resolving(mods, l.heap, h, l.pending, l.placed[0], l.pending.Keys)
    ensures a in g && a in Phi(s, l) && Phi(s, l)[a] in h && h[Phi(s, l)[a]] == Rename(Phi(s, l), g[a])
  {
    hide Reread, HasSlot, SpellingAt, ItemAt, Phi, Rename, RenameItem, Settled, Injective;
    LoadedSlots(mods, g, root, s, base, l, a);
    PhiFacts(mods, g, root, s, base, l, a);
    LoadedKind(mods, g, root, s, base, l, a);
    var b := Phi(s, l)[a];
    SameSlotsThrough(g[a], l.heap[b], h[b]);
    hide Between, SameSlots;
    forall q | HasSlot(g[a], q) ensures HasSlot(h[b], q) && ItemAt(h[b], q) == RenameItem(Phi(s, l), ItemAt(g[a], q)) {
      FinalSlot(mods, g, root, s, base, l, h, a, q);
    }
    hide Resolving;
    EqualSlots(g[a], h[b], Phi(s, l));
  }

  /** With every key encodable the objects in the JSON are all the reachable ones. */
  lemma AllReachable(mods: Mods, g: Heap, root: Addr, s: Session)
    requires Written(mods, g, root, s)
    ensures ReachSet(EdgesOf(g), {root}, s.place.Keys) && s.place.Keys <= g.Keys
  {
    hide Serialized, Portable, ReachSet, VisibleRefs, Refs;
    PlacedIsReachable(mods, g, root, s);
    forall a | a in s.place ensures a in g && VisibleRefs(mods, g[a]) == Refs(g[a]) {
      AllVisible(mods, g, root, s, a);
    }
    SameReach(VisibleEdges(mods, g), EdgesOf(g), {root}, s.place.Keys) by {
      forall a | a in g ensures VisibleRefs(mods, g[a]) <= Refs(g[a]) {
        VisibleIsRef(mods, g[a]);
      }
    }
  }

  lemma VisibleIsRef(mods: Mods, c: Container)
    ensures VisibleRefs(mods, c) <= Refs(c)
  {
  }

  lemma AllVisible(mods: Mods, g: Heap, root: Addr, s: Session, a: Addr)
    requires Written(mods, g, root, s) && a in s.place
    ensures a in g && VisibleRefs(mods, g[a]) == Refs(g[a])
  {
    hide Written, PosOf, OnlySlots, Marked, OwnedBy;
    PlacedFacts(mods, g, root, s, a);
    forall c | c in Refs(g[a]) ensures c in VisibleRefs(mods, g[a]) {
      var q := HolderOf(g[a], c);
      SlotValue(mods, g, root, s, a, q);
    }
  }

  lemma HolderOf(c: Container, b: Addr) returns (q: Key)
    requires WellFormed(c) && b in Refs(c)
    ensures HasSlot(c, q) && ItemAt(c, q) == Object(b)
  {
    match c
    case Array(items) =>
      var i :| 0 <= i < |items| && items[i] == Object(b);
      q := IntKey(i);
    case Tree(_, slots) =>
      q :| q in slots && slots[q].item == Object(b);
  }

  lemma SameReach(e: Edges, f: Edges, roots: set<Addr>, r: set<Addr>)
    requires ReachSet(e, roots, r) && e.Keys == f.Keys
    requires forall a | a in e :: e[a] <= f[a]
    requires forall a | a in r && a in e :: e[a] == f[a]
    ensures ReachSet(f, roots, r)
  {
    forall t: set<nat> | roots <= t && Closed(f, t) ensures r <= t {
      assert Closed(e, t);
    }
  }

  /** The round trip: what is read back is isomorphic to what was reachable from the root, in new objects. */
  lemma RoundTripIsomorphic(mods: Mods, g: Heap, root: Addr, s: Session, base: Heap, l: Load, h: Heap)
    requires Written(mods, g, root, s) && Loaded(mods, s.doc, base, l)
    requires Tidy(l.heap, l.pending) ==> Resolving(mods, l.heap, h, l.pending, l.placed[0], l.pending.Keys)
    ensures 0 in l.placed && Isomorphic(g, root, h, l.placed[0], Phi(s, l))
    ensures forall a | a in Phi(s, l) :: Phi(s, l)[a] !in base
  {
    hide Written, LoadInv, Tidy, Resolving, Phi, ReachSet, Rename;
    TidyLoad(mods, g, root, s, base, l);
    AllReachable(mods, g, root, s);
    PhiFacts(mods, g, root, s, base, l, root);
    forall a | a in Phi(s, l)
      ensures Phi(s, l)[a] !in base && a in g && Phi(s, l)[a] in h && h[Phi(s, l)[a]] == Rename(Phi(s, l), g[a])
    {
      PhiFacts(mods, g, root, s, base, l, a);
      CopiedObject(mods, g, root, s, base, l, h, a);
    }
  }

  /** create_json_value followed by object_from_json in a context that may already hold objects. */
  method WriteAndRead(mods: Mods, graph: Heap, root: Addr, heap: Heap, next: Addr)
    returns (copy: Option<Addr>, result: Heap, ghost s: Session, ghost phi: map<Addr, Addr>)
    requires HeapClosed(graph) && root in graph
    requires SmallArrays(heap) && forall a | a in heap :: a < next
    ensures Serialized(mods, graph, root, s) && Near(mods, graph, s)
    ensures Portable(mods, graph, root, s) ==>
              copy.Some? && Isomorphic(graph, root, result, copy.value, phi) && forall a | a in phi :: phi[a] !in heap
    ensures forall a | a in heap :: a in result && result[a] == heap[a]
  {
    hide Inv, Portable, Isomorphic, SmallArrays, HeapClosed, LoadInv, Tidy, Resolving, Shape, OwnedBy, Fits, Phi,
      Filled;
    var writer := new JsonSerializer.Serializer(mods, graph, root);
    var value := writer.WriteJson();
    s := writer.session;
    WrittenDoc(mods, graph, root, s);
    var reader := new Deserializer(mods, writer.nodes, heap, next, s.owner);
    copy := reader.ObjectFromJson();
    result := reader.heap;
    phi := Phi(s, reader.load);
    if Portable(mods, graph, root, s) {
      RootShape(mods, graph, root, s);
      RoundTripIsomorphic(mods, graph, root, s, heap, reader.load, result);
    }
  }

  lemma WrittenDoc(mods: Mods, g: Heap, root: Addr, s: Session)
    requires Serialized(mods, g, root, s)
    ensures OwnedBy(s.doc, s.owner) && Fits(s.doc)
  {
    hide SlotDone, OnlySlots, Marked, OwnedBy, Fits, HeapClosed, HangsUnder, Separate, Filled;
  }

  lemma RootShape(mods: Mods, g: Heap, root: Addr, s: Session)
    requires Written(mods, g, root, s)
    ensures s.doc != [] && Shape(s.doc, 0).Some?
  {
    hide Written, Shape, OwnedBy;
    RootPlaced(mods, g, root, s);
    ShapeOf(mods, g, root, s, root);
  }

  // ------------------------------------------------------------------ a condition on the graph alone

  /** All scalars and keys are portable, names can be put in paths, and no printed key is wider than width. */
  ghost predicate Plain(mods: Mods, g: Heap, width: nat)
  {
    forall a, q | a in g && HasSlot(g[a], q) ::
      && PortableKey(mods, SpellingAt(g[a], q)) && PortableItem(mods, ItemAt(g[a], q))
      && PlainKey(mods, SpellingAt(g[a], q), width)
  }

  predicate PlainKey(mods: Mods, k: Key, width: nat)
  {
    PathKey(mods, k) && |PrintKey(mods, k)| <= width
  }

  lemma {:induction false} PrintedLength(mods: Mods, ks: seq<Key>, width: nat)
    requires forall i | 0 <= i < |ks| :: PlainKey(mods, ks[i], width)
    ensures |PrintKeys(mods, ks)| <= |ks| * width
  {
    if ks != [] {
      PrintedLength(mods, ks[..|ks| - 1], width);
      assert PlainKey(mods, ks[|ks| - 1], width);
      assert |ks| * width == (|ks| - 1) * width + width;
    }
  }

  /** The objects on the way to c are all different. */
  lemma {:induction false} Ancestors(mods: Mods, g: Heap, root: Addr, s: Session, width: nat, c: Addr)
    returns (on: set<Addr>)
    requires Serialized(mods, g, root, s) && Plain(mods, g, width) && c in s.place
    ensures on <= g.Keys && |on| == |s.place[c].path| + 1 &&
            forall b | b in on :: b in s.place && s.place[b].node <= s.place[c].node
    ensures forall i | 0 <= i < |s.place[c].path| :: PlainKey(mods, s.place[c].path[i], width)
    decreases s.place[c].node
  {
    hide SlotDone, OnlySlots, Marked, OwnedBy, Fits, HeapClosed, HangsUnder, Separate, Filled, PlainKey, HasSlot,
      SpellingAt, ItemAt;
    assert c in g;
    if c == root {
      on := {root};
    } else {
      assert HangsUnder(mods, g, s, c);
      SlotOfChild(mods, g, s, c);
      hide Serialized;
      var above := Ancestors(mods, g, root, s, width, s.place[c].parent);
      on := above + {c};
    }
  }

  /** A graph with few objects for its key width needs no look at the paths at all. */
  lemma SmallIsPortable(mods: Mods, g: Heap, root: Addr, s: Session, width: nat)
    requires Serialized(mods, g, root, s) && Plain(mods, g, width) && |g| * width <= 1024
    ensures Portable(mods, g, root, s)
  {
    forall c | c in s.place ensures Referable(mods, s.place[c].path) {
      hide Serialized, Plain, PrintKeys;
      var on := Ancestors(mods, g, root, s, width, c);
      PrintedLength(mods, s.place[c].path, width);
      SubsetSize(on, g.Keys);
      Monotone(|s.place[c].path|, |g|, width);
    }
    hide Serialized, Referable;
  }

  /** Every object that is held by more than one slot can be reached from the root over at most far slots. */
  ghost predicate SharedWithin(g: Heap, root: Addr, far: nat)
  {
    forall c | c in g && |Holders(g, c)| > 1 && HasPath(EdgesOf(g), {root}, c) ::
      exists p :: IsPathFrom(EdgesOf(g), root, p, c) && |p| <= far + 1
  }

  /** The walk takes shortest paths, so it is enough that the distance of the shared objects fits the key width. */
  lemma PlainIsPortable(mods: Mods, g: Heap, root: Addr, s: Session, width: nat, far: nat)
    requires Serialized(mods, g, root, s) && Near(mods, g, s) && Plain(mods, g, width)
    requires SharedWithin(g, root, far) && far * width <= 1024
    ensures Portable(mods, g, root, s)
  {
    forall a, q | a in s.place && a in g && HasSlot(g[a], q) ensures PortableSlot(mods, g, root, s, a, q) {
      hide Serialized, Near, SharedWithin, Referable, PortableKey, PortableItem, PlainKey, HasSlot, SpellingAt, ItemAt;
      var item := ItemAt(g[a], q);
      if item.Object? && item.ref in s.place
        && EncodeItem(mods, s, root, a, SpellingAt(g[a], q), item).JString?
      {
        hide Plain;
        NearEnough(mods, g, root, s, width, far, a, q, item.ref);
      }
    }
  }

  lemma NearEnough(mods: Mods, g: Heap, root: Addr, s: Session, width: nat, far: nat, a: Addr, q: Key, c: Addr)
    requires Serialized(mods, g, root, s) && Near(mods, g, s) && Plain(mods, g, width)
    requires SharedWithin(g, root, far) && far * width <= PATH_LENGTH_MAX
    requires a in s.place && a in g && HasSlot(g[a], q) && ItemAt(g[a], q) == Object(c) && c in s.place
    requires EncodeItem(mods, s, root, a, SpellingAt(g[a], q), Object(c)).JString?
    ensures Referable(mods, s.place[c].path)
  {
    hide Serialized, Near, Plain, SharedWithin, PrintKeys, HasSlot, ItemAt, SpellingAt, EncodeItem;
    RootIn(mods, g, root, s);
    var on := Ancestors(mods, g, root, s, width, c);
    PrintedLength(mods, s.place[c].path, width);
    if c != root {
      HeldTwice(mods, g, root, s, a, q, c);
      FewKeys(mods, g, root, s, width, far, c);
      Monotone(|s.place[c].path|, far, width);
    }
  }

  lemma HolderIn(g: Heap, a: Addr, q: Key, c: Addr)
    requires a in g && WellFormed(g[a]) && HasSlot(g[a], q) && ItemAt(g[a], q) == Object(c)
    ensures (a, q) in Holders(g, c)
  {
    assert q in SlotsWith(g[a], c);
  }

  lemma TwoElements<T>(s: set<T>, x: T, y: T)
    requires x in s && y in s && x != y
    ensures |s| > 1
  {
    assert y in s - {x};
    assert |s| == |s - {x}| + 1;
  }

  /** Only an object that more than one slot holds gets a reference string. */
  lemma HeldTwice(mods: Mods, g: Heap, root: Addr, s: Session, a: Addr, q: Key, c: Addr)
    requires Serialized(mods, g, root, s) && a in s.place && a in g && HasSlot(g[a], q)
    requires ItemAt(g[a], q) == Object(c) && c in s.place && c != root
    requires EncodeItem(mods, s, root, a, SpellingAt(g[a], q), Object(c)).JString?
    ensures |Holders(g, c)| > 1
  {
    hide SlotDone, OnlySlots, Marked, OwnedBy, Fits, Separate, Filled, HasSlot, ItemAt, SpellingAt, WellFormed, PosOf;
    assert HangsUnder(mods, g, s, c);
    SlotOfChild(mods, g, s, c);
    var p, k := s.place[c].parent, s.place[c].key;
    assert WellFormed(g[a]) && WellFormed(g[p]);
    HolderIn(g, a, q, c);
    HolderIn(g, p, Norm(k), c);
    assert (a, q) != (p, Norm(k));
    TwoElements(Holders(g, c), (a, q), (p, Norm(k)));
  }

  lemma FewKeys(mods: Mods, g: Heap, root: Addr, s: Session, width: nat, far: nat, c: Addr)
    requires Serialized(mods, g, root, s) && Near(mods, g, s) && Plain(mods, g, width) && SharedWithin(g, root, far)
    requires c in s.place && |Holders(g, c)| > 1
    ensures |s.place[c].path| <= far
  {
    var p := NotedPath(mods, g, root, s, c);
    AllKeysEncode(mods, g, root, s, width);
    hide Serialized, Near, Plain, Holders, VisibleRefs, Refs;
    assert c in g by {
      PlacedIn(mods, g, root, s, c);
    }
    assert HasPath(EdgesOf(g), {root}, c);
    var r :| IsPathFrom(EdgesOf(g), root, r, c) && |r| <= far + 1;
    NoShorter(mods, g, root, s, r, c);
  }

  lemma PlacedIn(mods: Mods, g: Heap, root: Addr, s: Session, c: Addr)
    requires Serialized(mods, g, root, s) && c in s.place
    ensures c in g && HeapClosed(g)
  {
    hide SlotDone, OnlySlots, Marked, OwnedBy, Fits, Separate, HangsUnder, HeapClosed, Filled;
  }

  lemma AllKeysEncode(mods: Mods, g: Heap, root: Addr, s: Session, width: nat)
    requires Serialized(mods, g, root, s) && Plain(mods, g, width)
    ensures VisibleEdges(mods, g) == EdgesOf(g)
  {
    RootIn(mods, g, root, s);
    PlacedIn(mods, g, root, s, root);
    hide Serialized;
    forall a | a in g ensures VisibleRefs(mods, g[a]) == Refs(g[a]) {
      hide VisibleRefs, Refs;
      SlotsEncode(mods, g, width, a);
    }
  }

  lemma SlotsEncode(mods: Mods, g: Heap, width: nat, a: Addr)
    requires Plain(mods, g, width) && a in g && WellFormed(g[a])
    ensures VisibleRefs(mods, g[a]) == Refs(g[a])
  {
    forall c | c in Refs(g[a]) ensures c in VisibleRefs(mods, g[a]) {
      hide PosOf, Refs, WellFormed, PortableKey, PortableItem, PlainKey, HasSlot, ItemAt, SpellingAt;
      var q := HolderOf(g[a], c);
      KeyEncodes(mods, g[a], q);
    }
  }

  lemma SubsetSize(a: set<Addr>, b: set<Addr>)
    requires a <= b
    ensures |a| <= |b|
  {
    assert b == a + (b - a);
  }

  lemma Monotone(x: nat, y: nat, width: nat)
    requires x <= y
    ensures x * width <= y * width
  {
  }
}
