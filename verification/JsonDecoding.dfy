/** What json_deserializer has read at any moment, and the invariant each read member keeps. */
module JsonDecoding {
  import opened Wrappers
  import opened Numerals
  import opened FormCodec
  import opened Graph
  import opened Collections
  import opened Paths
  import opened JsonDocument
  import opened JsonEncoding

  // ------------------------------------------------------------------ containers and keys

  predicate IsMetaName(name: string)
  {
    name == META_INFO || name == META_INFO_LEGACY
  }

  /** The value under "__metaInfo", or under the older "__formData". */
  function MetaOf(members: map<string, Value>): Option<Value>
  {
    if META_INFO in members then Some(members[META_INFO])
    else if META_INFO_LEGACY in members then Some(members[META_INFO_LEGACY])
    else None
  }

  /** make_placeholder: the empty container for a node; None for a type name that is not known. */
  function Shape(doc: Doc, n: nat): Option<Container>
    requires n < |doc|
  {
    match doc[n]
    case JArray(_) => Some(Array([]))
    case JObject(members) =>
      match MetaOf(members)
      case None => Some(Tree(MapKind, map[]))
      case Some(JNull) => Some(Tree(FormMapKind, map[]))
      case Some(JNode(m)) =>
        if m < |doc| && doc[m].JObject? then
          match At(doc[m], Member(TYPE_NAME))
          case Some(JString(name)) =>
            if name == TypeName(FormMapKind) then Some(Tree(FormMapKind, map[]))
            else if name == TypeName(IntMapKind) then Some(Tree(IntMapKind, map[]))
            else None
          case _ => None
        else Some(Tree(MapKind, map[]))
      case _ => Some(Tree(MapKind, map[]))
  }

  /** The key a member name stands for; names that do not decode are skipped. */
  function KeyOf(mods: Mods, kind: Kind, name: string): Option<Key>
  {
    match kind
    case MapKind => Some(NameKey(name))
    case FormMapKind => (match StringToForm(mods, name) case None => None case Some(f) => Some(FormKey(f)))
    case IntMapKind => (match Stoi(name) case None => None case Some(i) => Some(IntKey(i)))
  }

  /** The key under which the value at a position is stored. */
  function KeyAt(mods: Mods, doc: Doc, n: nat, pos: Position): Option<Key>
    requires n < |doc|
  {
    if Shape(doc, n).None? || At(doc[n], pos).None? then None
    else
      match pos
      case Element(i) => if i <= INT_MAX then Some(IntKey(i)) else None
      case Member(name) =>
        if IsMetaName(name) || Shape(doc, n).value.Array? then None
        else KeyOf(mods, Shape(doc, n).value.kind, name)
  }

  // ------------------------------------------------------------------ values

  function ToInt32(i: int): Int32
  {
    (i + 0x8000_0000) % 0x1_0000_0000 - 0x8000_0000
  }

  function ReferencePath(v: Value): Option<string>
  {
    if v.JString? && !IsFormString(v.text) && StartsWith(v.text, REFERENCE) then Some(v.text[|REFERENCE|..]) else None
  }

  /** make_item; a reference stays blank until it is resolved. */
  function DecodeValue(mods: Mods, placed: map<nat, Addr>, v: Value): Item
  {
    match v
    case JNull => Blank
    case JInteger(i) => Integer(ToInt32(i))
    case JReal(bits) => Real(bits)
    case JNode(c) => if c in placed then Object(placed[c]) else Blank
    case JString(s) =>
      if !StartsWith(s, "__") then Text(s)
      else if IsFormString(s) then
        (match StringToForm(mods, s) case None => Form(0) case Some(f) => Form(f))
      else if StartsWith(s, REFERENCE) then Blank
      else Text(s)
  }

  // ------------------------------------------------------------------ the texts of the format

  /** What the container of an object node is: "__metaInfo", or else "__formData", marks it; without a mark it is a
      string map. A null is the older mark of a form map; an object names the type. */
  lemma ShapeByMark(doc: Doc, n: nat)
    requires n < |doc| && doc[n].JObject?
    ensures
      var o := doc[n].members;
      var marked := "__metaInfo" in o || "__formData" in o;
      var mark := if "__metaInfo" in o then o["__metaInfo"] else if "__formData" in o then o["__formData"] else JNull;
      && (!marked ==> Shape(doc, n) == Some(Tree(MapKind, map[])))
      && (marked && mark == JNull ==> Shape(doc, n) == Some(Tree(FormMapKind, map[])))
      && (marked && mark.JNode? && mark.id < |doc| && doc[mark.id].JObject? ==>
            var info := doc[mark.id].members;
            Shape(doc, n) ==
            if "typeName" in info && info["typeName"] == JString("JFormMap") then Some(Tree(FormMapKind, map[]))
            else if "typeName" in info && info["typeName"] == JString("JIntMap") then Some(Tree(IntMapKind, map[]))
            else None)
      && (marked && mark != JNull && !(mark.JNode? && mark.id < |doc| && doc[mark.id].JObject?) ==>
            Shape(doc, n) == Some(Tree(MapKind, map[])))
  {
    assert "JFormMap"[1] != "JIntMap"[1];
    assert "__metaInfo"[2] != "__formData"[2];
  }

  /** What the writer marks a form map and an integer map with. */
  lemma MarkWritten(g: Heap, s: Session, a: Addr)
    requires a in g && g[a].Tree? && g[a].kind != MapKind && a in s.place
    requires CanWrite(s, s.place[a].node, Member(META_INFO))
    ensures var t, n, m := MarkKind(g, s, a), s.place[a].node, |s.doc|;
            && |t.doc| == m + 1 && t.doc[n] == JObject(s.doc[n].members["__metaInfo" := JNode(m)])
            && t.doc[m] == JObject(map["typeName" := JString(if g[a].kind == FormMapKind then "JFormMap"
               else "JIntMap")])
  {
  }

  /** What a scalar is written as. */
  lemma ScalarWritten(mods: Mods, item: Item)
    requires !item.Object?
    ensures EncodeScalar(mods, item) ==
            if item.Integer? then JInteger(item.value)
            else if item.Real? then JReal(item.bits)
            else if item.Text? then JString(item.text)
            else if item.Form? && FormToString(mods, item.form).Some? then JString(FormToString(mods, item.form).value)
            else JNull
  {
  }

  /** A reference is the mark and the printed path: of the root, the mark alone. */
  lemma ReferenceWritten(mods: Mods, path: seq<Key>, k: Key)
    ensures ReferenceTo(mods, []) == JString("__reference|")
    ensures ReferenceTo(mods, path + [k]) == JString(ReferenceTo(mods, path).text + PrintKey(mods, k))
  {
    assert (path + [k])[..|path|] == path;
    assert REFERENCE + PrintKeys(mods, path) + PrintKey(mods,
           k) == REFERENCE + (PrintKeys(mods, path) + PrintKey(mods, k));
  }

  /** A member is named like its key in a path, without the dot or the brackets. */
  lemma NameWritten(mods: Mods, k: Key)
    ensures SlotName(mods, k).None? <==> k.FormKey? && FormToString(mods, k.form).None?
    ensures SlotName(mods, k).Some? ==>
              PrintKey(mods, k) == if k.NameKey? then "." + SlotName(mods, k).value
              else "[" + SlotName(mods, k).value + "]"
  {
  }

  /** What a JSON value is read as. Integers are cut to 32 bits; a node whose type is not known gives a blank. */
  lemma ValueRead(mods: Mods, placed: map<nat, Addr>, v: Value)
    ensures DecodeValue(mods, placed, v) ==
            match v
            case JNull => Blank
            case JInteger(i) => Integer(ToInt32(i))
            case JReal(bits) => Real(bits)
            case JNode(c) => if c in placed then Object(placed[c]) else Blank
            case JString(s) =>
              if StartsWith(s, "__formData|") then
                Form(if StringToForm(mods, s).Some? then StringToForm(mods, s).value else 0)
              else if StartsWith(s, "__reference|") then Blank
              else Text(s)
    ensures ReferencePath(v) ==
            if v.JString? && StartsWith(v.text, "__reference|") then Some(v.text[|"__reference|"|..]) else None
  {
    if v.JString? {
      var s := v.text;
      if StartsWith(s, "__formData|") {
        assert s[..2] == s[..11][..2] == "__" && s[2] == s[..11][2] == 'f';
      }
      if StartsWith(s, "__reference|") {
        assert s[..2] == s[..12][..2] == "__" && s[2] == s[..12][2] == 'r';
      }
      hide StringToForm;
      assert |"__reference|"| == 12 && |"__formData|"| == 11;
      assert StartsWith(s, "__formData|") ==> !StartsWith(s, "__reference|");
    }
  }

  /** The low 32 bits of an integer, as a signed number. */
  lemma LowBits(i: int)
    ensures (ToInt32(i) - i) % 0x1_0000_0000 == 0
    ensures -0x8000_0000 <= i < 0x8000_0000 ==> ToInt32(i) == i
  {
  }

  /** What a member name is read as: type information is no key, and a name that does not decode is passed over. */
  lemma NameRead(mods: Mods, doc: Doc, n: nat, name: string)
    requires n < |doc| && Shape(doc, n).Some? && Shape(doc, n).value.Tree? && At(doc[n], Member(name)).Some?
    ensures KeyAt(mods, doc, n, Member(name)) ==
            if name == "__metaInfo" || name == "__formData" then None
            else
              match Shape(doc, n).value.kind
              case MapKind => Some(NameKey(name))
              case IntMapKind => if Stoi(name).Some? then Some(IntKey(Stoi(name).value)) else None
              case FormMapKind => if StringToForm(mods, name).Some? then Some(FormKey(StringToForm(mods, name).value))
                else None
  {
    hide Shape, Stoi, StringToForm;
  }

  // ------------------------------------------------------------------ the state of a load

  datatype Load = Load(
    heap: Heap,
    next: Addr,                                   // where the next object is allocated
    placed: map<nat, Addr>,                       // the object made for each JSON node
    done: set<(nat, Position)>,                   // positions already read
    pending: map<string, seq<(Addr, Key)>>)       // _toResolve

  ghost predicate HasStored(c: Container, k: Key, item: Item)
  {
    match c
    case Array(items) => k.IntKey? && 0 <= k.index < |items| && items[k.index] == item
    case Tree(_, slots) => Norm(k) in slots && slots[Norm(k)] == Slot(k, item)
  }

  /** No two positions of the node are stored under the same key. */
  ghost predicate Clean(mods: Mods, doc: Doc, n: nat)
    requires n < |doc|
  {
    forall p, r | KeyAt(mods, doc, n, p).Some? && KeyAt(mods, doc, n, r).Some?
      && Norm(KeyAt(mods, doc, n, p).value) == Norm(KeyAt(mods, doc, n, r).value) :: p == r
  }

  /** A reference string is on the list of slots to resolve. */
  ghost predicate Scheduled(pending: map<string, seq<(Addr, Key)>>, v: Value, x: (Addr, Key))
  {
    match ReferencePath(v)
    case None => true
    case Some(path) => path in pending && x in pending[path]
  }

  ghost predicate ReadDone(mods: Mods, doc: Doc, s: Load, n: nat, pos: Position)
  {
    && n < |doc| && n in s.placed && s.placed[n] in s.heap && At(doc[n], pos).Some?
    && (KeyAt(mods, doc, n, pos).Some? ==>
          var k, v := KeyAt(mods, doc, n, pos).value, At(doc[n], pos).value;
          && (v.JNode? && v.id < |doc| && Shape(doc, v.id).Some? ==> v.id in s.placed)
          && (Clean(mods, doc, n) ==> HasStored(s.heap[s.placed[n]], k, DecodeValue(mods, s.placed, v)))
          && Scheduled(s.pending, v, (s.placed[n], k)))
  }

  ghost predicate OnlyRead(mods: Mods, doc: Doc, s: Load, n: nat)
  {
    && n < |doc| && n in s.placed && s.placed[n] in s.heap
    && forall q | HasSlot(s.heap[s.placed[n]], q) ::
         exists pos :: (n, pos) in s.done && KeyAt(mods, doc, n, pos).Some? && Norm(KeyAt(mods, doc, n, pos).value) == q
  }

  ghost predicate FromReference(mods: Mods, doc: Doc, s: Load, path: string, x: (Addr, Key))
  {
    exists n: nat, pos ::
      && (n, pos) in s.done && n < |doc| && n in s.placed
      && KeyAt(mods, doc, n, pos) == Some(x.1) && s.placed[n] == x.0
      && ReferencePath(At(doc[n], pos).value) == Some(path)
  }

  ghost predicate Allocated(doc: Doc, base: Heap, s: Load, n: nat)
    requires n in s.placed
  {
    && n < |doc| && Shape(doc, n).Some?
    && s.placed[n] in s.heap && s.placed[n] !in base && s.placed[n] < s.next
    && s.heap[s.placed[n]].Array? == Shape(doc, n).value.Array?
    && (s.heap[s.placed[n]].Tree? ==> s.heap[s.placed[n]].kind == Shape(doc, n).value.kind)
  }

  ghost predicate FoundIn(mods: Mods, doc: Doc, s: Load, c: nat)
  {
    exists n: nat, pos ::
      (n, pos) in s.done && n < |doc| && At(doc[n], pos) == Some(JNode(c)) && KeyAt(mods, doc, n, pos).Some?
  }

  ghost predicate Apart(s: Load)
  {
    forall m, n | m in s.placed && n in s.placed && s.placed[m] == s.placed[n] :: m == n
  }

  ghost predicate HasNode(placed: map<nat, Addr>, a: Addr)
  {
    exists n :: n in placed && placed[n] == a
  }

  ghost predicate Frame(base: Heap, s: Load)
  {
    && (forall a | a in base :: a in s.heap && s.heap[a] == base[a])
    && (forall a | a in s.heap :: a < s.next && (a in base || HasNode(s.placed, a)))
  }

  ghost predicate LoadInv(mods: Mods, doc: Doc, base: Heap, s: Load)
  {
    && Frame(base, s) && Apart(s)
    && (forall n | n in s.placed ::
         Allocated(doc, base, s, n) && OnlyRead(mods, doc, s, n) && (n != 0 ==> FoundIn(mods, doc, s, n)))
    && (forall n, pos | (n, pos) in s.done :: ReadDone(mods, doc, s, n, pos))
    && (forall path, x | path in s.pending && x in s.pending[path] :: FromReference(mods, doc, s, path, x))
  }

  // ------------------------------------------------------------------ the steps

  ghost function Adopt(doc: Doc, s: Load, v: Value): Load
  {
    if v.JNode? && v.id < |doc| && Shape(doc, v.id).Some? then
      s.(heap := s.heap[s.next := Shape(doc, v.id).value], next := s.next + 1, placed := s.placed[v.id := s.next])
    else s
  }

  function Store(c: Container, k: Key, item: Item): Container
  {
    match c
    case Array(items) => Array(items + [item])
    case Tree(kind, slots) => if Put(c, k, item).Some? then Put(c, k, item).value else c
  }

  function Schedule(pending: map<string, seq<(Addr, Key)>>, v: Value, x: (Addr, Key)): map<string, seq<(Addr, Key)>>
  {
    match ReferencePath(v)
    case None => pending
    case Some(path) => pending[path := (if path in pending then pending[path] else []) + [x]]
  }

  ghost function Read(mods: Mods, doc: Doc, s: Load, n: nat, pos: Position): Load
    requires n < |doc| && n in s.placed && s.placed[n] in s.heap && At(doc[n], pos).Some?
  {
    match KeyAt(mods, doc, n, pos)
    case None => s.(done := s.done + {(n, pos)})
    case Some(k) =>
      var v, a := At(doc[n], pos).value, s.placed[n];
      var t := Adopt(doc, s, v);
      t.(heap := t.heap[a := Store(s.heap[a], k, DecodeValue(mods, t.placed, v))],
         pending := Schedule(t.pending, v, (a, k)),
         done := t.done + {(n, pos)})
  }

  // ------------------------------------------------------------------ a step keeps the invariant

  /** The position (n, pos), holding v under key k, has not been read and can be. */
  ghost predicate Readable(mods: Mods, doc: Doc, owner: map<nat, (nat, Position)>, s: Load, n: nat, pos: Position,
                           k: Key, v: Value)
  {
    && OwnedBy(doc, owner) && n < |doc| && n in s.placed && s.placed[n] in s.heap
    && At(doc[n], pos) == Some(v) && KeyAt(mods, doc, n, pos) == Some(k) && (n, pos) !in s.done
    && (s.heap[s.placed[n]].Array? ==> pos == Element(|s.heap[s.placed[n]].items|))
  }

  ghost predicate LoadStepped(mods: Mods, doc: Doc, s: Load, t: Load, n: nat, pos: Position, k: Key, v: Value)
  {
    && n in s.placed && s.placed[n] in s.heap && s.next <= t.next
    && t.done == s.done + {(n, pos)} && t.pending == Schedule(s.pending, v, (s.placed[n], k))
    && (forall m | m in s.placed :: m in t.placed && t.placed[m] == s.placed[m])
    && (forall m | m in t.placed && m !in s.placed ::
          && v == JNode(m) && m < |doc| && Shape(doc, m).Some? && t.placed[m] == s.next < t.next
          && s.next in t.heap && t.heap[s.next] == Shape(doc, m).value)
    && (forall b | b in s.heap && b != s.placed[n] :: b in t.heap && t.heap[b] == s.heap[b])
    && (forall b | b in t.heap :: b in s.heap || (b == s.next < t.next && HasNode(t.placed, b)))
    && s.placed[n] in t.heap
    && t.heap[s.placed[n]] == Store(s.heap[s.placed[n]], k, DecodeValue(mods, t.placed, v))
    && (v.JNode? && v.id < |doc| && Shape(doc, v.id).Some? ==> v.id in t.placed)
  }

  /** A node that an unread position refers to has no object yet. */
  lemma ChildIsNew(mods: Mods, doc: Doc, owner: map<nat, (nat, Position)>, s: Load, n: nat, pos: Position, c: nat)
    requires OwnedBy(doc, owner) && n < |doc| && At(doc[n], pos) == Some(JNode(c)) && (n, pos) !in s.done
    requires c in s.placed && c != 0 ==> FoundIn(mods, doc, s, c)
    ensures c !in s.placed
  {
    assert n < c && owner[c] == (n, pos);
  }

  lemma ReadSteps(mods: Mods, doc: Doc, base: Heap, owner: map<nat, (nat, Position)>, s: Load, n: nat, pos: Position,
                  k: Key, v: Value)
    requires Readable(mods, doc, owner, s, n, pos, k, v) && Frame(base, s)
    requires v.JNode? && v.id in s.placed && v.id != 0 ==> FoundIn(mods, doc, s, v.id)
    ensures LoadStepped(mods, doc, s, Read(mods, doc, s, n, pos), n, pos, k, v)
  {
    if v.JNode? {
      ChildIsNew(mods, doc, owner, s, n, pos, v.id);
    }
    hide OwnedBy, FoundIn, KeyAt, Store, DecodeValue, Schedule;
    assert s.next !in s.heap;
  }

  lemma StoreKeeps(c: Container, k: Key, item: Item, l: Key, other: Item)
    requires HasStored(c, l, other) && (c.Tree? ==> Norm(k) != Norm(l))
    ensures HasStored(Store(c, k, item), l, other)
  {
  }

  lemma StoreSlots(c: Container, k: Key, item: Item, q: Key)
    requires HasSlot(Store(c, k, item), q) && (c.Array? ==> |c.items| <= INT_MAX && k == IntKey(|c.items|))
    ensures HasSlot(c, q) || q == Norm(k)
  {
  }

  lemma StoreNew(mods: Mods, doc: Doc, s: Load, n: nat, pos: Position, k: Key, item: Item)
    requires n < |doc| && OnlyRead(mods, doc, s, n) && Clean(mods, doc, n)
    requires KeyAt(mods, doc, n, pos) == Some(k) && (n, pos) !in s.done
    requires Shape(doc, n).Some? && s.heap[s.placed[n]].Array? == Shape(doc, n).value.Array?
    requires s.heap[s.placed[n]].Tree? ==> s.heap[s.placed[n]].kind == Shape(doc, n).value.kind
    requires s.heap[s.placed[n]].Array? ==> pos == Element(|s.heap[s.placed[n]].items|)
    ensures HasStored(Store(s.heap[s.placed[n]], k, item), k, item)
  {
    var c := s.heap[s.placed[n]];
    assert HasSlot(c, Norm(k)) ==> c.Array?;
  }

  lemma DecodeStable(mods: Mods, doc: Doc, s: Load, t: Load, v: Value)
    requires forall m | m in s.placed :: m in t.placed && t.placed[m] == s.placed[m]
    requires forall m | m in t.placed :: m < |doc| && Shape(doc, m).Some?
    requires v.JNode? && v.id < |doc| && Shape(doc, v.id).Some? ==> v.id in s.placed
    ensures DecodeValue(mods, s.placed, v) == DecodeValue(mods, t.placed, v)
  {
  }

  lemma ScheduleKeeps(pending: map<string, seq<(Addr, Key)>>, v: Value, x: (Addr, Key), w: Value, y: (Addr, Key))
    requires Scheduled(pending, w, y)
    ensures Scheduled(Schedule(pending, v, x), w, y) && Scheduled(Schedule(pending, v, x), v, x)
  {
    assert forall xs: seq<(Addr, Key)> :: x in xs + [x];
    assert forall xs: seq<(Addr, Key)> :: y in xs ==> y in xs + [x];
  }

  lemma ReadDoneKept(mods: Mods, doc: Doc, base: Heap, s: Load, t: Load, n: nat, pos: Position, k: Key, v: Value,
                     m: nat, p: Position)
    requires LoadStepped(mods, doc, s, t, n, pos, k, v) && ReadDone(mods, doc, s, m, p) && Apart(s) &&
             (m, p) != (n, pos)
    requires n < |doc| && KeyAt(mods, doc, n, pos) == Some(k)
    requires forall b | b in t.placed :: b < |doc| && Shape(doc, b).Some?
    requires s.heap[s.placed[n]].Array? ==> Shape(doc, n).Some? && Shape(doc, n).value.Array?
    ensures ReadDone(mods, doc, t, m, p)
  {
    if KeyAt(mods, doc, m, p).Some? {
      var l, w := KeyAt(mods, doc, m, p).value, At(doc[m], p).value;
      ScheduleKeeps(s.pending, v, (s.placed[n], k), w, (s.placed[m], l));
      DecodeStable(mods, doc, s, t, w);
      if m == n && Clean(mods, doc, n) {
        hide Scheduled, Schedule, DecodeValue, Store, HasStored;
        assert Norm(k) != Norm(l);
        StoreKeeps(s.heap[s.placed[n]], k, DecodeValue(mods, t.placed, v), l, DecodeValue(mods, s.placed, w));
      }
      hide Scheduled, Schedule, DecodeValue, Store, HasStored, Clean, KeyAt;
      assert s.placed[m] == s.placed[n] ==> m == n;
    }
  }

  lemma ReadDoneNew(mods: Mods, doc: Doc, owner: map<nat, (nat, Position)>, s: Load, t: Load, n: nat, pos: Position,
                    k: Key, v: Value)
    requires Readable(mods, doc, owner, s, n, pos, k, v) && LoadStepped(mods, doc, s, t, n, pos, k, v)
    requires OnlyRead(mods, doc, s, n) && Shape(doc, n).Some?
    requires s.heap[s.placed[n]].Array? == Shape(doc, n).value.Array?
    requires s.heap[s.placed[n]].Tree? ==> s.heap[s.placed[n]].kind == Shape(doc, n).value.kind
    ensures ReadDone(mods, doc, t, n, pos)
  {
    var x := (s.placed[n], k);
    assert forall xs: seq<(Addr, Key)> :: x in xs + [x];
    if Clean(mods, doc, n) {
      StoreNew(mods, doc, s, n, pos, k, DecodeValue(mods, t.placed, v));
    }
    hide KeyAt, DecodeValue, Clean, HasStored, OnlyRead, OwnedBy;
  }

  lemma OnlyReadKept(mods: Mods, doc: Doc, base: Heap, s: Load, t: Load, n: nat, pos: Position, k: Key, v: Value,
                     m: nat)
    requires LoadStepped(mods, doc, s, t, n, pos, k, v) && n < |doc| && KeyAt(mods, doc, n, pos) == Some(k) && Apart(s)
    requires m in t.placed && (m in s.placed ==> OnlyRead(mods, doc, s, m)) && s.next !in s.heap
    requires s.heap[s.placed[n]].Array? ==> pos == Element(|s.heap[s.placed[n]].items|)
    ensures OnlyRead(mods, doc, t, m)
  {
    if m in s.placed {
      var c := s.heap[s.placed[m]];
      assert s.placed[m] == s.placed[n] ==> m == n;
      forall q | HasSlot(t.heap[t.placed[m]], q)
        ensures exists p :: (m, p) in t.done && KeyAt(mods, doc, m, p).Some? && Norm(KeyAt(mods, doc, m, p).value) == q
      {
        if m == n {
          StoreSlots(c, k, DecodeValue(mods, t.placed, v), q);
          assert (n, pos) in t.done;
        }
        hide KeyAt, Store, DecodeValue;
        if HasSlot(c, q) {
          var p :| (m, p) in s.done && KeyAt(mods, doc, m, p).Some? && Norm(KeyAt(mods, doc, m, p).value) == q;
          assert (m, p) in t.done;
        }
      }
    }
  }

  lemma AllocatedKept(mods: Mods, doc: Doc, base: Heap, s: Load, t: Load, n: nat, pos: Position, k: Key, v: Value,
                      m: nat)
    requires LoadStepped(mods, doc, s, t, n, pos, k, v) && n < |doc| && Frame(base, s) && Apart(s)
    requires m in t.placed && (m in s.placed ==> Allocated(doc, base, s, m) && (m != 0 ==> FoundIn(mods, doc, s, m)))
    requires At(doc[n], pos) == Some(v) && KeyAt(mods, doc, n, pos).Some?
    ensures Allocated(doc, base, t, m) && (m != 0 ==> FoundIn(mods, doc, t, m))
  {
    assert (n, pos) in t.done;
    assert s.next !in s.heap;
    if m in s.placed && m != 0 {
      var b: nat, p :| (b, p) in s.done && b < |doc| && At(doc[b], p) == Some(JNode(m)) && KeyAt(mods, doc, b, p).Some?;
      assert (b, p) in t.done;
    }
    hide FoundIn, DecodeValue, Shape, Schedule;
    assert m in s.placed ==> (s.placed[m] == s.placed[n] ==> m == n);
  }

  lemma FrameKept(mods: Mods, doc: Doc, base: Heap, s: Load, t: Load, n: nat, pos: Position, k: Key, v: Value)
    requires LoadStepped(mods, doc, s, t, n, pos, k, v) && Frame(base, s) && Apart(s) && s.placed[n] !in base
    requires forall m | m in s.placed :: s.placed[m] < s.next
    ensures Frame(base, t) && Apart(t)
  {
    hide DecodeValue, Shape, Schedule, Store;
  }

  lemma PendingKept(mods: Mods, doc: Doc, s: Load, t: Load, n: nat, pos: Position, k: Key, v: Value, path: string,
                    x: (Addr, Key))
    requires LoadStepped(mods, doc, s, t, n, pos, k, v) && n < |doc| && KeyAt(mods, doc, n, pos) == Some(k)
    requires At(doc[n], pos) == Some(v)
    requires path in t.pending && x in t.pending[path]
    requires path in s.pending && x in s.pending[path] ==> FromReference(mods, doc, s, path, x)
    ensures FromReference(mods, doc, t, path, x)
  {
    hide DecodeValue, Shape, Store;
    if path in s.pending && x in s.pending[path] {
      var b: nat, p :| (b, p) in s.done && b < |doc| && b in s.placed && KeyAt(mods, doc, b, p) == Some(x.1)
        && s.placed[b] == x.0 && ReferencePath(At(doc[b], p).value) == Some(path);
      assert (b, p) in t.done;
    } else {
      assert (n, pos) in t.done;
    }
  }

  lemma ReadKeepsInv(mods: Mods, doc: Doc, base: Heap, owner: map<nat, (nat, Position)>, s: Load, n: nat,
                     pos: Position, k: Key, v: Value)
    requires LoadInv(mods, doc, base, s) && Readable(mods, doc, owner, s, n, pos, k, v)
    ensures LoadInv(mods, doc, base, Read(mods, doc, s, n, pos))
    ensures LoadStepped(mods, doc, s, Read(mods, doc, s, n, pos), n, pos, k, v)
  {
    var t := Read(mods, doc, s, n, pos);
    ReadSteps(mods, doc, base, owner, s, n, pos, k, v);
    assert Allocated(doc, base, s, n) && OnlyRead(mods, doc, s, n);
    LoadStepKeeps(mods, doc, base, owner, s, t, n, pos, k, v);
  }

  lemma LoadStepKeeps(mods: Mods, doc: Doc, base: Heap, owner: map<nat, (nat, Position)>, s: Load, t: Load, n: nat,
                      pos: Position, k: Key, v: Value)
    requires LoadInv(mods, doc, base, s) && Readable(mods, doc, owner, s, n, pos, k, v)
    requires LoadStepped(mods, doc, s, t, n, pos, k, v)
    ensures LoadInv(mods, doc, base, t)
  {
    hide LoadStepped, Allocated, OnlyRead, ReadDone, FromReference, FoundIn, KeyAt;
    PlacedKept(mods, doc, base, owner, s, t, n, pos, k, v);
    DoneKept(mods, doc, base, owner, s, t, n, pos, k, v);
    AllPendingKept(mods, doc, base, owner, s, t, n, pos, k, v);
  }

  lemma AllPendingKept(mods: Mods, doc: Doc, base: Heap, owner: map<nat, (nat, Position)>, s: Load, t: Load, n: nat,
                       pos: Position, k: Key, v: Value)
    requires LoadInv(mods, doc, base, s) && Readable(mods, doc, owner, s, n, pos, k, v)
    requires LoadStepped(mods, doc, s, t, n, pos, k, v)
    ensures forall path, x | path in t.pending && x in t.pending[path] :: FromReference(mods, doc, t, path, x)
  {
    hide LoadStepped, Allocated, OnlyRead, ReadDone, FromReference, FoundIn, KeyAt;
    forall path, x | path in t.pending && x in t.pending[path] ensures FromReference(mods, doc, t, path, x) {
      PendingKept(mods, doc, s, t, n, pos, k, v, path, x);
    }
  }

  lemma PlacedKept(mods: Mods, doc: Doc, base: Heap, owner: map<nat, (nat, Position)>, s: Load, t: Load, n: nat,
                   pos: Position, k: Key, v: Value)
    requires LoadInv(mods, doc, base, s) && Readable(mods, doc, owner, s, n, pos, k, v)
    requires LoadStepped(mods, doc, s, t, n, pos, k, v)
    ensures Frame(base, t) && Apart(t)
    ensures forall m | m in t.placed ::
              Allocated(doc, base, t, m) && OnlyRead(mods, doc, t, m) && (m != 0 ==> FoundIn(mods, doc, t, m))
  {
    assert forall m | m in s.placed :: s.placed[m] < s.next by {
      assert forall m | m in s.placed :: Allocated(doc, base, s, m);
    }
    assert Allocated(doc, base, s, n);
    FrameKept(mods, doc, base, s, t, n, pos, k, v);
    forall m | m in t.placed
      ensures Allocated(doc, base, t, m) && OnlyRead(mods, doc, t, m) && (m != 0 ==> FoundIn(mods, doc, t, m))
    {
      hide Allocated, OnlyRead, FoundIn, ReadDone, FromReference, KeyAt, LoadStepped;
      AllocatedKept(mods, doc, base, s, t, n, pos, k, v, m);
      OnlyReadKept(mods, doc, base, s, t, n, pos, k, v, m);
    }
  }

  lemma DoneKept(mods: Mods, doc: Doc, base: Heap, owner: map<nat, (nat, Position)>, s: Load, t: Load, n: nat,
                 pos: Position, k: Key, v: Value)
    requires LoadInv(mods, doc, base, s) && Readable(mods, doc, owner, s, n, pos, k, v)
    requires LoadStepped(mods, doc, s, t, n, pos, k, v)
    requires forall m | m in t.placed :: Allocated(doc, base, t, m)
    ensures forall m, p | (m, p) in t.done :: ReadDone(mods, doc, t, m, p)
  {
    assert forall b | b in t.placed :: b < |doc| && Shape(doc, b).Some?;
    forall m, p | (m, p) in t.done ensures ReadDone(mods, doc, t, m, p) {
      hide ReadDone, KeyAt, OnlyRead, FoundIn, FromReference;
      assert Allocated(doc, base, s, n) && OnlyRead(mods, doc, s, n);
      hide LoadStepped;
      if (m, p) == (n, pos) {
        ReadDoneNew(mods, doc, owner, s, t, n, pos, k, v);
      } else {
        DoneBefore(mods, doc, s, t, n, pos, k, v, m, p);
        assert ReadDone(mods, doc, s, m, p);
        ReadDoneKept(mods, doc, base, s, t, n, pos, k, v, m, p);
      }
    }
  }

  lemma DoneBefore(mods: Mods, doc: Doc, s: Load, t: Load, n: nat, pos: Position, k: Key, v: Value, m: nat, p: Position)
    requires LoadStepped(mods, doc, s, t, n, pos, k, v) && (m, p) in t.done && (m, p) != (n, pos)
    ensures (m, p) in s.done
  {
  }

  /** A member whose name does not decode, or that is type information, is passed over. */
  lemma SkipKeepsInv(mods: Mods, doc: Doc, base: Heap, s: Load, t: Load, n: nat, pos: Position)
    requires LoadInv(mods, doc, base, s) && n < |doc| && n in s.placed && At(doc[n], pos).Some?
    requires KeyAt(mods, doc, n, pos).None? && t == s.(done := s.done + {(n, pos)})
    ensures LoadInv(mods, doc, base, t)
  {
    {
      hide *;
      SkipAllPlaced(mods, doc, base, s, t, n, pos);
      SkipAllDone(mods, doc, base, s, t, n, pos);
      SkipAllPending(mods, doc, base, s, t, n, pos);
    }
    hide Allocated, OnlyRead, FoundIn, ReadDone, FromReference, KeyAt, HasNode;
  }

  lemma SkipAllPlaced(mods: Mods, doc: Doc, base: Heap, s: Load, t: Load, n: nat, pos: Position)
    requires LoadInv(mods, doc, base, s) && t == s.(done := s.done + {(n, pos)})
    ensures forall m | m in t.placed ::
              Allocated(doc, base, t, m) && OnlyRead(mods, doc, t, m) && (m != 0 ==> FoundIn(mods, doc, t, m))
  {
    hide Allocated, OnlyRead, FoundIn, ReadDone, FromReference, Frame, Apart;
    forall m | m in t.placed
      ensures Allocated(doc, base, t, m) && OnlyRead(mods, doc, t, m) && (m != 0 ==> FoundIn(mods, doc, t, m))
    {
      SkipPlaced(mods, doc, base, s, t, n, pos, m);
    }
  }

  lemma SkipAllDone(mods: Mods, doc: Doc, base: Heap, s: Load, t: Load, n: nat, pos: Position)
    requires LoadInv(mods, doc, base, s) && n < |doc| && n in s.placed && At(doc[n], pos).Some?
    requires KeyAt(mods, doc, n, pos).None? && t == s.(done := s.done + {(n, pos)})
    ensures forall m, p | (m, p) in t.done :: ReadDone(mods, doc, t, m, p)
  {
    hide Allocated, OnlyRead, FoundIn, ReadDone, FromReference, Frame, Apart, KeyAt;
    forall m, p | (m, p) in t.done ensures ReadDone(mods, doc, t, m, p) {
      SkipDone(mods, doc, base, s, t, n, pos, m, p);
    }
  }

  lemma SkipAllPending(mods: Mods, doc: Doc, base: Heap, s: Load, t: Load, n: nat, pos: Position)
    requires LoadInv(mods, doc, base, s) && t == s.(done := s.done + {(n, pos)})
    ensures forall path, x | path in t.pending && x in t.pending[path] :: FromReference(mods, doc, t, path, x)
  {
    hide Allocated, OnlyRead, FoundIn, ReadDone, FromReference, Frame, Apart;
    forall path, x | path in t.pending && x in t.pending[path] ensures FromReference(mods, doc, t, path, x) {
      SkipPending(mods, doc, s, t, n, pos, path, x);
    }
  }

  lemma SkipPlaced(mods: Mods, doc: Doc, base: Heap, s: Load, t: Load, n: nat, pos: Position, m: nat)
    requires m in s.placed && t == s.(done := s.done + {(n, pos)})
    requires Allocated(doc, base, s, m) && OnlyRead(mods, doc, s, m) && (m != 0 ==> FoundIn(mods, doc, s, m))
    ensures Allocated(doc, base, t, m) && OnlyRead(mods, doc, t, m) && (m != 0 ==> FoundIn(mods, doc, t, m))
  {
    hide KeyAt, Shape;
  }

  lemma SkipDone(mods: Mods, doc: Doc, base: Heap, s: Load, t: Load, n: nat, pos: Position, m: nat, p: Position)
    requires n < |doc| && n in s.placed && Allocated(doc, base, s, n) && At(doc[n], pos).Some? &&
             KeyAt(mods, doc, n, pos).None?
    requires t == s.(done := s.done + {(n, pos)}) && (m, p) in t.done
    requires (m, p) in s.done ==> ReadDone(mods, doc, s, m, p)
    ensures ReadDone(mods, doc, t, m, p)
  {
    hide KeyAt, Shape, Clean, Scheduled, DecodeValue, HasStored;
  }

  lemma SkipPending(mods: Mods, doc: Doc, s: Load, t: Load, n: nat, pos: Position, path: string, x: (Addr, Key))
    requires t == s.(done := s.done + {(n, pos)}) && FromReference(mods, doc, s, path, x)
    ensures FromReference(mods, doc, t, path, x)
  {
    hide ReferencePath;
    var b: nat, p :| (b, p) in s.done && b < |doc| && b in s.placed && KeyAt(mods, doc, b, p) == Some(x.1)
      && s.placed[b] == x.0 && ReferencePath(At(doc[b], p).value) == Some(path);
    assert (b, p) in t.done;
  }
}
