/** Items, the four container kinds, and the object heap they live in. */
module Collections {
  import opened Wrappers
  import opened Numerals
  import opened FormCodec
  import opened Graph

  type Int32 = i: int | -INT_MAX - 1 <= i <= INT_MAX

  /** ca::key_variant */
  datatype Key = IntKey(index: Int32) | NameKey(name: string) | FormKey(form: FormId)

  /** item::variant; a real is an opaque finite value. */
  datatype Item =
    | Blank | Integer(value: Int32) | Real(bits: int) | Form(form: FormId) | Object(ref: Addr) | Text(text: string)

  datatype Kind = MapKind | FormMapKind | IntMapKind

  /** A map remembers the spelling under which a key was first inserted. */
  datatype Slot = Slot(spelling: Key, item: Item)

  datatype Container = Array(items: seq<Item>) | Tree(kind: Kind, slots: map<Key, Slot>)

  type Heap = map<Addr, Container>

  predicate Accepts(kind: Kind, k: Key)
  {
    match kind
    case MapKind => k.NameKey?
    case FormMapKind => k.FormKey?
    case IntMapKind => k.IntKey?
  }

  /** The representative of the keys a tree's comparer holds equal: map compares names without case. */
  function Norm(k: Key): Key
  {
    if k.NameKey? then NameKey(Lower(k.name)) else k
  }

  ghost predicate WellFormed(c: Container)
  {
    match c
    case Array(items) => |items| <= INT_MAX
    case Tree(kind, slots) =>
      forall k | k in slots :: Norm(slots[k].spelling) == k && Accepts(kind, slots[k].spelling)
  }

  /** u_convertIndex: negative indices count from the end. */
  function ConvertIndex(count: nat, index: int): Option<nat>
  {
    var i := if index >= 0 then index else count + index;
    if 0 <= i < count then Some(i) else None
  }

  /** u_access_value */
  function Get(c: Container, k: Key): Option<Item>
  {
    match c
    case Array(items) =>
      if k.IntKey? && ConvertIndex(|items|, k.index).Some? then Some(items[ConvertIndex(|items|, k.index).value])
        else None
    case Tree(kind, slots) =>
      if Accepts(kind, k) && Norm(k) in slots then Some(slots[Norm(k)].item) else None
  }

  /** u_assign_value: None when the key does not fit the container or the index is out of range. */
  function Put(c: Container, k: Key, v: Item): Option<Container>
  {
    match c
    case Array(items) =>
      if k.IntKey? && ConvertIndex(|items|, k.index).Some?
      then Some(Array(items[ConvertIndex(|items|, k.index).value := v])) else None
    case Tree(kind, slots) =>
      if !Accepts(kind, k) then None
      else
        var spelling := if Norm(k) in slots then slots[Norm(k)].spelling else k;
        Some(Tree(kind, slots[Norm(k) := Slot(spelling, v)]))
  }

  /** Two keys address the same slot of c. */
  predicate SameSlot(c: Container, k: Key, q: Key)
  {
    if c.Array? then k.IntKey? && q.IntKey? && ConvertIndex(|c.items|, k.index) == ConvertIndex(|c.items|, q.index)
    else Norm(k) == Norm(q)
  }

  /** Writing a slot changes what that slot reads, and nothing else. */
  lemma GetPut(c: Container, k: Key, v: Item, q: Key)
    requires Put(c, k, v).Some?
    ensures Get(Put(c, k, v).value, q) == if SameSlot(c, k, q) then Some(v) else Get(c, q)
    ensures WellFormed(c) ==> WellFormed(Put(c, k, v).value)
    ensures SameSlot(Put(c, k, v).value, k, q) == SameSlot(c, k, q)
  {
    if c.Tree? && SameSlot(c, k, q) {
      assert k.NameKey? == q.NameKey? && k.FormKey? == q.FormKey?;
    }
  }

  /** Equal but for the case of ASCII letters. */
  predicate SameLetter(a: char, b: char)
  {
    || a == b
    || ('A' <= a <= 'Z' && b as int == a as int + 32)
    || ('A' <= b <= 'Z' && a as int == b as int + 32)
  }

  predicate SameName(s: string, t: string)
  {
    |s| == |t| && forall i | 0 <= i < |s| :: SameLetter(s[i], t[i])
  }

  /** A string map finds a name under every spelling of it, and under no other name. */
  lemma NamesWithoutCase(c: Container, s: string, v: Item, t: string)
    requires c.Tree? && c.kind == MapKind
    ensures Put(c, NameKey(s), v).Some?
    ensures Get(Put(c, NameKey(s), v).value, NameKey(t)) == if SameName(s, t) then Some(v) else Get(c, NameKey(t))
  {
    LowerIsSame(s, t);
    hide Lower;
  }

  lemma LowerIsSame(s: string, t: string)
    ensures Lower(s) == Lower(t) <==> SameName(s, t)
  {
    var l, m := Lower(s), Lower(t);
    if l == m {
      forall i | 0 <= i < |s| ensures SameLetter(s[i], t[i]) {
        assert l[i] == m[i];
      }
    }
  }

  /** An array is indexed from the front by 0, 1, .. and from the back by -1, -2, ..; nothing else is in range. */
  lemma FromBothEnds(items: seq<Item>, k: Int32, v: Item)
    ensures var i := if k < 0 then |items| + k else k;
            var c := Array(items);
            if 0 <= i < |items|
            then Get(c, IntKey(k)) == Some(items[i]) && Put(c, IntKey(k), v) == Some(Array(items[i := v]))
            else Get(c, IntKey(k)).None? && Put(c, IntKey(k), v).None?
  {
  }

  /** Arrays and integer maps take integer keys only, string maps names, and form maps forms; maps take all of those. */
  lemma KeysFit(c: Container, k: Key, v: Item)
    ensures var fits := if c.Array? || c.kind == IntMapKind then k.IntKey?
                        else if c.kind == MapKind then k.NameKey? else k.FormKey?;
            if !fits then Get(c, k).None? && Put(c, k, v).None? else c.Tree? ==> Put(c, k, v).Some?
  {
  }

  /** A key keeps the spelling under which it was first inserted. */
  lemma SpellingStays(c: Container, k: Key, v: Item)
    requires c.Tree? && Put(c, k, v).Some?
    ensures var slots := Put(c, k, v).value.slots;
            && Norm(k) in slots && slots.Keys == c.slots.Keys + {Norm(k)}
            && slots[Norm(k)] == Slot(if Norm(k) in c.slots then c.slots[Norm(k)].spelling else k, v)
  {
  }

  function Refs(c: Container): set<Addr>
  {
    match c
    case Array(items) => set i | 0 <= i < |items| && items[i].Object? :: items[i].ref
    case Tree(_, slots) => set k | k in slots && slots[k].item.Object? :: slots[k].item.ref
  }

  /** The keys of the slots of c that hold a. */
  function SlotsWith(c: Container, a: Addr): set<Key>
  {
    match c
    case Array(items) => set i | 0 <= i < |items| && i <= INT_MAX && items[i] == Object(a) :: IntKey(i)
    case Tree(_, slots) => set k | k in slots && slots[k].item == Object(a)
  }

  /** The slots that hold a; their number is its reference count. */
  function Holders(heap: Heap, a: Addr): set<(Addr, Key)>
  {
    set b, k | b in heap && k in SlotsWith(heap[b], a) :: (b, k)
  }

  function EdgesOf(heap: Heap): Edges
  {
    map a | a in heap :: Refs(heap[a])
  }

  /** No slot refers to an object that is not there. */
  ghost predicate HeapClosed(heap: Heap)
  {
    forall a | a in heap :: WellFormed(heap[a]) && Refs(heap[a]) <= heap.Keys
  }

  // ------------------------------------------------------------------ isomorphism

  function RenameItem(phi: map<Addr, Addr>, i: Item): Item
  {
    if i.Object? && i.ref in phi then Object(phi[i.ref]) else i
  }

  function Rename(phi: map<Addr, Addr>, c: Container): Container
  {
    match c
    case Array(items) => Array(seq(|items|, i requires 0 <= i < |items| => RenameItem(phi, items[i])))
    case Tree(kind, slots) => Tree(kind, map k | k in slots :: slots[k].(item := RenameItem(phi, slots[k].item)))
  }

  ghost predicate Injective(phi: map<Addr, Addr>)
  {
    forall a, b | a in phi && b in phi && phi[a] == phi[b] :: a == b
  }

  /** phi maps the objects reachable from root in g one-to-one onto objects of h, keeping container
      kinds, keys with their spelling, scalars, and which slots share an object. */
  ghost predicate Isomorphic(g: Heap, root: Addr, h: Heap, copy: Addr, phi: map<Addr, Addr>)
  {
    && ReachSet(EdgesOf(g), {root}, phi.Keys)
    && phi.Keys <= g.Keys
    && Injective(phi)
    && phi[root] == copy
    && forall a | a in phi :: phi[a] in h && h[phi[a]] == Rename(phi, g[a])
  }

  /** The objects an isomorphism is about are those at the end of some path from the root. */
  lemma IsomorphicOnPaths(g: Heap, root: Addr, h: Heap, copy: Addr, phi: map<Addr, Addr>)
    requires Isomorphic(g, root, h, copy, phi)
    ensures forall a :: a in phi <==> HasPath(EdgesOf(g), {root}, a)
  {
    hide EdgesOf, HasPath, ReachSet;
    ReachSetIsPaths(EdgesOf(g), {root}, phi.Keys);
  }

  /** Under a key the image has the same scalar, or the image of the same object. Containers stay of their kind and
      size, and keys keep their spelling. */
  lemma IsomorphicReads(g: Heap, root: Addr, h: Heap, copy: Addr, phi: map<Addr, Addr>, a: Addr, k: Key)
    requires Isomorphic(g, root, h, copy, phi) && a in phi
    ensures a in g && phi[a] in h
    ensures var c, d := g[a], h[phi[a]];
            && c.Array? == d.Array? && (c.Array? ==> |c.items| == |d.items|)
            && (c.Tree? ==> c.kind == d.kind && c.slots.Keys == d.slots.Keys)
            && (c.Tree? ==> forall q | q in c.slots :: c.slots[q].spelling == d.slots[q].spelling)
    ensures Get(g[a], k).None? ==> Get(h[phi[a]], k).None?
    ensures Get(g[a], k).Some? ==>
              var item := Get(g[a], k).value;
              if item.Object? then item.ref in phi && Get(h[phi[a]], k) == Some(Object(phi[item.ref]))
              else Get(h[phi[a]], k) == Some(item)
  {
    var found := Get(g[a], k);
    if found.Some? && found.value.Object? {
      assert found.value.ref in Refs(g[a]);
      assert a in EdgesOf(g);
    }
  }
}
