/** json_deserializer: containers are allocated first and filled breadth first, references last. */
module JsonDeserializer {
  import opened Wrappers
  import opened Numerals
  import opened Sequences
  import opened FormCodec
  import opened Graph
  import opened Collections
  import opened JsonDocument
  import opened JsonEncoding
  import opened JsonDecoding
  import opened JsonResolution

  ghost predicate Unread(doc: Doc, s: Load, n: nat)
  {
    && n < |doc| && n in s.placed && s.placed[n] in s.heap && Shape(doc, n) == Some(s.heap[s.placed[n]])
    && forall pos :: (n, pos) !in s.done
  }

  ghost predicate Complete(doc: Doc, s: Load, n: nat)
  {
    n < |doc| && forall pos | At(doc[n], pos).Some? :: (n, pos) in s.done
  }

  /** Exactly the nodes of ps and of current are not completely read, and those of ps are unread. */
  ghost predicate WorkLeft(doc: Doc, s: Load, ps: seq<(Addr, nat)>, current: set<nat>)
  {
    && (forall i | 0 <= i < |ps| ::
          ps[i].1 !in current && Unread(doc, s, ps[i].1) && s.placed[ps[i].1] == ps[i].0)
    && (forall i, j | 0 <= i < j < |ps| :: ps[i].1 != ps[j].1)
    && (forall n | n in s.placed && n !in current && (forall i | 0 <= i < |ps| :: ps[i].1 != n) :: Complete(doc, s, n))
  }

  /** Every node with an object has been read to the end. */
  ghost predicate Loaded(mods: Mods, doc: Doc, base: Heap, s: Load)
  {
    LoadInv(mods, doc, base, s) && 0 in s.placed && forall n | n in s.placed :: Complete(doc, s, n)
  }

  ghost function NewWork(doc: Doc, s: Load, v: Value): seq<(Addr, nat)>
  {
    if v.JNode? && v.id < |doc| && Shape(doc, v.id).Some? then [(s.next, v.id)] else []
  }

  lemma WorkStep(mods: Mods, doc: Doc, s: Load, t: Load, ps: seq<(Addr, nat)>, n: nat, pos: Position, k: Key, v: Value)
    requires WorkLeft(doc, s, ps, {n}) && LoadStepped(mods, doc, s, t, n, pos, k, v) && Apart(s)
    requires forall m, p | (m, p) in s.done :: m in s.placed
    requires v.JNode? ==> v.id !in s.placed
    ensures WorkLeft(doc, t, ps + NewWork(doc, s, v), {n})
  {
    var added := NewWork(doc, s, v);
    hide DecodeValue, Schedule, Store, Shape;
    forall i | 0 <= i < |ps| ensures Unread(doc, t, ps[i].1) && t.placed[ps[i].1] == ps[i].0 {
      assert Unread(doc, s, ps[i].1);
      assert s.placed[ps[i].1] != s.placed[n];
    }
    forall m | m in t.placed && m !in {n} && (forall i | 0 <= i < |ps + added| :: (ps + added)[i].1 != m)
      ensures Complete(doc, t, m)
    {
      forall i | 0 <= i < |ps| ensures ps[i].1 != m {
        assert (ps + added)[i].1 != m;
      }
      assert added != [] ==> (ps + added)[|ps|] == added[0];
      assert Complete(doc, s, m);
    }
  }

  lemma SkipWork(doc: Doc, s: Load, t: Load, ps: seq<(Addr, nat)>, n: nat, pos: Position)
    requires WorkLeft(doc, s, ps, {n}) && t == s.(done := s.done + {(n, pos)})
    ensures WorkLeft(doc, t, ps, {n})
  {
    forall i | 0 <= i < |ps| ensures Unread(doc, t, ps[i].1) {
      assert Unread(doc, s, ps[i].1);
    }
    forall m | m in t.placed && m !in {n} && (forall i | 0 <= i < |ps| :: ps[i].1 != m) ensures Complete(doc, t, m) {
      assert Complete(doc, s, m);
    }
  }

  lemma TakeFirst(doc: Doc, s: Load, ps: seq<(Addr, nat)>)
    requires ps != [] && WorkLeft(doc, s, ps, {})
    ensures WorkLeft(doc, s, ps[1..], {ps[0].1}) && Unread(doc, s, ps[0].1) && s.placed[ps[0].1] == ps[0].0
  {
    var n, tail := ps[0].1, ps[1..];
    forall m | m in s.placed && m !in {n} && (forall i | 0 <= i < |tail| :: tail[i].1 != m)
      ensures Complete(doc, s, m)
    {
      forall i | 0 <= i < |ps| ensures ps[i].1 != m {
        if i > 0 {
          assert tail[i - 1].1 != m;
        }
      }
    }
  }

  lemma Finish(doc: Doc, s: Load, ps: seq<(Addr, nat)>, n: nat)
    requires WorkLeft(doc, s, ps, {n}) && Complete(doc, s, n)
    ensures WorkLeft(doc, s, ps, {})
  {
  }

  lemma DoneIsPlaced(mods: Mods, doc: Doc, base: Heap, s: Load, n: nat, pos: Position)
    requires LoadInv(mods, doc, base, s)
    ensures Apart(s) && Frame(base, s)
    ensures forall m, p | (m, p) in s.done :: m in s.placed
    ensures n in s.placed ==> && n < |doc| && s.placed[n] in s.heap && Shape(doc, n).Some?
                              && s.heap[s.placed[n]].Array? == Shape(doc, n).value.Array?
                              && (s.heap[s.placed[n]].Tree? ==> s.heap[s.placed[n]].kind == Shape(doc, n).value.kind)
  {
    forall m, p | (m, p) in s.done ensures m in s.placed {
      assert ReadDone(mods, doc, s, m, p);
    }
    assert n in s.placed ==> Allocated(doc, base, s, n);
  }

  /** What reading one position does to the load and to the work list. */
  lemma Advance(mods: Mods, doc: Doc, base: Heap, owner: map<nat, (nat, Position)>, s: Load,
                n: nat, pos: Position, k: Key, v: Value, ps: seq<(Addr, nat)>)
    requires LoadInv(mods, doc, base, s) && Readable(mods, doc, owner, s, n, pos, k, v) && WorkLeft(doc, s, ps, {n})
    ensures
      var t := Read(mods, doc, s, n, pos);
      && LoadInv(mods, doc, base, t) && WorkLeft(doc, t, ps + NewWork(doc, s, v), {n})
      && n in t.placed && t.placed[n] == s.placed[n] && t.done == s.done + {(n, pos)}
      && s.placed[n] in t.heap && t.heap[s.placed[n]] == Store(s.heap[s.placed[n]], k, DecodeValue(mods, t.placed, v))
      && s.placed.Keys <= t.placed.Keys && (t.placed.Keys == s.placed.Keys ==> NewWork(doc, s, v) == [])
  {
    var t := Read(mods, doc, s, n, pos);
    hide WorkLeft, Readable;
    ReadKeepsInv(mods, doc, base, owner, s, n, pos, k, v);
    DoneIsPlaced(mods, doc, base, s, n, pos);
    if v.JNode? {
      Unfold(mods, doc, owner, s, n, pos, k, v);
      ChildIsNew(mods, doc, owner, s, n, pos, v.id);
    }
    hide LoadInv, Read, FoundIn;
    WorkStep(mods, doc, s, t, ps, n, pos, k, v);
    hide Store, DecodeValue, Schedule;
  }

  lemma Unfold(mods: Mods, doc: Doc, owner: map<nat, (nat, Position)>, s: Load, n: nat, pos: Position, k: Key, v: Value)
    requires Readable(mods, doc, owner, s, n, pos, k, v)
    ensures OwnedBy(doc, owner) && n < |doc| && At(doc[n], pos) == Some(v) && (n, pos) !in s.done
  {
  }

  /** The node ids below k. */
  ghost function Ids(k: nat): (r: set<nat>)
    ensures forall i :: i in r <==> 0 <= i < k
  {
    if k == 0 then {} else Ids(k - 1) + {k - 1}
  }

  lemma PlacedInDoc(mods: Mods, doc: Doc, base: Heap, s: Load)
    requires LoadInv(mods, doc, base, s)
    ensures s.placed.Keys <= Ids(|doc|)
  {
    assert forall n | n in s.placed :: Allocated(doc, base, s, n);
  }

  lemma NothingLeft(mods: Mods, doc: Doc, base: Heap, s: Load)
    requires LoadInv(mods, doc, base, s) && WorkLeft(doc, s, [], {}) && 0 in s.placed
    ensures Loaded(mods, doc, base, s)
  {
  }

  ghost function StartLoad(base: Heap, next: Addr, shape: Container): Load
  {
    Load(base[next := shape], next + 1, map[0 := next], {}, map[])
  }

  lemma StartLoadInv(mods: Mods, doc: Doc, base: Heap, next: Addr, shape: Container)
    requires |doc| > 0 && Shape(doc, 0) == Some(shape) && forall a | a in base :: a < next
    ensures LoadInv(mods, doc, base, StartLoad(base, next, shape))
    ensures WorkLeft(doc, StartLoad(base, next, shape), [(next, 0)], {})
  {
    var ps := [(next, 0)];
    assert ps[0].1 == 0 && Unread(doc, StartLoad(base, next, shape), 0);
  }

  // ------------------------------------------------------------------ progress inside one node

  /** The elements of node n before index are read, those from index on are not. */
  ghost predicate ElementsRead(doc: Doc, s: Load, a: Addr, n: nat, index: nat)
  {
    && n < |doc| && doc[n].JArray? && n in s.placed && s.placed[n] == a && a in s.heap
    && Shape(doc, n) == Some(Array([])) && s.heap[a].Array? && |s.heap[a].items| == index <= |doc[n].elems|
    && (forall i: nat | i < index :: (n, Element(i)) in s.done)
    && (forall p | (n, p) in s.done :: p.Element? && p.index < index)
  }

  /** The members of node n outside todo are read, those in todo are not. */
  ghost predicate MembersRead(doc: Doc, s: Load, a: Addr, n: nat, todo: set<string>)
  {
    && n < |doc| && doc[n].JObject? && n in s.placed && s.placed[n] == a && a in s.heap
    && Shape(doc, n).Some? && Shape(doc, n).value.Tree? && s.heap[a].Tree? && s.heap[a].kind == Shape(doc, n).value.kind
    && todo <= doc[n].members.Keys
    && (forall name | name in doc[n].members && name !in todo :: (n, Member(name)) in s.done)
    && (forall p | (n, p) in s.done :: p.Member? && p.name !in todo)
  }

  lemma NoElementRead(doc: Doc, s: Load, n: nat)
    requires Unread(doc, s, n) && doc[n].JArray?
    ensures ElementsRead(doc, s, s.placed[n], n, 0)
  {
  }

  lemma NoMemberRead(doc: Doc, s: Load, n: nat)
    requires Unread(doc, s, n) && doc[n].JObject?
    ensures MembersRead(doc, s, s.placed[n], n, doc[n].members.Keys)
  {
  }

  lemma ElementReadable(mods: Mods, doc: Doc, owner: map<nat, (nat, Position)>, s: Load, a: Addr, n: nat, index: nat)
    requires OwnedBy(doc, owner) && ElementsRead(doc, s, a, n, index) && index < |doc[n].elems| <= INT_MAX
    ensures Readable(mods, doc, owner, s, n, Element(index), IntKey(index), doc[n].elems[index])
  {
  }

  lemma MemberReadable(mods: Mods, doc: Doc, owner: map<nat, (nat, Position)>, s: Load, a: Addr, n: nat,
                       todo: set<string>, name: string, k: Key)
    requires OwnedBy(doc, owner) && MembersRead(doc, s, a, n, todo) && name in todo
    requires !IsMetaName(name) && KeyOf(mods, s.heap[a].kind, name) == Some(k)
    ensures Readable(mods, doc, owner, s, n, Member(name), k, doc[n].members[name])
  {
  }

  lemma ElementRead(doc: Doc, s: Load, t: Load, a: Addr, n: nat, index: nat)
    requires ElementsRead(doc, s, a, n, index) && index < |doc[n].elems|
    requires n in t.placed && t.placed[n] == a && a in t.heap && t.done == s.done + {(n, Element(index))}
    requires t.heap[a].Array? && |t.heap[a].items| == index + 1
    ensures ElementsRead(doc, t, a, n, index + 1)
  {
  }

  lemma MemberRead(doc: Doc, s: Load, t: Load, a: Addr, n: nat, todo: set<string>, name: string)
    requires MembersRead(doc, s, a, n, todo) && name in todo
    requires n in t.placed && t.placed[n] == a && a in t.heap && t.done == s.done + {(n, Member(name))}
    requires t.heap[a].Tree? && t.heap[a].kind == s.heap[a].kind
    ensures MembersRead(doc, t, a, n, todo - {name})
  {
  }

  lemma AllElementsRead(doc: Doc, s: Load, a: Addr, n: nat)
    requires n < |doc| && doc[n].JArray? && ElementsRead(doc, s, a, n, |doc[n].elems|)
    ensures Complete(doc, s, n)
  {
  }

  lemma AllMembersRead(doc: Doc, s: Load, a: Addr, n: nat)
    requires n < |doc| && doc[n].JObject? && MembersRead(doc, s, a, n, {})
    ensures Complete(doc, s, n)
  {
  }

  // ------------------------------------------------------------------ the deserializer

  class Deserializer {
    const mods: Mods
    const doc: Doc
    ghost const base: Heap
    ghost const owner: map<nat, (nat, Position)>

    var heap: Heap
    var next: Addr
    var toFill: seq<(Addr, nat)>
    var toResolve: map<string, seq<(Addr, Key)>>

    ghost var load: Load

    constructor (mods: Mods, doc: Doc, heap: Heap, next: Addr, ghost owner: map<nat, (nat, Position)>)
      requires OwnedBy(doc, owner) && Fits(doc) && forall a | a in heap :: a < next
      ensures this.mods == mods && this.doc == doc && base == heap && this.owner == owner
      ensures this.heap == heap && this.next == next && toFill == [] && toResolve == map[]
      ensures load.placed == map[] && load.heap == heap && load.next == next
    {
      this.mods, this.doc, this.base, this.owner := mods, doc, heap, owner;
      this.heap, this.next, toFill, toResolve := heap, next, [], map[];
      load := Load(heap, next, map[], {}, map[]);
    }

    ghost predicate Valid()
      reads this
    {
      && heap == load.heap && next == load.next && toResolve == load.pending
      && LoadInv(mods, doc, base, load) && OwnedBy(doc, owner) && Fits(doc)
    }

    method MakePlaceholder(n: nat) returns (obj: Option<Addr>)
      requires n < |doc|
      modifies this`heap, this`next, this`toFill
      ensures match Shape(doc, n)
              case None => obj == None && heap == old(heap) && next == old(next) && toFill == old(toFill)
              case Some(shape) =>
                && obj == Some(old(next)) && heap == old(heap)[old(next) := shape] && next == old(next) + 1
                && toFill == old(toFill) + [(old(next), n)]
    {
      match Shape(doc, n)
      case None => obj := None;
      case Some(shape) =>
        obj := Some(next);
        heap := heap[next := shape];
        toFill := toFill + [(next, n)];
        next := next + 1;
    }

    method MakeItem(v: Value, container: Addr, key: Key) returns (item: Item)
      requires heap == load.heap && next == load.next
      requires v.JNode? ==> v.id < |doc| && v.id !in load.placed
      modifies this`heap, this`next, this`toFill, this`toResolve
      ensures var t := Adopt(doc, load, v);
              heap == t.heap && next == t.next && item == DecodeValue(mods, t.placed, v)
      ensures toFill == old(toFill) + NewWork(doc, load, v)
      ensures toResolve == Schedule(old(toResolve), v, (container, key))
    {
      match v
      case JNode(n) =>
        var obj := MakePlaceholder(n);
        item := if obj.Some? then Object(obj.value) else Blank;
      case JString(s) =>
        if !StartsWith(s, "__") {
          MarksAreSpecial(s);
          item := Text(s);
        } else if IsFormString(s) {
          var form := StringToForm(mods, s);
          item := Form(if form.Some? then form.value else 0);
        } else if StartsWith(s, REFERENCE) {
          var path := s[|REFERENCE|..];
          toResolve := toResolve[path := (if path in toResolve then toResolve[path] else []) + [(container, key)]];
          item := Blank;
        } else {
          item := Text(s);
        }
      case JInteger(i) => item := Integer(ToInt32(i));
      case JReal(bits) => item := Real(bits);
      case JNull => item := Blank;
    }

    /** make_item for one position, and the result put in the container. */
    method ReadPosition(a: Addr, ghost n: nat, ghost pos: Position, k: Key, v: Value, ghost rest: seq<(Addr, nat)>)
      requires Valid() && Readable(mods, doc, owner, load, n, pos, k, v)
      requires n in load.placed && load.placed[n] == a && a in heap
      requires WorkLeft(doc, load, rest + toFill, {n})
      modifies this
      ensures Valid() && WorkLeft(doc, load, rest + toFill, {n})
      ensures n in load.placed && load.placed[n] == a && a in heap && load.done == old(load.done) + {(n, pos)}
      ensures Grown(old(heap)[a], heap[a]) && Progressed(old(load.placed), load.placed, old(toFill), toFill)
    {
      hide LoadInv, WorkLeft, OwnedBy, Fits, Readable, Shape, DecodeValue, Schedule, Adopt, Store, NewWork, Grown,
        Progressed;
      ghost var t := ReadWork(mods, doc, base, owner, load, n, pos, k, v, rest, toFill);
      var item := MakeItem(v, a, k);
      heap := heap[a := Store(heap[a], k, item)];
      load := t;
    }

    ghost method Skip(n: nat, pos: Position, rest: seq<(Addr, nat)>)
      requires Valid() && WorkLeft(doc, load, rest + toFill, {n}) && n < |doc| && n in load.placed
      requires At(doc[n], pos).Some? && KeyAt(mods, doc, n, pos).None?
      modifies this`load
      ensures Valid() && WorkLeft(doc, load, rest + toFill, {n})
      ensures load == old(load).(done := old(load).done + {(n, pos)})
    {
      hide LoadInv, WorkLeft, OwnedBy, Fits, KeyAt;
      ghost var t := load.(done := load.done + {(n, pos)});
      SkipStep(mods, doc, base, load, t, n, pos, rest + toFill);
      load := t;
    }

    method FillArray(a: Addr, n: nat, ghost rest: seq<(Addr, nat)>)
      requires Valid() && n < |doc| && doc[n].JArray? && Unread(doc, load, n) && load.placed[n] == a
      requires WorkLeft(doc, load, rest + toFill, {n})
      modifies this
      ensures Valid() && WorkLeft(doc, load, rest + toFill, {}) &&
              Progressed(old(load.placed), load.placed, old(toFill), toFill)
    {
      hide *;
      NoElementRead(doc, load, n);
      NoProgress(load.placed, toFill);
      var elems := doc[n].elems;
      for index := 0 to |elems|
        invariant Valid() && WorkLeft(doc, load, rest + toFill, {n}) && ElementsRead(doc, load, a, n, index)
        invariant Progressed(old(load.placed), load.placed, old(toFill), toFill)
      {
        ghost var was, work := load.placed, toFill;
        FillElement(a, n, index, rest);
        ProgressedOn(old(load.placed), was, load.placed, old(toFill), work, toFill);
      }
      AllElementsRead(doc, load, a, n);
      Finish(doc, load, rest + toFill, n);
    }

    method FillElement(a: Addr, n: nat, index: nat, ghost rest: seq<(Addr, nat)>)
      requires Valid() && WorkLeft(doc, load, rest + toFill, {n}) && ElementsRead(doc, load, a, n, index)
      requires n < |doc| && doc[n].JArray? && index < |doc[n].elems|
      modifies this
      ensures Valid() && WorkLeft(doc, load, rest + toFill, {n}) && ElementsRead(doc, load, a, n, index + 1)
      ensures Progressed(old(load.placed), load.placed, old(toFill), toFill)
    {
      hide LoadInv, WorkLeft, OwnedBy;
      ElementReadable(mods, doc, owner, load, a, n, index);
      ghost var s := load;
      hide Readable;
      ReadPosition(a, n, Element(index), IntKey(index), doc[n].elems[index], rest);
      ElementRead(doc, s, load, a, n, index);
    }

    method FillMembers(a: Addr, n: nat, ghost rest: seq<(Addr, nat)>)
      requires Valid() && n < |doc| && doc[n].JObject? && Unread(doc, load, n) && load.placed[n] == a
      requires WorkLeft(doc, load, rest + toFill, {n})
      modifies this
      ensures Valid() && WorkLeft(doc, load, rest + toFill, {}) &&
              Progressed(old(load.placed), load.placed, old(toFill), toFill)
    {
      hide *;
      NoMemberRead(doc, load, n);
      NoProgress(load.placed, toFill);
      var todo := doc[n].members.Keys;
      while todo != {}
        invariant todo <= doc[n].members.Keys
        invariant Valid() && WorkLeft(doc, load, rest + toFill, {n}) && MembersRead(doc, load, a, n, todo)
        invariant Progressed(old(load.placed), load.placed, old(toFill), toFill)
      {
        var name :| name in todo;
        ghost var was, work := load.placed, toFill;
        FillMember(a, n, name, todo, rest);
        ProgressedOn(old(load.placed), was, load.placed, old(toFill), work, toFill);
        todo := todo - {name};
      }
      AllMembersRead(doc, load, a, n);
      Finish(doc, load, rest + toFill, n);
    }

    /** One turn of json_object_foreach; type information and names that do not decode are passed over. */
    method FillMember(a: Addr, n: nat, name: string, ghost todo: set<string>, ghost rest: seq<(Addr, nat)>)
      requires Valid() && WorkLeft(doc, load, rest + toFill, {n}) && MembersRead(doc, load, a, n, todo)
      requires n < |doc| && doc[n].JObject? && name in doc[n].members && name in todo
      modifies this
      ensures Valid() && WorkLeft(doc, load, rest + toFill, {n}) && MembersRead(doc, load, a, n, todo - {name})
      ensures Progressed(old(load.placed), load.placed, old(toFill), toFill)
    {
      hide LoadInv, WorkLeft, OwnedBy, Shape;
      ghost var s := load;
      var key := if IsMetaName(name) then None else KeyOf(mods, heap[a].kind, name);
      if key.Some? {
        MemberReadable(mods, doc, owner, load, a, n, todo, name, key.value);
        hide Readable, KeyOf;
        ReadPosition(a, n, Member(name), key.value, doc[n].members[name], rest);
      } else {
        Skip(n, Member(name), rest);
      }
      hide KeyOf, KeyAt;
      MemberRead(doc, s, load, a, n, todo, name);
    }

    method FillObject(a: Addr, n: nat, ghost rest: seq<(Addr, nat)>)
      requires Valid() && Unread(doc, load, n) && load.placed[n] == a && WorkLeft(doc, load, rest + toFill, {n})
      modifies this
      ensures Valid() && WorkLeft(doc, load, rest + toFill, {}) &&
              Progressed(old(load.placed), load.placed, old(toFill), toFill)
    {
      assert n < |doc|;
      hide *;
      if doc[n].JArray? {
        FillArray(a, n, rest);
      } else {
        FillMembers(a, n, rest);
      }
    }

    method FillBatch(batch: seq<(Addr, nat)>)
      requires Valid() && toFill == [] && WorkLeft(doc, load, batch, {})
      modifies this
      ensures Valid() && WorkLeft(doc, load, toFill, {}) && Progressed(old(load.placed), load.placed, [], toFill)
    {
      hide *;
      NoProgress(load.placed, toFill);
      BatchStart(batch);
      for i := 0 to |batch|
        invariant Valid() && WorkLeft(doc, load, batch[i..] + toFill, {})
        invariant Progressed(old(load.placed), load.placed, [], toFill)
      {
        var (a, n) := batch[i];
        ghost var was, work := load.placed, toFill;
        BatchNext(batch, i, toFill);
        TakeFirst(doc, load, batch[i..] + toFill);
        FillObject(a, n, batch[i + 1..]);
        ProgressedOn(old(load.placed), was, load.placed, [], work, toFill);
      }
      BatchEnd(batch, toFill);
    }

    /** Allocates and fills all containers; None when the root node's type name is not known. */
    method Fill() returns (root: Option<Addr>)
      requires OwnedBy(doc, owner) && Fits(doc) && doc != [] && heap == base && toFill == [] && toResolve == map[]
      requires forall a | a in base :: a < next
      modifies this
      ensures root.None? <==> Shape(doc, 0).None?
      ensures root.None? ==> heap == base
      ensures root.Some? ==> Valid() && Loaded(mods, doc, base, load) && load.placed[0] == root.value
    {
      hide LoadInv, WorkLeft, OwnedBy, Fits, Shape, Progressed, Loaded;
      root := MakePlaceholder(0);
      if root.None? {
        return;
      }
      StartLoadInv(mods, doc, base, old(next), Shape(doc, 0).value);
      load := StartLoad(base, old(next), Shape(doc, 0).value);
      assert toFill == [(old(next), 0)];
      while toFill != []
        invariant Valid() && WorkLeft(doc, load, toFill, {})
        invariant 0 in load.placed && root == Some(load.placed[0])
        decreases Ids(|doc|) - load.placed.Keys, |toFill|
      {
        ghost var was := load.placed;
        var batch := toFill;
        toFill := [];
        FillBatch(batch);
        PlacedInDoc(mods, doc, base, load);
        UnfoldProgress(was, load.placed, [], toFill);
        LessIsLeft(Ids(|doc|), was.Keys, load.placed.Keys);
      }
      NothingLeft(mods, doc, base, load);
    }

    /** _object_from_json; None when there is no JSON or its root has no known type. */
    method ObjectFromJson() returns (root: Option<Addr>)
      requires OwnedBy(doc, owner) && Fits(doc) && heap == base && toFill == [] && toResolve == map[]
      requires SmallArrays(base) && forall a | a in base :: a < next
      modifies this
      ensures root.None? <==> doc == [] || Shape(doc, 0).None?
      ensures forall a | a in base :: a in heap && heap[a] == base[a]
      ensures root.Some? ==>
                && Loaded(mods, doc, base, load) && load.placed[0] == root.value
                && (Tidy(load.heap, load.pending) ==>
                      Resolving(mods, load.heap, heap, load.pending, root.value, load.pending.Keys))
    {
      hide LoadInv, OwnedBy, Fits, Shape, SmallArrays, Tidy, Resolving, Listed;
      if doc == [] {
        return None;
      }
      root := Fill();
      if root.Some? {
        LoadedSmall(mods, doc, base, load);
        ListedIsNew(mods, doc, base, load);
        ResolveReferences(root.value);
      }
    }

    method AssignSlots(slots: seq<(Addr, Key)>, b: Addr)
      modifies this`heap
      ensures heap == AssignAll(old(heap), slots, b)
    {
      for i := 0 to |slots|
        invariant heap == AssignAll(old(heap), slots[..i], b)
      {
        assert slots[..i + 1][..i] == slots[..i];
        var (a, key) := slots[i];
        if a in heap {
          var written := Put(heap[a], key, Object(b));
          if written.Some? {
            heap := heap[a := written.value];
          }
        }
      }
      assert slots[..|slots|] == slots;
    }

    /** Paths are taken in any order. What a path leads to is looked up in the heap as it is by then. */
    method ResolveReferences(root: Addr)
      modifies this`heap
      ensures Tidy(old(heap), toResolve) && SmallArrays(old(heap)) ==>
                Resolving(mods, old(heap), heap, toResolve, root, toResolve.Keys)
      ensures forall a | a in old(heap) && !Listed(toResolve, a) :: a in heap && heap[a] == old(heap)[a]
    {
      NothingResolved(mods, heap, toResolve, root);
      hide Resolving, Tidy, SmallArrays, Listed;
      var todo := toResolve.Keys;
      assert toResolve.Keys - todo == {};
      while todo != {}
        invariant todo <= toResolve.Keys
        invariant Tidy(old(heap), toResolve) && SmallArrays(old(heap)) ==>
                    Resolving(mods, old(heap), heap, toResolve, root, toResolve.Keys - todo)
        invariant forall a | a in old(heap) && !Listed(toResolve, a) :: a in heap && heap[a] == old(heap)[a]
      {
        var path :| path in todo;
        ghost var now := heap;
        ResolveFrame(mods, now, toResolve, root, path);
        if Tidy(old(heap), toResolve) && SmallArrays(old(heap)) {
          ResolveStep(mods, old(heap), now, toResolve, root, toResolve.Keys - todo, path);
        }
        var resolved := Target(mods, heap, root, path);
        if resolved.Some? {
          AssignSlots(toResolve[path], resolved.value);
        }
        assert heap == ResolvePath(mods, now, toResolve, root, path);
        assert toResolve.Keys - (todo - {path}) == toResolve.Keys - todo + {path};
        todo := todo - {path};
      }
      assert toResolve.Keys - todo == toResolve.Keys;
    }
  }

  lemma NoProgress(placed: map<nat, Addr>, work: seq<(Addr, nat)>)
    ensures Progressed(placed, placed, work, work)
  {
  }

  /** After a load the arrays are as small as those of the JSON and of the heap it started with. */
  lemma LoadedSmall(mods: Mods, doc: Doc, base: Heap, s: Load)
    requires LoadInv(mods, doc, base, s) && Fits(doc) && SmallArrays(base)
    ensures SmallArrays(s.heap)
  {
    forall a | a in s.heap && s.heap[a].Array? && a !in base ensures |s.heap[a].items| <= INT_MAX {
      hide ReadDone, FromReference, OnlyRead, Allocated, FoundIn, Shape, Fits;
      var n :| n in s.placed && s.placed[n] == a;
      NodeSmall(mods, doc, base, s, n);
    }
  }

  lemma NodeSmall(mods: Mods, doc: Doc, base: Heap, s: Load, n: nat)
    requires n in s.placed && Allocated(doc, base, s, n) && OnlyRead(mods, doc, s, n) && Fits(doc)
    requires forall pos | (n, pos) in s.done :: ReadDone(mods, doc, s, n, pos)
    ensures s.heap[s.placed[n]].Array? ==> |s.heap[s.placed[n]].items| <= INT_MAX
  {
    var c := s.heap[s.placed[n]];
    if c.Array? && c.items != [] {
      var q := IntKey(if |c.items| <= INT_MAX then |c.items| - 1 else INT_MAX);
      assert HasSlot(c, q);
      var pos :| (n, pos) in s.done && KeyAt(mods, doc, n, pos).Some? && Norm(KeyAt(mods, doc, n, pos).value) == q;
      assert ReadDone(mods, doc, s, n, pos);
      hide ReadDone, OnlyRead, Allocated;
    }
  }

  /** The slots waiting for a reference are in new objects. */
  lemma ListedIsNew(mods: Mods, doc: Doc, base: Heap, s: Load)
    requires LoadInv(mods, doc, base, s)
    ensures forall a | a in base :: a in s.heap && s.heap[a] == base[a] && !Listed(s.pending, a)
  {
    forall a | a in base ensures !Listed(s.pending, a) {
      forall path, x | path in s.pending && x in s.pending[path] ensures x.0 != a {
        assert FromReference(mods, doc, s, path, x);
        var n: nat :| n in s.placed && s.placed[n] == x.0;
        assert Allocated(doc, base, s, n);
      }
    }
  }

  lemma BatchStart<T>(batch: seq<T>)
    ensures batch[0..] + [] == batch
  {
  }

  lemma BatchNext<T>(batch: seq<T>, i: nat, work: seq<T>)
    requires i < |batch|
    ensures (batch[i..] + work)[0] == batch[i] && (batch[i..] + work)[1..] == batch[i + 1..] + work
  {
  }

  lemma BatchEnd<T>(batch: seq<T>, work: seq<T>)
    ensures batch[|batch|..] + work == work
  {
  }

  lemma UnfoldProgress(before: map<nat, Addr>, after: map<nat, Addr>, work: seq<(Addr, nat)>, left: seq<(Addr, nat)>)
    requires Progressed(before, after, work, left)
    ensures before.Keys <= after.Keys && (after.Keys == before.Keys ==> left == work)
    ensures 0 in before ==> 0 in after && after[0] == before[0]
  {
  }

  lemma SkipStep(mods: Mods, doc: Doc, base: Heap, s: Load, t: Load, n: nat, pos: Position, ps: seq<(Addr, nat)>)
    requires LoadInv(mods, doc, base, s) && n < |doc| && n in s.placed && At(doc[n], pos).Some?
    requires KeyAt(mods, doc, n, pos).None? && t == s.(done := s.done + {(n, pos)}) && WorkLeft(doc, s, ps, {n})
    ensures LoadInv(mods, doc, base, t) && WorkLeft(doc, t, ps, {n})
  {
    hide LoadInv, WorkLeft, KeyAt;
    SkipKeepsInv(mods, doc, base, s, t, n, pos);
    SkipWork(doc, s, t, ps, n, pos);
  }

  /** Both kinds of marked string begin with two underscores. */
  lemma MarksAreSpecial(s: string)
    ensures StartsWith(s, REFERENCE) || IsFormString(s) ==> StartsWith(s, "__")
  {
    if StartsWith(s, REFERENCE) {
      assert s[..2] == s[..|REFERENCE|][..2];
    } else if IsFormString(s) {
      assert s[..2] == s[..|PREFIX|][..2];
    }
  }

  lemma ReadResult(mods: Mods, doc: Doc, base: Heap, owner: map<nat, (nat, Position)>, s: Load, n: nat, pos: Position,
                   k: Key, v: Value)
    requires LoadInv(mods, doc, base, s) && Readable(mods, doc, owner, s, n, pos, k, v)
    ensures v.JNode? ==> v.id < |doc| && v.id !in s.placed
    ensures
      var t, u, a := Read(mods, doc, s, n, pos), Adopt(doc, s, v), s.placed[n];
      && a in u.heap && u.heap[a] == s.heap[a]
      && t.heap == u.heap[a := Store(u.heap[a], k, DecodeValue(mods, u.placed, v))]
      && t.next == u.next && t.pending == Schedule(s.pending, v, (a, k))
      && Grown(s.heap[a], t.heap[a]) && (0 in s.placed ==> 0 in t.placed && t.placed[0] == s.placed[0])
  {
    {
      hide *;
      DoneIsPlaced(mods, doc, base, s, n, pos);
      NewChild(mods, doc, base, owner, s, n, pos, k, v);
    }
    hide LoadInv, Shape, DecodeValue, Schedule, OwnedBy;
  }

  lemma NewChild(mods: Mods, doc: Doc, base: Heap, owner: map<nat, (nat, Position)>, s: Load, n: nat, pos: Position,
                 k: Key, v: Value)
    requires LoadInv(mods, doc, base, s) && Readable(mods, doc, owner, s, n, pos, k, v)
    ensures v.JNode? ==> v.id < |doc| && v.id !in s.placed
  {
    hide ReadDone, FromReference, OnlyRead, Allocated, FoundIn, Shape;
    if v.JNode? {
      ChildIsNew(mods, doc, owner, s, n, pos, v.id);
    }
  }

  lemma ReadWork(mods: Mods, doc: Doc, base: Heap, owner: map<nat, (nat, Position)>, s: Load,
                 n: nat, pos: Position, k: Key, v: Value, rest: seq<(Addr, nat)>, work: seq<(Addr, nat)>)
    returns (t: Load)
    requires LoadInv(mods, doc, base, s) && Readable(mods, doc, owner, s, n, pos, k, v)
    requires WorkLeft(doc, s, rest + work, {n})
    ensures v.JNode? ==> v.id < |doc| && v.id !in s.placed
    ensures
      n in s.placed && var u, a := Adopt(doc, s, v), s.placed[n];
      && LoadInv(mods, doc, base, t) && WorkLeft(doc, t, rest + (work + NewWork(doc, s, v)), {n})
      && n in t.placed && t.placed[n] == a && t.done == s.done + {(n, pos)}
      && a in u.heap && u.heap[a] == s.heap[a] && a in t.heap
      && t.heap == u.heap[a := Store(u.heap[a], k, DecodeValue(mods, u.placed, v))]
      && t.next == u.next && t.pending == Schedule(s.pending, v, (a, k))
      && Grown(s.heap[a], t.heap[a]) && Progressed(s.placed, t.placed, work, work + NewWork(doc, s, v))
  {
    hide LoadInv, WorkLeft, Read, Adopt, NewWork, Store, DecodeValue, Schedule, Grown, Shape, Progressed, OwnedBy,
      KeyAt;
    t := Read(mods, doc, s, n, pos);
    hide Readable;
    Advance(mods, doc, base, owner, s, n, pos, k, v, rest + work);
    ReadResult(mods, doc, base, owner, s, n, pos, k, v);
    WorkGrows(s.placed, t.placed, rest, work, NewWork(doc, s, v));
  }

  lemma WorkGrows(before: map<nat, Addr>, after: map<nat, Addr>, rest: seq<(Addr, nat)>, work: seq<(Addr, nat)>,
                  more: seq<(Addr, nat)>)
    requires before.Keys <= after.Keys && (after.Keys == before.Keys ==> more == [])
    requires 0 in before ==> 0 in after && after[0] == before[0]
    ensures (rest + work) + more == rest + (work + more)
    ensures Progressed(before, after, work, work + more)
  {
  }

  /** One more element, or a slot of the same tree. */
  ghost predicate Grown(before: Container, after: Container)
  {
    && before.Array? == after.Array?
    && (before.Array? ==> |after.items| == |before.items| + 1)
    && (before.Tree? ==> after.kind == before.kind)
  }

  /** Objects are only added, and only together with work. */
  ghost predicate Progressed(before: map<nat, Addr>, after: map<nat, Addr>, work: seq<(Addr, nat)>,
                             left: seq<(Addr, nat)>)
  {
    && before.Keys <= after.Keys && (after.Keys == before.Keys ==> left == work)
    && (0 in before ==> 0 in after && after[0] == before[0])
  }

  lemma ProgressedOn(a: map<nat, Addr>, b: map<nat, Addr>, c: map<nat, Addr>,
                     v: seq<(Addr, nat)>, w: seq<(Addr, nat)>, x: seq<(Addr, nat)>)
    requires Progressed(a, b, v, w) && Progressed(b, c, w, x)
    ensures Progressed(a, c, v, x)
  {
  }
}
