/** Deep copy: each reachable object is copied once, sharing and cycles are kept. */
module DeepCopy {
  import opened Graph
  import opened Sequences
  import opened Collections

  /** What has been copied at some moment of the walk over the graph g. */
  datatype Progress = Progress(
    heap: Heap,
    next: Addr,                  // where the next object is allocated
    copied: map<Addr, Addr>,     // _copyed: originals to copies
    origin: map<Addr, Addr>)     // its inverse

  ghost predicate Inverse(copied: map<Addr, Addr>, origin: map<Addr, Addr>)
  {
    && (forall o | o in copied :: copied[o] in origin && origin[copied[o]] == o)
    && (forall c | c in origin :: origin[c] in copied && copied[origin[c]] == c)
  }

  /** The copy of o is finished: all objects it refers to are copies. */
  ghost predicate Finished(g: Heap, p: Progress, o: Addr)
    requires o in g && o in p.copied && p.copied[o] in p.heap
  {
    Refs(g[o]) <= p.copied.Keys && p.heap[p.copied[o]] == Rename(p.copied, g[o])
  }

  /** The originals are untouched, and every other object is a copy. */
  ghost predicate Kept(g: Heap, p: Progress)
  {
    && (forall a | a in g :: a in p.heap && p.heap[a] == g[a])
    && (forall a | a in p.heap :: a < p.next && (a in g || a in p.origin))
    && (forall o | o in p.copied :: o in g && p.copied[o] in p.heap && p.copied[o] !in g)
  }

  /** Every member of s is reachable. */
  ghost predicate Reachable(g: Heap, root: Addr, s: set<Addr>)
  {
    forall t: set<Addr> | root in t && Closed(EdgesOf(g), t) :: s <= t
  }

  ghost predicate Sound(g: Heap, root: Addr, p: Progress)
  {
    HeapClosed(g) && Inverse(p.copied, p.origin) && root in p.copied && Kept(g, p) && Reachable(g, root, p.copied.Keys)
  }

  /** The copies in left still refer to the originals, the ones in busy are being changed, the others are finished. */
  ghost predicate CopyInv(g: Heap, root: Addr, p: Progress, left: set<Addr>, busy: set<Addr>)
  {
    && Sound(g, root, p) && left <= p.origin.Keys && left !! busy
    && (forall o | o in p.copied && p.copied[o] in left :: p.heap[p.copied[o]] == g[o])
    && (forall o | o in p.copied && p.copied[o] !in left && p.copied[o] !in busy :: Finished(g, p, o))
  }

  lemma RenameStable(phi: map<Addr, Addr>, psi: map<Addr, Addr>, c: Container)
    requires Refs(c) <= phi.Keys && forall a | a in phi :: a in psi && psi[a] == phi[a]
    ensures Rename(psi, c) == Rename(phi, c)
  {
    match c
    case Array(items) =>
      forall i | 0 <= i < |items| ensures RenameItem(psi, items[i]) == RenameItem(phi, items[i]) {
        assert items[i].Object? ==> items[i].ref in Refs(c);
      }
    case Tree(_, slots) =>
      forall k | k in slots ensures RenameItem(psi, slots[k].item) == RenameItem(phi, slots[k].item) {
        assert slots[k].item.Object? ==> slots[k].item.ref in Refs(c);
      }
  }

  // ------------------------------------------------------------------ one more object

  function Shallow(p: Progress, o: Addr): Progress
    requires o in p.heap
  {
    Progress(p.heap[p.next := p.heap[o]], p.next + 1, p.copied[o := p.next], p.origin[p.next := o])
  }

  lemma ReachableMore(g: Heap, root: Addr, s: set<Addr>, parent: Addr, o: Addr)
    requires Reachable(g, root, s) && parent in s && parent in g && o in Refs(g[parent])
    ensures Reachable(g, root, s + {o})
  {
    hide Refs;
    forall t: set<Addr> | root in t && Closed(EdgesOf(g), t) ensures s + {o} <= t {
      assert parent in t && EdgesOf(g)[parent] <= t;
    }
  }

  lemma InverseMore(copied: map<Addr, Addr>, origin: map<Addr, Addr>, o: Addr, c: Addr)
    requires Inverse(copied, origin) && o !in copied && c !in origin
    ensures Inverse(copied[o := c], origin[c := o])
  {
  }

  lemma KeptMore(g: Heap, p: Progress, o: Addr)
    requires Kept(g, p) && o in g && Inverse(p.copied, p.origin)
    ensures o in p.heap && p.next !in p.heap && p.next !in p.origin && p.next !in g && Kept(g, Shallow(p, o))
  {
  }

  lemma RefIsThere(g: Heap, parent: Addr, o: Addr)
    requires HeapClosed(g) && parent in g && o in Refs(g[parent])
    ensures o in g
  {
  }

  lemma ShallowSound(g: Heap, root: Addr, p: Progress, parent: Addr, o: Addr)
    requires Sound(g, root, p) && parent in p.copied && parent in g && o in Refs(g[parent]) && o !in p.copied
    ensures o in p.heap && o in g && p.next !in p.heap && p.next !in p.origin && Sound(g, root, Shallow(p, o))
  {
    hide HeapClosed, Inverse, Kept, Reachable, Refs;
    RefIsThere(g, parent, o);
    KeptMore(g, p, o);
    InverseMore(p.copied, p.origin, o, p.next);
    ReachableMore(g, root, p.copied.Keys, parent, o);
    assert p.copied[o := p.next].Keys == p.copied.Keys + {o};
  }

  lemma ShallowFinished(g: Heap, p: Progress, o: Addr, x: Addr)
    requires o in p.heap && o !in p.copied && p.next !in p.heap
    requires x in g && x in p.copied && p.copied[x] in p.heap && Finished(g, p, x)
    ensures Finished(g, Shallow(p, o), x)
  {
    RenameStable(p.copied, Shallow(p, o).copied, g[x]);
    hide Rename, Refs;
  }

  lemma ShallowKeeps(g: Heap, root: Addr, p: Progress, left: set<Addr>, busy: set<Addr>, parent: Addr, o: Addr)
    requires CopyInv(g, root, p, left, busy) && parent in p.copied && parent in g && o in Refs(g[parent]) &&
             o !in p.copied
    requires forall c | c in busy :: c < p.next
    ensures o in p.heap && CopyInv(g, root, Shallow(p, o), left + {p.next}, busy)
  {
    hide Finished, HeapClosed, Inverse, Reachable, Refs;
    ShallowSound(g, root, p, parent, o);
    var q := Shallow(p, o);
    assert forall x | x in p.copied :: p.copied[x] in p.heap && x in g;
    hide Sound;
    forall x | x in q.copied && q.copied[x] !in left + {p.next} && q.copied[x] !in busy
      ensures x in g && q.copied[x] in q.heap && Finished(g, q, x)
    {
      ShallowFinished(g, p, o, x);
    }
    assert q.heap[p.next] == p.heap[o] == g[o] by {
      OriginalKept(g, root, p, o);
    }
  }

  lemma OriginalKept(g: Heap, root: Addr, p: Progress, o: Addr)
    requires Sound(g, root, p) && o in p.heap && (exists parent :: parent in g && o in Refs(g[parent]))
    ensures o in g && p.heap[o] == g[o]
  {
    var parent :| parent in g && o in Refs(g[parent]);
    RefIsThere(g, parent, o);
  }

  /** Writing to the busy copy leaves the others as they were. */
  lemma BusyWrite(g: Heap, root: Addr, p: Progress, left: set<Addr>, c: Addr, d: Container)
    requires CopyInv(g, root, p, left, {c}) && c in p.origin && c in p.heap && c !in g
    ensures CopyInv(g, root, p.(heap := p.heap[c := d]), left, {c})
  {
    hide HeapClosed, Reachable, Rename, Refs, Inverse;
    var q := p.(heap := p.heap[c := d]);
    forall x | x in q.copied && q.copied[x] !in left && q.copied[x] !in {c} ensures Finished(g, q, x) {
      assert Finished(g, p, x);
    }
    hide Finished;
  }

  lemma Settle(g: Heap, root: Addr, p: Progress, left: set<Addr>, c: Addr)
    requires CopyInv(g, root, p, left, {c}) && c in p.origin && p.origin[c] in g && c in p.heap
    requires Refs(g[p.origin[c]]) <= p.copied.Keys && p.heap[c] == Rename(p.copied, g[p.origin[c]])
    ensures CopyInv(g, root, p, left, {})
  {
    hide HeapClosed, Reachable, Rename, Refs;
    assert Finished(g, p, p.origin[c]);
  }

  lemma TakeBusy(g: Heap, root: Addr, p: Progress, left: set<Addr>, c: Addr)
    requires CopyInv(g, root, p, left, {}) && c in left
    ensures CopyInv(g, root, p, left - {c}, {c})
    ensures c in p.origin && p.origin[c] in g && p.origin[c] in p.copied && c in p.heap && c !in g && c < p.next
    ensures p.heap[c] == g[p.origin[c]]
  {
    hide HeapClosed, Reachable, Finished;
  }

  /** With nothing left to visit the copy is isomorphic to the original, the originals are as they were,
      and no copy refers to an original. */
  lemma CopyDone(g: Heap, root: Addr, p: Progress)
    requires CopyInv(g, root, p, {}, {})
    ensures Isomorphic(g, root, p.heap, p.copied[root], p.copied)
    ensures forall a | a in g :: a in p.heap && p.heap[a] == g[a]
    ensures p.heap.Keys == g.Keys + p.copied.Values && g.Keys !! p.copied.Values
    ensures forall o | o in p.copied :: Refs(p.heap[p.copied[o]]) <= p.copied.Values
    ensures forall o | o in g :: Holders(p.heap, o) == Holders(g, o)
  {
    AllFinished(g, root, p);
    CopiedAll(g, root, p);
    NewAreCopies(g, root, p);
    hide CopyInv, Rename, Refs, ReachSet, Finished;
    forall o | o in p.copied ensures Refs(p.heap[p.copied[o]]) <= p.copied.Values {
      RenamedRefs(p.copied, g[o]);
    }
    forall o | o in g ensures Holders(p.heap, o) == Holders(g, o) {
      SameHolders(g, p.heap, p.copied, o);
    }
  }

  /** Copies refer to copies only, so the slots that hold an original are those that held it before. */
  lemma SameHolders(g: Heap, heap: Heap, copied: map<Addr, Addr>, o: Addr)
    requires o in g && heap.Keys == g.Keys + copied.Values && g.Keys !! copied.Values
    requires forall a | a in g :: heap[a] == g[a]
    requires forall x | x in copied :: copied[x] in heap && Refs(heap[copied[x]]) <= copied.Values
    ensures Holders(heap, o) == Holders(g, o)
  {
    hide SlotsWith, Refs;
    forall b | b in heap && b !in g ensures SlotsWith(heap[b], o) == {} {
      var x :| x in copied && copied[x] == b;
      HeldIsRef(heap[b], o);
    }
  }

  lemma HeldIsRef(c: Container, a: Addr)
    ensures SlotsWith(c, a) != {} ==> a in Refs(c)
  {
  }

  lemma AllFinished(g: Heap, root: Addr, p: Progress)
    requires CopyInv(g, root, p, {}, {})
    ensures root in p.copied && Injective(p.copied) && p.copied.Keys <= g.Keys
    ensures forall o | o in p.copied ::
              p.copied[o] in p.heap && p.heap[p.copied[o]] == Rename(p.copied, g[o]) && Refs(g[o]) <= p.copied.Keys
    ensures forall a | a in g :: a in p.heap && p.heap[a] == g[a]
  {
    hide HeapClosed, Reachable, Rename, Refs;
    assert forall o | o in p.copied :: Finished(g, p, o);
  }

  lemma CopiedAll(g: Heap, root: Addr, p: Progress)
    requires CopyInv(g, root, p, {}, {})
    ensures ReachSet(EdgesOf(g), {root}, p.copied.Keys)
  {
    AllFinished(g, root, p);
    hide HeapClosed, Rename, Refs, Finished, Kept, Inverse;
    assert Reachable(g, root, p.copied.Keys);
    assert Closed(EdgesOf(g), p.copied.Keys);
  }

  lemma NewAreCopies(g: Heap, root: Addr, p: Progress)
    requires CopyInv(g, root, p, {}, {})
    ensures p.heap.Keys == g.Keys + p.copied.Values && g.Keys !! p.copied.Values
  {
    hide HeapClosed, Reachable, Finished;
    forall x ensures x in p.heap <==> x in g || x in p.copied.Values {
      if x in p.origin {
        assert p.copied[p.origin[x]] == x;
      }
    }
  }

  lemma RenamedRefs(phi: map<Addr, Addr>, c: Container)
    requires Refs(c) <= phi.Keys
    ensures Refs(Rename(phi, c)) <= phi.Values
  {
    match c
    case Array(items) =>
      assert forall i | 0 <= i < |items| && items[i].Object? :: items[i].ref in Refs(c);
    case Tree(_, slots) =>
      assert forall k | k in slots && slots[k].item.Object? :: slots[k].item.ref in Refs(c);
  }

  // ------------------------------------------------------------------ one copy at a time

  /** The first i items refer to copies, the others are still those of the original. */
  ghost predicate ItemsCopied(orig: seq<Item>, now: Container, copied: map<Addr, Addr>, i: nat)
  {
    && i <= |orig| && now.Array? && |now.items| == |orig|
    && (forall j | 0 <= j < i ::
         now.items[j] == RenameItem(copied, orig[j]) && (orig[j].Object? ==> orig[j].ref in copied))
    && (forall j | i <= j < |orig| :: now.items[j] == orig[j])
  }

  /** The slots outside todo refer to copies, the others are still those of the original. */
  ghost predicate SlotsCopied(kind: Kind, orig: map<Key, Slot>, now: Container, copied: map<Addr, Addr>, todo: set<Key>)
  {
    && todo <= orig.Keys && now.Tree? && now.kind == kind && now.slots.Keys == orig.Keys
    && (forall k | k in orig && k !in todo ::
          && now.slots[k] == orig[k].(item := RenameItem(copied, orig[k].item))
          && (orig[k].item.Object? ==> orig[k].item.ref in copied))
    && (forall k | k in todo :: now.slots[k] == orig[k])
  }

  ghost predicate Grew(copied: map<Addr, Addr>, copied': map<Addr, Addr>)
  {
    forall o | o in copied :: o in copied' && copied'[o] == copied[o]
  }

  lemma ItemsAll(orig: seq<Item>, now: Container, copied: map<Addr, Addr>)
    requires ItemsCopied(orig, now, copied, |orig|)
    ensures Refs(Array(orig)) <= copied.Keys && now == Rename(copied, Array(orig))
  {
    assert now.items == Rename(copied, Array(orig)).items;
  }

  lemma SlotsAll(kind: Kind, orig: map<Key, Slot>, now: Container, copied: map<Addr, Addr>)
    requires SlotsCopied(kind, orig, now, copied, {})
    ensures Refs(Tree(kind, orig)) <= copied.Keys && now == Rename(copied, Tree(kind, orig))
  {
    assert now.slots == Rename(copied, Tree(kind, orig)).slots;
  }

  lemma ItemStep(orig: seq<Item>, now: Container, copied: map<Addr, Addr>, copied': map<Addr, Addr>, i: nat, item: Item)
    requires ItemsCopied(orig, now, copied, i) && i < |orig| && Grew(copied, copied')
    requires item == RenameItem(copied', orig[i]) && (orig[i].Object? ==> orig[i].ref in copied')
    ensures ItemsCopied(orig, Array(now.items[i := item]), copied', i + 1)
    ensures !orig[i].Object? ==> now.items[i := item] == now.items
  {
  }

  lemma SlotStep(kind: Kind, orig: map<Key, Slot>, now: Container, copied: map<Addr, Addr>, copied': map<Addr, Addr>,
                 todo: set<Key>, k: Key, item: Item)
    requires SlotsCopied(kind, orig, now, copied, todo) && k in todo && Grew(copied, copied')
    requires item == RenameItem(copied', orig[k].item) && (orig[k].item.Object? ==> orig[k].item.ref in copied')
    ensures SlotsCopied(kind, orig, Tree(kind, now.slots[k := now.slots[k].(item := item)]), copied', todo - {k})
    ensures !orig[k].item.Object? ==> now.slots[k := now.slots[k].(item := item)] == now.slots
  {
  }

  /** A copy that the walk made. */
  lemma CopyPlace(g: Heap, root: Addr, p: Progress, left: set<Addr>, busy: set<Addr>, o: Addr)
    requires CopyInv(g, root, p, left, busy)
    ensures p.copied.Keys <= g.Keys && root in p.copied
    ensures o in p.copied ==>
              o in g && p.copied[o] in p.heap && p.copied[o] in p.origin && p.copied[o] !in g && p.copied[o] < p.next
  {
    hide HeapClosed, Reachable, Finished;
  }

  /** p after the busy copy c of o was changed to d. */
  lemma WriteBusy(g: Heap, root: Addr, p: Progress, left: set<Addr>, c: Addr, d: Container)
    requires CopyInv(g, root, p, left, {c}) && c in p.origin && c in p.heap && c !in g
    ensures var q := p.(heap := p.heap[c := d]);
            CopyInv(g, root, q, left, {c}) && q.heap[c] == d && c in q.heap
  {
    hide CopyInv;
    BusyWrite(g, root, p, left, c, d);
  }

  class Copying {
    ghost const graph: Heap
    ghost const root: Addr

    var heap: Heap
    var next: Addr
    var copied: map<Addr, Addr>
    var toTraverse: seq<Addr>
    ghost var origin: map<Addr, Addr>

    constructor (heap: Heap, next: Addr, ghost root: Addr)
      ensures graph == heap && this.root == root && this.heap == heap && this.next == next
      ensures copied == map[] && toTraverse == [] && origin == map[]
    {
      graph, this.root, this.heap, this.next := heap, root, heap, next;
      copied, toTraverse, origin := map[], [], map[];
    }

    ghost function Now(): Progress
      reads this
    {
      Progress(heap, next, copied, origin)
    }

    /** unique_copy of an object that the original of the busy copy refers to. */
    method UniqueCopy(o: Addr, ghost parent: Addr, ghost busy: Addr, ghost rest: set<Addr>) returns (copy: Addr)
      requires CopyInv(graph, root, Now(), Elements(toTraverse) + rest, {busy}) && busy < next
      requires parent in graph && parent in copied && o in Refs(graph[parent])
      requires NoRepeat(toTraverse, rest, next)
      modifies this
      ensures NoRepeat(toTraverse, rest, next)
      ensures CopyInv(graph, root, Now(), Elements(toTraverse) + rest, {busy}) && busy < next
      ensures o in copied && copied[o] == copy && Grew(old(copied), copied) && Grew(old(origin), origin)
      ensures forall a | a in old(heap) :: a in heap && heap[a] == old(heap)[a]
      ensures copied.Keys == old(copied).Keys ==> toTraverse == old(toTraverse)
    {
      hide CopyInv, NoRepeat, Elements, Refs;
      if o in copied {
        return copied[o];
      }
      ghost var p := Now();
      ShallowKeeps(graph, root, p, Elements(toTraverse) + rest, {busy}, parent, o);
      FreshCopy(graph, root, p, Elements(toTraverse) + rest, {busy}, parent, o);
      ElementsPlus(toTraverse, next);
      assert Elements(toTraverse + [next]) + rest == Elements(toTraverse) + rest + {next};
      NoRepeatMore(toTraverse, rest, next);
      copy := next;
      heap := heap[next := heap[o]];
      toTraverse := toTraverse + [copy];
      copied := copied[o := copy];
      origin := origin[copy := o];
      next := next + 1;
    }

    method CopyItems(c: Addr, ghost o: Addr, ghost rest: set<Addr>)
      requires CopyInv(graph, root, Now(), Elements(toTraverse) + rest, {c}) && c < next
      requires c in origin && origin[c] == o && o in graph && o in copied && c in heap && c !in graph
      requires heap[c] == graph[o] && heap[c].Array?
      requires NoRepeat(toTraverse, rest, next)
      modifies this
      ensures NoRepeat(toTraverse, rest, next)
      ensures CopyInv(graph, root, Now(), Elements(toTraverse) + rest, {})
      ensures Grew(old(copied), copied) && (copied.Keys == old(copied).Keys ==> toTraverse == old(toTraverse))
    {
      hide CopyInv, NoRepeat, Elements, Refs, Rename, ItemsCopied;
      ghost var orig := graph[o].items;
      NoItems(orig, copied);
      var count := |heap[c].items|;
      for i := 0 to count
        invariant CopyInv(graph, root, Now(), Elements(toTraverse) + rest, {c}) && c < next
        invariant c in origin && origin[c] == o && o in copied && c in heap && ItemsCopied(orig, heap[c], copied, i)
        invariant NoRepeat(toTraverse, rest, next)
        invariant Grew(old(copied), copied) && (copied.Keys == old(copied).Keys ==> toTraverse == old(toTraverse))
      {
        CopyItem(c, i, o, rest);
      }
      ItemsAll(orig, heap[c], copied);
      Settle(graph, root, Now(), Elements(toTraverse) + rest, c);
    }

    /** copy_child for item i of an array. */
    method CopyItem(c: Addr, i: nat, ghost o: Addr, ghost rest: set<Addr>)
      requires CopyInv(graph, root, Now(), Elements(toTraverse) + rest, {c}) && c < next
      requires c in origin && origin[c] == o && o in graph && graph[o].Array? && o in copied && c in heap && c !in graph
      requires ItemsCopied(graph[o].items, heap[c], copied, i) && i < |graph[o].items|
      requires NoRepeat(toTraverse, rest, next)
      modifies this
      ensures NoRepeat(toTraverse, rest, next)
      ensures CopyInv(graph, root, Now(), Elements(toTraverse) + rest, {c}) && c < next
      ensures c in origin && origin[c] == o && o in copied && c in heap &&
              ItemsCopied(graph[o].items, heap[c], copied, i + 1)
      ensures Grew(old(copied), copied) && (copied.Keys == old(copied).Keys ==> toTraverse == old(toTraverse))
    {
      hide CopyInv, NoRepeat, Elements, Refs, ItemsCopied;
      ghost var orig, before := graph[o].items, heap[c];
      ItemHere(orig, before, copied, i);
      var item := heap[c].items[i];
      if item.Object? {
        ItemIsRef(orig, i, item.ref);
        var copy := UniqueCopy(item.ref, o, c, rest);
        WriteBusy(graph, root, Now(), Elements(toTraverse) + rest, c, Array(heap[c].items[i := Object(copy)]));
        ItemStep(orig, before, old(copied), copied, i, Object(copy));
        heap := heap[c := Array(heap[c].items[i := Object(copy)])];
      } else {
        ItemStep(orig, before, old(copied), copied, i, item);
      }
    }

    method CopySlots(c: Addr, ghost o: Addr, ghost rest: set<Addr>)
      requires CopyInv(graph, root, Now(), Elements(toTraverse) + rest, {c}) && c < next
      requires c in origin && origin[c] == o && o in graph && o in copied && c in heap && c !in graph
      requires heap[c] == graph[o] && heap[c].Tree?
      requires NoRepeat(toTraverse, rest, next)
      modifies this
      ensures NoRepeat(toTraverse, rest, next)
      ensures CopyInv(graph, root, Now(), Elements(toTraverse) + rest, {})
      ensures Grew(old(copied), copied) && (copied.Keys == old(copied).Keys ==> toTraverse == old(toTraverse))
    {
      hide CopyInv, NoRepeat, Elements, Refs, Rename, SlotsCopied;
      ghost var kind, orig := graph[o].kind, graph[o].slots;
      NoSlots(kind, orig, copied);
      var todo := heap[c].slots.Keys;
      while todo != {}
        invariant CopyInv(graph, root, Now(), Elements(toTraverse) + rest, {c}) && c < next
        invariant c in origin && origin[c] == o && o in copied && c in heap &&
                  SlotsCopied(kind, orig, heap[c], copied, todo)
        invariant NoRepeat(toTraverse, rest, next)
        invariant Grew(old(copied), copied) && (copied.Keys == old(copied).Keys ==> toTraverse == old(toTraverse))
      {
        var k :| k in todo;
        CopySlot(c, k, o, todo, rest);
        todo := todo - {k};
      }
      SlotsAll(kind, orig, heap[c], copied);
      Settle(graph, root, Now(), Elements(toTraverse) + rest, c);
    }

    /** copy_child for the item under key k of a tree. */
    method CopySlot(c: Addr, k: Key, ghost o: Addr, ghost todo: set<Key>, ghost rest: set<Addr>)
      requires CopyInv(graph, root, Now(), Elements(toTraverse) + rest, {c}) && c < next
      requires c in origin && origin[c] == o && o in graph && graph[o].Tree? && o in copied && c in heap && c !in graph
      requires SlotsCopied(graph[o].kind, graph[o].slots, heap[c], copied, todo) && k in todo
      requires NoRepeat(toTraverse, rest, next)
      modifies this
      ensures NoRepeat(toTraverse, rest, next)
      ensures CopyInv(graph, root, Now(), Elements(toTraverse) + rest, {c}) && c < next
      ensures c in origin && origin[c] == o && o in copied && c in heap
      ensures SlotsCopied(graph[o].kind, graph[o].slots, heap[c], copied, todo - {k})
      ensures Grew(old(copied), copied) && (copied.Keys == old(copied).Keys ==> toTraverse == old(toTraverse))
    {
      hide CopyInv, NoRepeat, Elements, Refs, SlotsCopied;
      ghost var kind, orig, before := graph[o].kind, graph[o].slots, heap[c];
      SlotHere(kind, orig, before, copied, todo, k);
      var slot := heap[c].slots[k];
      if slot.item.Object? {
        SlotIsRef(kind, orig, k, slot.item.ref);
        var copy := UniqueCopy(slot.item.ref, o, c, rest);
        var written := Tree(heap[c].kind, heap[c].slots[k := slot.(item := Object(copy))]);
        WriteBusy(graph, root, Now(), Elements(toTraverse) + rest, c, written);
        SlotStep(kind, orig, before, old(copied), copied, todo, k, Object(copy));
        heap := heap[c := written];
      } else {
        SlotStep(kind, orig, before, old(copied), copied, todo, k, slot.item);
      }
    }

    method CopyChildren(c: Addr, ghost rest: set<Addr>)
      requires CopyInv(graph, root, Now(), Elements(toTraverse) + rest + {c}, {}) && c !in Elements(toTraverse) + rest
      requires NoRepeat(toTraverse, rest, next)
      modifies this
      ensures NoRepeat(toTraverse, rest, next)
      ensures CopyInv(graph, root, Now(), Elements(toTraverse) + rest, {})
      ensures Grew(old(copied), copied) && (copied.Keys == old(copied).Keys ==> toTraverse == old(toTraverse))
    {
      hide CopyInv, NoRepeat, Elements;
      TakeBusy(graph, root, Now(), Elements(toTraverse) + rest + {c}, c);
      assert Elements(toTraverse) + rest + {c} - {c} == Elements(toTraverse) + rest;
      if heap[c].Array? {
        CopyItems(c, origin[c], rest);
      } else {
        CopySlots(c, origin[c], rest);
      }
    }

    /** unique_copy of the first object. */
    method CopyRoot(origin0: Addr) returns (copy: Addr)
      requires HeapClosed(graph) && origin0 == root && root in graph && (forall a | a in graph :: a < next)
      requires heap == graph && copied == map[] && toTraverse == [] && origin == map[]
      modifies this
      ensures CopyInv(graph, root, Now(), Elements(toTraverse), {}) && NoRepeat(toTraverse, {}, next)
      ensures root in copied && copied[root] == copy
    {
      StartCopy(graph, root, next);
      hide CopyInv, HeapClosed, NoRepeat, Elements;
      copy := next;
      heap := heap[next := heap[origin0]];
      toTraverse := toTraverse + [copy];
      copied := copied[origin0 := copy];
      origin := origin[copy := origin0];
      next := next + 1;
    }

    method CopyBatch(tmp: seq<Addr>)
      requires CopyInv(graph, root, Now(), Elements(tmp), {}) && NoRepeat(tmp, {}, next) && toTraverse == []
      modifies this
      ensures CopyInv(graph, root, Now(), Elements(toTraverse), {}) && NoRepeat(toTraverse, {}, next)
      ensures Grew(old(copied), copied) && (copied.Keys == old(copied).Keys ==> toTraverse == [])
    {
      hide CopyInv, NoRepeat, Elements;
      BatchStart(tmp, next);
      for i := 0 to |tmp|
        invariant CopyInv(graph, root, Now(), Elements(toTraverse) + Elements(tmp[i..]), {})
        invariant NoRepeat(toTraverse, Elements(tmp[i..]), next) && Distinct(tmp)
        invariant Grew(old(copied), copied) && (copied.Keys == old(copied).Keys ==> toTraverse == [])
      {
        BatchNext(tmp, i, toTraverse, next);
        CopyChildren(tmp[i], Elements(tmp[i + 1..]));
      }
      BatchEnd(tmp, toTraverse, next);
    }

    /** _deep_copy */
    method DeepCopy(origin0: Addr) returns (copy: Addr)
      requires HeapClosed(graph) && origin0 == root && root in graph && (forall a | a in graph :: a < next)
      requires heap == graph && copied == map[] && toTraverse == [] && origin == map[]
      modifies this
      ensures Isomorphic(graph, origin0, heap, copy, copied)
      ensures forall a | a in graph :: a in heap && heap[a] == graph[a]
      ensures heap.Keys == graph.Keys + copied.Values && graph.Keys !! copied.Values
      ensures forall o | o in copied :: o in graph && copied[o] in heap && Refs(heap[copied[o]]) <= copied.Values
      ensures forall o | o in graph :: Holders(heap, o) == Holders(graph, o)
    {
      hide CopyInv, HeapClosed, NoRepeat, Elements, Isomorphic, Refs, Holders;
      copy := CopyRoot(origin0);
      while toTraverse != []
        invariant CopyInv(graph, root, Now(), Elements(toTraverse), {}) && NoRepeat(toTraverse, {}, next)
        invariant root in copied && copied[root] == copy
        decreases graph.Keys - copied.Keys, |toTraverse|
      {
        ghost var before := copied;
        var tmp := toTraverse;
        toTraverse := [];
        CopyBatch(tmp);
        CopyPlace(graph, root, Now(), Elements(toTraverse), {}, root);
        LessIsLeft(graph.Keys, before.Keys, copied.Keys);
      }
      NoElements();
      CopyPlaces(graph, root, Now());
      CopyDone(graph, root, Now());
    }
  }

  /** No copy is on the work list twice. */
  ghost predicate NoRepeat(work: seq<Addr>, rest: set<Addr>, next: Addr)
  {
    Distinct(work) && (forall x | x in work :: x !in rest && x < next) && (forall x | x in rest :: x < next)
  }

  lemma NoRepeatMore(work: seq<Addr>, rest: set<Addr>, next: Addr)
    requires NoRepeat(work, rest, next)
    ensures NoRepeat(work + [next], rest, next + 1)
  {
    assert forall i | 0 <= i < |work| :: work[i] in work;
  }

  lemma BatchStart(tmp: seq<Addr>, next: Addr)
    requires NoRepeat(tmp, {}, next)
    ensures Elements([]) + Elements(tmp[0..]) == Elements(tmp) && NoRepeat([], Elements(tmp[0..]), next) &&
            Distinct(tmp)
  {
    assert tmp[0..] == tmp;
  }

  lemma BatchNext(tmp: seq<Addr>, i: nat, work: seq<Addr>, next: Addr)
    requires i < |tmp| && NoRepeat(work, Elements(tmp[i..]), next) && Distinct(tmp)
    ensures NoRepeat(work, Elements(tmp[i + 1..]), next) && tmp[i] !in Elements(work) + Elements(tmp[i + 1..])
    ensures Elements(work) + Elements(tmp[i..]) == Elements(work) + Elements(tmp[i + 1..]) + {tmp[i]}
  {
    ElementsTail(tmp, i);
  }

  lemma BatchEnd(tmp: seq<Addr>, work: seq<Addr>, next: Addr)
    requires NoRepeat(work, Elements(tmp[|tmp|..]), next)
    ensures Elements(work) + Elements(tmp[|tmp|..]) == Elements(work) && NoRepeat(work, {}, next)
  {
    assert tmp[|tmp|..] == [];
  }

  lemma StartCopy(g: Heap, root: Addr, next: Addr)
    requires HeapClosed(g) && root in g && forall a | a in g :: a < next
    ensures var p := Shallow(Progress(g, next, map[], map[]), root);
            CopyInv(g, root, p, Elements([] + [next]), {}) && NoRepeat([] + [next], {}, next + 1)
  {
    hide HeapClosed;
    var p := Shallow(Progress(g, next, map[], map[]), root);
    assert Elements([] + [next]) == {next};
    assert p.copied.Keys == {root};
  }

  lemma CopyPlaces(g: Heap, root: Addr, p: Progress)
    requires CopyInv(g, root, p, {}, {})
    ensures forall o | o in p.copied :: o in g && p.copied[o] in p.heap
  {
    hide HeapClosed, Reachable, Finished;
  }

  lemma FreshCopy(g: Heap, root: Addr, p: Progress, left: set<Addr>, busy: set<Addr>, parent: Addr, o: Addr)
    requires CopyInv(g, root, p, left, busy) && parent in p.copied && parent in g && o in Refs(g[parent]) &&
             o !in p.copied
    ensures o in p.heap && p.next !in p.heap && p.next !in p.origin
  {
    hide Reachable, Finished, HeapClosed, Refs;
    RefIsThere(g, parent, o);
  }

  lemma NoItems(orig: seq<Item>, copied: map<Addr, Addr>)
    ensures ItemsCopied(orig, Array(orig), copied, 0)
  {
  }

  lemma NoSlots(kind: Kind, orig: map<Key, Slot>, copied: map<Addr, Addr>)
    ensures SlotsCopied(kind, orig, Tree(kind, orig), copied, orig.Keys)
  {
  }

  lemma ItemHere(orig: seq<Item>, now: Container, copied: map<Addr, Addr>, i: nat)
    requires ItemsCopied(orig, now, copied, i) && i < |orig|
    ensures now.Array? && |now.items| == |orig| && now.items[i] == orig[i]
  {
  }

  lemma SlotHere(kind: Kind, orig: map<Key, Slot>, now: Container, copied: map<Addr, Addr>, todo: set<Key>, k: Key)
    requires SlotsCopied(kind, orig, now, copied, todo) && k in todo
    ensures now.Tree? && now.kind == kind && k in now.slots && k in orig && now.slots[k] == orig[k]
  {
  }

  lemma ItemIsRef(orig: seq<Item>, i: nat, a: Addr)
    requires i < |orig| && orig[i] == Object(a)
    ensures a in Refs(Array(orig))
  {
  }

  lemma SlotIsRef(kind: Kind, orig: map<Key, Slot>, k: Key, a: Addr)
    requires k in orig && orig[k].item == Object(a)
    ensures a in Refs(Tree(kind, orig))
  {
  }
}
