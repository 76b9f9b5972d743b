/** The registry of a context: all objects, and the objects by handle. */
module Registry {
  import opened Wrappers
  import opened Graph
  import opened Lifetime
  import opened IdGenerator

  /** m is the lookup table for objects that carry the given handles. */
  ghost predicate Indexes(m: map<Handle, Addr>, handles: map<Addr, Handle>)
  {
    && (forall x | x in handles && handles[x] != NULL_HANDLE :: handles[x] in m && m[handles[x]] == x)
    && (forall h | h in m :: h != NULL_HANDLE && m[h] in handles && handles[m[h]] == h)
  }

  /** There is only one lookup table for a set of objects, so rebuilding it gives the same one. */
  lemma IndexUnique(m: map<Handle, Addr>, n: map<Handle, Addr>, handles: map<Addr, Handle>)
    requires Indexes(m, handles) && Indexes(n, handles)
    ensures m == n
  {
  }

  /** A lookup table exists only if no two objects share a handle. */
  lemma IndexDistinct(m: map<Handle, Addr>, handles: map<Addr, Handle>, x: Addr, y: Addr)
    requires Indexes(m, handles) && x in handles && y in handles
    requires handles[x] == handles[y] != NULL_HANDLE
    ensures x == y
  {
  }

  class ObjectRegistry {
    var index: map<Handle, Addr>
    var allObjects: set<Addr>
    const idGen: Generator

    /** The generator's free ids are exactly those that no object has. */
    ghost predicate Valid()
      reads this, idGen
    {
      && idGen.Valid()
      && (forall h | h in index :: MIN_ID <= h <= MAX_ID && index[h] in allObjects)
      && (forall h | MIN_ID <= h <= MAX_ID :: Free(idGen.ranges, h) <==> h !in index)
    }

    constructor ()
      ensures Valid() && fresh(this) && fresh(idGen) && index == map[] && allObjects == {}
    {
      index, allObjects := map[], {};
      idGen := new Generator();
    }

    method RegisterNewObject(x: Addr)
      requires Valid() && x !in allObjects
      modifies this
      ensures Valid() && index == old(index) && allObjects == old(allObjects) + {x}
    {
      allObjects := allObjects + {x};
    }

    /** A generator that has handed out its last id, or took ids back after that, must not be asked. */
    method RegisterNewObjectId(x: Addr) returns (h: Handle)
      requires Valid() && x in allObjects && idGen.CursorOk()
      modifies this, idGen
      ensures idGen.CursorOk() <==> exists k :: Free(idGen.ranges, k)
      ensures Valid() && h != NULL_HANDLE && h !in old(index)
      ensures index == old(index)[h := x] && allObjects == old(allObjects)
    {
      h := idGen.NewId();
      SomeFree(idGen.ranges);
      assert h !in index;
      index := index[h := x];
    }

    method RemoveObject(x: Addr, id: Handle)
      requires Valid() && x in allObjects && (id != NULL_HANDLE ==> id in index && index[id] == x)
      requires forall h | h in index && index[h] == x :: h == id
      modifies this, idGen
      ensures Valid() && index == old(index) - {id} && allObjects == old(allObjects) - {x}
      ensures idGen.CursorOk() <==> old(idGen.CursorOk())
    {
      if id != NULL_HANDLE {
        index := index - {id};
        idGen.ReuseId(id);
      }
      allObjects := allObjects - {x};
    }

    /** The object that carries the handle; None for the null handle and for handles nobody has. */
    method GetObject(h: Handle, ghost handles: map<Addr, Handle>) returns (x: Option<Addr>)
      requires Indexes(index, handles)
      ensures forall y :: x == Some(y) <==> h != NULL_HANDLE && y in handles && handles[y] == h
    {
      if h == NULL_HANDLE {
        return None;
      }
      x := if h in index then Some(index[h]) else None;
    }

    /** What loading a save does: the table is not stored but built from the objects. */
    method Rebuild(handles: map<Addr, Handle>) returns (m: map<Handle, Addr>)
      requires Indexes(index, handles)
      ensures Indexes(m, handles) && m == index
    {
      m := map[];
      var todo := handles.Keys;
      while todo != {}
        invariant todo <= handles.Keys
        invariant forall x | x in handles && x !in todo && handles[x] != NULL_HANDLE ::
                    handles[x] in m && m[handles[x]] == x
        invariant forall h | h in m :: h != NULL_HANDLE && m[h] in handles && handles[m[h]] == h
      {
        var x :| x in todo;
        if handles[x] != NULL_HANDLE {
          if handles[x] in m {
            IndexDistinct(index, handles, x, m[handles[x]]);
          }
          m := m[handles[x] := x];
        }
        todo := todo - {x};
      }
      IndexUnique(m, index, handles);
    }
  }
}
