/** sync.ts on the heap: the shared map holds element objects, and clones separate it from the scene. */
module Sync {
  import opened Elements
  import opened SyncSpec

  /** A Y.Map of elements. It hands back the very objects it was given. */
  class SharedMap {
    var entries: map<string, Element>

    constructor ()
      ensures entries == map[]
    {
      entries := map[];
    }

    /** Every object sits under its own id, so no object sits under two. */
    ghost predicate Valid()
      reads this
    {
      forall id :: id in entries ==> entries[id].id == id
    }

    function Contents(): ById
      reads this, entries.Values
    {
      DataById(entries)
    }

    method Set(e: Element)
      requires Valid()
      modifies this
      ensures Valid() && entries == old(entries)[e.id := e]
      ensures Contents() == old(Contents())[e.id := e.Data()]
    {
      DataByIdUpdate(entries, e.id, e);
      entries := entries[e.id := e];
    }
  }

  /** Collect the scene objects whose version is newer than the shared copy. */
  method CollectElementUpdates(elements: seq<Element>, shared: SharedMap) returns (updates: seq<Element>)
    ensures DataOf(updates) == Collect(DataOf(elements), shared.Contents())
    ensures forall e :: e in updates ==> e in elements
  {
    updates := [];
    ghost var data, contents := DataOf(elements), shared.Contents();
    for i := 0 to |elements|
      invariant DataOf(updates) == Collect(data[..i], contents)
      invariant forall e :: e in updates ==> e in elements
    {
      var el := elements[i];
      CollectStep(data, contents, i);
      DataOfAppend(updates, el);
      if el.id !in shared.entries || el.version > shared.entries[el.id].version {
        updates := updates + [el];
      }
    }
    assert data[..|elements|] == data;
  }

  /** Store a clone of each update; no object of the caller ends up in the map. */
  method WriteElements(shared: SharedMap, updates: seq<Element>)
    requires shared.Valid()
    modifies shared
    ensures shared.Valid()
    ensures shared.Contents() == WriteAll(old(shared.Contents()), DataOf(updates))
    ensures forall id :: id in shared.entries ==>
              fresh(shared.entries[id]) || (id in old(shared.entries) && shared.entries[id] == old(shared.entries)[id])
  {
    ghost var data, start := DataOf(updates), shared.Contents();
    for i := 0 to |updates|
      invariant shared.Valid()
      invariant shared.Contents() == WriteAll(start, data[..i])
      invariant forall id :: id in shared.entries ==>
                  fresh(shared.entries[id])
                  || (id in old(shared.entries) && shared.entries[id] == old(shared.entries)[id])
    {
      var clone := StructuredClone(updates[i]);
      WriteStep(start, data, i);
      shared.Set(clone);
    }
    assert data[..|updates|] == data;
  }

  /** Some listing of a map's values, each key once: the order of a Y.Map does not matter. */
  ghost predicate Lists(els: seq<ElementData>, m: ById) {
    && UniqueIds(els)
    && (forall e :: e in els ==> e.id in m && m[e.id] == e)
    && (forall id :: id in m ==> m[id] in els)
  }

  /** Read every shared element as a clone, in some order. */
  method ReadElements(shared: SharedMap) returns (els: seq<Element>)
    requires shared.Valid()
    ensures Lists(DataOf(els), shared.Contents())
    ensures Distinct(els) && forall e :: e in els ==> fresh(e)
  {
    els := [];
    var left := shared.entries.Keys;
    while left != {}
      invariant left <= shared.entries.Keys
      invariant forall e :: e in els ==> fresh(e)
      invariant Distinct(els)
      invariant UniqueIds(DataOf(els))
      invariant forall e :: e in DataOf(els) ==>
                  e.id in shared.entries && e.id !in left && shared.entries[e.id].Data() == e
      invariant forall id :: id in shared.entries && id !in left ==> shared.entries[id].Data() in DataOf(els)
      decreases left
    {
      var id :| id in left;
      var clone := StructuredClone(shared.entries[id]);
      DataOfAppend(els, clone);
      els := els + [clone];
      left := left - {id};
    }
  }
}
