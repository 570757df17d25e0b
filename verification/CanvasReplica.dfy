/** One client's canvas on the heap: a scene Excalidraw mutates in place, the client's copy of the shared
    map, and the historical versions it has loaded. Whole runs keep the three apart. */
module Replicas {
  import opened Elements
  import opened SyncSpec
  import opened Sync
  import opened Reconcile
  import opened Restore

  /** The values a replica holds: its scene, its shared map, and the historical elements it has loaded. */
  datatype View = View(scene: seq<ElementData>, shared: ById, loaded: seq<ElementData>)

  /** What can happen to a replica. */
  datatype Command =
    | Edit(index: nat, data: ElementData)               // Excalidraw mutates a scene element in place
    | Draw(data: ElementData)                           // a new element appears in the scene
    | Change                                            // onChange fires: handleChange publishes
    | Receive(updates: seq<ElementData>)                // a peer's transaction reaches the shared map
    | Restore(version: seq<ElementData>, stamps: Stamps) // a saved version is fetched and merged into the scene

  function Exec(r: Reconciler, v: View, c: Command): View
    requires PicksElements(r)
  {
    match c
    case Edit(i, d) => if i < |v.scene| && v.scene[i].id == d.id then v.(scene := v.scene[i := d]) else v
    case Draw(d) => v.(scene := v.scene + [d])
    case Change => v.(shared := Publish(v.shared, v.scene))
    case Receive(updates) =>
      var shared := WriteAll(v.shared, updates);
      v.(shared := shared, scene := Picked(v.scene, shared, r(v.scene, shared)))
    case Restore(version, stamps) =>
      v.(loaded := v.loaded + version,
         scene := Merge(v.scene, version, DrawStamps(stamps, |version| + |v.scene|)))
  }

  function ExecAll(r: Reconciler, v: View, commands: seq<Command>): View
    requires PicksElements(r)
  {
    if commands == [] then v
    else Exec(r, ExecAll(r, v, commands[..|commands| - 1]), commands[|commands| - 1])
  }

  /** Build element objects for values: decoded updates, parsed versions. */
  method NewElements(data: seq<ElementData>) returns (els: seq<Element>)
    ensures DataOf(els) == data
    ensures forall e :: e in els ==> fresh(e)
    ensures Distinct(els)
  {
    els := [];
    for i := 0 to |data|
      invariant DataOf(els) == data[..i]
      invariant Distinct(els) && forall e :: e in els ==> fresh(e)
    {
      var e := new Element(data[i]);
      DataOfAppend(els, e);
      els := els + [e];
    }
    assert data[..|data|] == data;
  }

  lemma ListedMap(els: seq<ElementData>, m: ById)
    requires Lists(els, m) && Keyed(m)
    ensures SceneMap(els) == m
  {
    SceneMapUnique(els);
  }

  /** readElements, its result indexed by id. */
  method ReadById(shared: SharedMap) returns (clones: map<string, Element>)
    requires shared.Valid()
    ensures DataById(clones) == shared.Contents()
    ensures forall id :: id in clones ==> fresh(clones[id]) && clones[id].id == id
  {
    var els := ReadElements(shared);
    ListedMap(DataOf(els), shared.Contents());
    clones := IndexById(els);
  }

  /** The object a pick names. */
  function Chosen(scene: seq<Element>, clones: map<string, Element>, p: Pick): Element
    requires if p.Local? then p.index < |scene| else p.id in clones
  {
    if p.Local? then scene[p.index] else clones[p.id]
  }

  /** The list reconcileElements returns: scene objects and clones, as picked. */
  method TakePicked(scene: seq<Element>, picks: seq<Pick>, clones: map<string, Element>) returns (els: seq<Element>)
    requires ValidPicks(picks, |scene|, clones.Keys)
    requires Distinct(scene) && forall id :: id in clones ==> clones[id].id == id && clones[id] !in scene
    ensures DataOf(els) == Picked(DataOf(scene), DataById(clones), picks)
    ensures Distinct(els)
    ensures forall e :: e in els ==> e in scene || e in clones.Values
  {
    els := [];
    for i := 0 to |picks|
      invariant |els| == i
      invariant forall k {:trigger els[k]} {:trigger picks[k]} :: 0 <= k < i ==>
                  picks[k] in picks && els[k] == Chosen(scene, clones, picks[k])
    {
      assert picks[i] in picks;
      els := els + [Chosen(scene, clones, picks[i])];
    }
    assert DataOf(els) == Picked(DataOf(scene), DataById(clones), picks);
    forall i, j | 0 <= i < j < |els| ensures els[i] != els[j] {
      assert picks[i] != picks[j];
    }
  }

  class Replica {
    const shared: SharedMap
    var scene: seq<Element>
    var loaded: seq<Element>
    var applyingRemote: bool

    constructor ()
      ensures Valid() && fresh(shared)
      ensures Values() == View([], map[], [])
    {
      shared := new SharedMap();
      scene, loaded, applyingRemote := [], [], false;
    }

    /** The clone discipline: no object of the shared map is held by the scene or loaded from history,
        and no loaded object is in the scene. */
    ghost predicate Separated()
      reads this, shared
    {
      && (forall id :: id in shared.entries ==> shared.entries[id] !in scene && shared.entries[id] !in loaded)
      && (forall e :: e in loaded ==> e !in scene)
    }

    ghost predicate Apart()
      reads this, shared
    {
      shared.Valid() && Distinct(scene) && Separated()
    }

    ghost predicate Valid()
      reads this, shared
    {
      Apart() && !applyingRemote
    }

    ghost function Values(): View
      reads this, shared, shared.entries.Values, scene, loaded
    {
      View(DataOf(scene), shared.Contents(), DataOf(loaded))
    }

    /** An in-place edit touches one scene object, and so neither the shared map nor the history. */
    method EditInPlace(i: nat, d: ElementData)
      requires Valid() && i < |scene| && scene[i].id == d.id
      modifies scene[i]
      ensures Valid()
      ensures Values() == old(Values()).(scene := old(DataOf(scene))[i := d])
    {
      assert scene[i] in scene && forall j :: 0 <= j < |scene| && j != i ==> scene[j] != scene[i];
      scene[i].Mutate(d);
    }

    method AddElement(d: ElementData)
      requires Valid()
      modifies this`scene
      ensures Valid()
      ensures Values() == old(Values()).(scene := old(DataOf(scene)) + [d])
      ensures forall e :: e in scene ==> e in old(scene) || fresh(e)
    {
      var e := new Element(d);
      DataOfAppend(scene, e);
      scene := scene + [e];
    }

    method PublishScene()
      requires Apart()
      modifies shared
      ensures Apart() && shared.Contents() == Publish(old(shared.Contents()), DataOf(scene))
    {
      ghost var data, contents := DataOf(scene), shared.Contents();
      var updates := CollectElementUpdates(scene, shared);
      WriteElements(shared, updates);
      assert shared.Contents() == Publish(contents, data);
      assert DataOf(scene) == data;
    }

    /** onChange: publishes, except while a remote apply is under way. */
    method HandleChange()
      requires Apart()
      modifies shared
      ensures Apart()
      ensures if applyingRemote then shared.entries == old(shared.entries)
              else shared.Contents() == Publish(old(shared.Contents()), DataOf(scene))
    {
      if applyingRemote { return; }
      PublishScene();
    }

    /** readElements, then reconcileElements: the list handed to updateScene. */
    method Reconciled(r: Reconciler) returns (out: seq<Element>)
      requires Apart() && PicksElements(r)
      ensures DataOf(out) == Picked(DataOf(scene), shared.Contents(), r(DataOf(scene), shared.Contents()))
      ensures Distinct(out) && forall e :: e in out ==> e in scene || fresh(e)
    {
      ghost var contents := shared.Contents();
      var clones := ReadById(shared);
      var picks := r(DataOf(scene), DataById(clones));
      assert contents == shared.Contents() == DataById(clones);
      out := TakePicked(scene, picks, clones);
    }

    /** Merge the shared elements into the scene, with the echo guard up. */
    method ApplyRemoteElements(r: Reconciler)
      requires Valid() && PicksElements(r)
      modifies this`scene, this`applyingRemote, shared
      ensures Valid() && shared.entries == old(shared.entries)
      ensures DataOf(scene) == Picked(old(DataOf(scene)), old(shared.Contents()),
                                      r(old(DataOf(scene)), old(shared.Contents())))
      ensures forall e :: e in scene ==> e in old(scene) || fresh(e)
    {
      applyingRemote := true;
      ghost var local, contents := DataOf(scene), shared.Contents();
      var out := Reconciled(r);
      assert DataOf(out) == Picked(local, contents, r(local, contents));
      scene := out;
      HandleChange(); // updateScene fires onChange
      applyingRemote := false;
      assert DataOf(scene) == Picked(local, contents, r(local, contents));
    }

    /** A peer's transaction sets entries of the shared map; its origin is not local, so the observer applies it. */
    method ReceiveUpdates(r: Reconciler, updates: seq<ElementData>)
      requires Valid() && PicksElements(r)
      modifies this`scene, this`applyingRemote, shared
      ensures Valid()
      ensures shared.Contents() == WriteAll(old(shared.Contents()), updates)
      ensures DataOf(scene) == Picked(old(DataOf(scene)), shared.Contents(),
                                      r(old(DataOf(scene)), shared.Contents()))
      ensures forall e :: e in scene ==> e in old(scene) || fresh(e)
    {
      ghost var local, after := DataOf(scene), WriteAll(shared.Contents(), updates);
      var decoded := NewElements(updates);
      WriteElements(shared, decoded);
      assert shared.Contents() == after && DataOf(scene) == local;
      ApplyRemoteElements(r);
    }

    /** restoreLiveVersion: fetch a version, merge it with the scene, and replace the scene wholesale. */
    method RestoreVersion(version: seq<ElementData>, stamps: seq<Stamp>)
      requires Valid() && |version| + |scene| <= |stamps|
      modifies this`scene, this`loaded
      ensures Valid()
      ensures DataOf(scene) == Merge(old(DataOf(scene)), version, stamps)
      ensures DataOf(loaded) == old(DataOf(loaded)) + version
      ensures forall e :: e in scene ==> e in old(scene) || fresh(e)
    {
      var fetched := NewElements(version);
      var merged := MergeRestoredElements(scene, fetched, stamps);
      DataOfConcat(loaded, fetched);
      loaded := loaded + fetched;
      scene := merged;
    }

    method Do(r: Reconciler, c: Command)
      requires Valid() && PicksElements(r)
      modifies this, shared, set e | e in scene
      ensures Valid()
      ensures Values() == Exec(r, old(Values()), c)
      ensures forall e :: e in scene ==> e in old(scene) || fresh(e)
    {
      match c
      case Edit(i, d) => if i < |scene| && scene[i].id == d.id { EditInPlace(i, d); }
      case Draw(d) => AddElement(d);
      case Change => HandleChange();
      case Receive(updates) => ReceiveUpdates(r, updates);
      case Restore(version, stamps) => RestoreVersion(version, DrawStamps(stamps, |version| + |scene|));
    }

    /** Any run of commands on the objects computes what it computes on values, and keeps the objects apart. */
    method Run(r: Reconciler, commands: seq<Command>)
      requires Valid() && PicksElements(r)
      modifies this, shared, set e | e in scene
      ensures Valid()
      ensures Values() == ExecAll(r, old(Values()), commands)
    {
      ghost var start := Values();
      for k := 0 to |commands|
        invariant Valid()
        invariant Values() == ExecAll(r, start, commands[..k])
        invariant forall e :: e in scene ==> e in old(scene) || fresh(e)
      {
        assert commands[..k + 1][..k] == commands[..k];
        Do(r, commands[k]);
      }
      assert commands[..|commands|] == commands;
    }
  }

  /** An edit leaves the shared copy alone, and the next change publishes it exactly when its version is
      above that copy's. */
  lemma EditWaitsForTheGate(r: Reconciler, v: View, i: nat, d: ElementData)
    requires PicksElements(r)
    requires i < |v.scene| && v.scene[i].id == d.id && UniqueIds(v.scene)
    ensures var edited := Exec(r, v, Edit(i, d));
            && edited.shared == v.shared && edited.loaded == v.loaded
            && (d in Collect(edited.scene, edited.shared) <==> d.id !in v.shared || v.shared[d.id].version < d.version)
            && var published := Exec(r, edited, Change).shared;
            && d.id in published
            && (published[d.id] == d <==> GateOpen(d, v.shared) || v.shared[d.id] == d)
  {
    var edited := Exec(r, v, Edit(i, d));
    assert edited.scene[i] == d;
    assert UniqueIds(edited.scene);
    CollectMembers(edited.scene, edited.shared);
    PublishIsNewest(v.shared, edited.scene);
    SceneMapUnique(edited.scene);
  }

  /** Why the clone is needed: with the live object itself in the map, no edit ever passes the gate. */
  method StoringTheLiveObject(shared: SharedMap, live: Element, d: ElementData)
    requires live.id == d.id
    modifies shared, live
    ensures live.Data() == d && Collect([live.Data()], shared.Contents()) == []
  {
    shared.entries := shared.entries[live.id := live];
    live.Mutate(d);
    CollectNothing([live.Data()], shared.Contents());
  }
}
