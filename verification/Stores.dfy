/** memory.go on the heap: scenes as append-only histories of cloned versions, and cloned blobs. */
module Stores {
  import opened Options
  import opened Spec = SessionSpec
  import Runs = SessionRuns

  type Bytes = Spec.Bytes

  /** A Version of the source: three slices, here the arrays behind them. */
  datatype Slices = Slices(elements: array<bv8>, appState: array<bv8>, fileIDs: array<string>)
  {
    ghost function Arrays(): set<object> {
      {elements, appState, fileIDs}
    }

    ghost predicate Within(bytes: set<array<bv8>>, ids: set<array<string>>) {
      elements in bytes && appState in bytes && fileIDs in ids
    }

    ghost function Data(): Payload
      reads elements, appState, fileIDs
    {
      Payload(elements[..], appState[..], fileIDs[..])
    }
  }

  /** slices.Clone. */
  method Clone<T(0)>(a: array<T>) returns (c: array<T>)
    ensures fresh(c) && c[..] == a[..]
  {
    c := new T[a.Length];
    for i := 0 to a.Length
      invariant c[..i] == a[..i]
    {
      c[i] := a[i];
    }
  }

  method CloneVersion(v: Slices) returns (c: Slices)
    ensures c.Data() == v.Data() && fresh(c.Arrays())
  {
    var elements := Clone(v.elements);
    var appState := Clone(v.appState);
    var fileIDs := Clone(v.fileIDs);
    c := Slices(elements, appState, fileIDs);
  }

  datatype MemVersion = MemVersion(id: string, savedBy: string, data: Slices)
  {
    ghost function Saved(): Version
      reads data.Arrays()
    {
      Version(id, savedBy, data.Data())
    }
  }

  /** Stored versions hold this history, in arrays among these. */
  ghost predicate Holds(versions: seq<MemVersion>, history: seq<Version>,
                        bytes: set<array<bv8>>, ids: set<array<string>>)
    reads bytes, ids
  {
    && |versions| == |history|
    && forall i :: 0 <= i < |versions| ==>
         && versions[i].data.Within(bytes, ids)
         && versions[i].Saved() == history[i]
  }

  lemma HoldsAmongMore(versions: seq<MemVersion>, history: seq<Version>,
                       bytes: set<array<bv8>>, ids: set<array<string>>,
                       moreBytes: set<array<bv8>>, moreIDs: set<array<string>>)
    requires Holds(versions, history, bytes, ids) && bytes <= moreBytes && ids <= moreIDs
    ensures Holds(versions, history, moreBytes, moreIDs)
  {
  }

  /** A stored scene. `history` is what its versions hold. */
  class MemScene {
    const id: string
    const createdBy: string
    var name: string
    var versions: seq<MemVersion>
    ghost var history: seq<Version>

    constructor (id: string, name: string, createdBy: string, first: MemVersion)
      ensures this.id == id && versions == [first] && history == [first.Saved()]
      ensures View() == Scene(name, createdBy, [first.Saved()])
    {
      this.id, this.name, this.createdBy := id, name, createdBy;
      versions, history := [first], [first.Saved()];
    }

    ghost function View(): Scene
      reads this`name, this`history
    {
      Scene(name, createdBy, history)
    }

    /** Append a version; its arrays are handed over. */
    method Append(v: MemVersion, ghost bytes: set<array<bv8>>, ghost ids: set<array<string>>)
      requires Holds(versions, history, bytes, ids) && v.data.Within(bytes, ids)
      modifies this`versions, this`history
      ensures Holds(versions, history, bytes, ids)
      ensures View() == old(View()).(versions := old(history) + [v.Saved()])
    {
      versions, history := versions + [v], history + [v.Saved()];
    }

    /** The first version with the id, as a clone. */
    method Find(versionID: string, ghost bytes: set<array<bv8>>, ghost ids: set<array<string>>)
      returns (v: Option<Slices>)
      requires Holds(versions, history, bytes, ids)
      ensures v.None? <==> Runs.Fetch(history, versionID).Missing?
      ensures v.Some? ==> Runs.Fetch(history, versionID) == Runs.Data(v.value.Data())
      ensures v.Some? ==> fresh(v.value.Arrays())
    {
      for i := 0 to |versions|
        invariant Runs.Fetch(history, versionID) == Runs.Fetch(history[i..], versionID)
      {
        if versions[i].id == versionID {
          var data := CloneVersion(versions[i].data);
          return Some(data);
        }
      }
      return None;
    }
  }

  class MemStore {
    var scenes: map<string, MemScene>
    ghost var bytes: set<array<bv8>>     // the arrays of all stored versions
    ghost var ids: set<array<string>>

    constructor ()
      ensures Valid() && View() == map[]
    {
      scenes, bytes, ids := map[], {}, {};
    }

    ghost predicate Valid()
      reads this, scenes.Values`versions, scenes.Values`history, bytes, ids
    {
      forall id :: id in scenes ==> scenes[id].id == id && Holds(scenes[id].versions, scenes[id].history, bytes, ids)
    }

    /** The arrays that hold stored data. */
    ghost function Arrays(): set<object>
      reads this
    {
      bytes + ids
    }

    ghost function View(): map<string, Scene>
      reads this`scenes, scenes.Values`name, scenes.Values`history
    {
      map id | id in scenes :: scenes[id].View()
    }

    /** Clone a version into arrays of the store's own. `mine` are any objects of the caller's: none of them comes to
        hold stored data. */
    method Keep(id: string, savedBy: string, v: Slices, ghost mine: set<object>) returns (kept: MemVersion)
      requires Valid()
      requires mine !! bytes && mine !! ids
      modifies this`bytes, this`ids
      ensures Valid() && View() == old(View()) && kept.data.Within(bytes, ids)
      ensures kept.Saved() == Version(id, savedBy, v.Data())
      ensures mine !! bytes && mine !! ids
    {
      var clone := CloneVersion(v);
      kept := MemVersion(id, savedBy, clone);
      ghost var moreBytes, moreIDs := bytes + {clone.elements, clone.appState}, ids + {clone.fileIDs};
      forall s | s in scenes.Values ensures Holds(s.versions, s.history, moreBytes, moreIDs) {
        HoldsAmongMore(s.versions, s.history, bytes, ids, moreBytes, moreIDs);
      }
      bytes, ids := moreBytes, moreIDs;
    }

    method Enter(scene: MemScene)
      requires Valid() && scene.id !in scenes && Holds(scene.versions, scene.history, bytes, ids)
      modifies this`scenes
      ensures Valid() && forall s :: s in scenes.Values ==> s in old(scenes).Values || s == scene
      ensures View() == old(View())[scene.id := scene.View()]
    {
      scenes := scenes[scene.id := scene];
    }

    method CreateScene(name: string, savedBy: string, v: Slices, newScene: string, newVersion: string,
                       ghost mine: set<object>)
      requires Valid() && newScene !in scenes
      requires mine !! bytes && mine !! ids
      modifies this
      ensures Valid()
      ensures View() == old(View())[newScene := Scene(name, savedBy, [Version(newVersion, savedBy, v.Data())])]
      ensures mine !! bytes && mine !! ids
      ensures forall s :: s in scenes.Values ==> s in old(scenes).Values || fresh(s)
    {
      var kept := Keep(newVersion, savedBy, v, mine);
      var scene := new MemScene(newScene, name, savedBy, kept);
      assert scene.View() == Scene(name, savedBy, [Version(newVersion, savedBy, v.Data())]);
      Enter(scene);
    }

    method Append(scene: MemScene, kept: MemVersion)
      requires Valid() && scene.id in scenes && scenes[scene.id] == scene && kept.data.Within(bytes, ids)
      modifies scene`versions, scene`history
      ensures Valid()
      ensures View() == old(View())[scene.id := old(View())[scene.id].(
                          versions := old(View())[scene.id].versions + [kept.Saved()])]
    {
      scene.Append(kept, bytes, ids);
    }

    method AddVersion(sceneID: string, savedBy: string, v: Slices, newVersion: string, ghost mine: set<object>)
      returns (ok: bool)
      requires Valid()
      requires mine !! bytes && mine !! ids
      modifies this`bytes, this`ids, scenes.Values`versions, scenes.Values`history
      ensures Valid()
      ensures ok == (sceneID in scenes)
      ensures !ok ==> View() == old(View())
      ensures ok ==> View() == old(View())[sceneID := old(View())[sceneID].(
                                 versions := old(View())[sceneID].versions
                                           + [Version(newVersion, savedBy, old(v.Data()))])]
      ensures mine !! bytes && mine !! ids
    {
      if sceneID !in scenes { return false; }
      var kept := Keep(newVersion, savedBy, v, mine);
      Append(scenes[sceneID], kept);
      ok := true;
    }

    method RenameScene(sceneID: string, name: string) returns (ok: bool)
      requires Valid()
      modifies scenes.Values`name
      ensures Valid()
      ensures ok == (sceneID in scenes)
      ensures View() == if ok then old(View())[sceneID := old(View())[sceneID].(name := name)] else old(View())
    {
      if sceneID !in scenes { return false; }
      scenes[sceneID].name := name;
      ok := true;
    }

    method DeleteScene(sceneID: string) returns (ok: bool)
      requires Valid()
      modifies this`scenes
      ensures Valid()
      ensures ok == (sceneID in old(scenes)) && scenes == old(scenes) - {sceneID}
      ensures View() == old(View()) - {sceneID}
    {
      ok := sceneID in scenes;
      scenes := scenes - {sceneID};
    }

    method GetVersion(sceneID: string, versionID: string) returns (v: Option<Slices>)
      requires Valid()
      ensures v.None? <==> sceneID !in scenes || Runs.Fetch(View()[sceneID].versions, versionID).Missing?
      ensures v.Some? ==>
                sceneID in scenes && Runs.Fetch(View()[sceneID].versions, versionID) == Runs.Data(v.value.Data())
      ensures v.Some? ==> fresh(v.value.Arrays())
    {
      if sceneID !in scenes { return None; }
      v := scenes[sceneID].Find(versionID, bytes, ids);
    }
  }

  // ---- blobs -----------------------------------------------------------------------------------------

  /** A stored blob: an image file's bytes, or the published scene, whose JSON is kept as the value it encodes. */
  datatype Stored = Raw(data: array<bv8>) | Json(scene: Payload)

  class MemBlobStore {
    var blobs: map<string, Stored>
    ghost var contents: map<string, Blob>
    ghost var buffers: set<array<bv8>>

    constructor ()
      ensures Valid() && contents == map[] && buffers == {}
    {
      blobs, contents, buffers := map[], map[], {};
    }

    ghost predicate Valid()
      reads this, buffers
    {
      && blobs.Keys == contents.Keys
      && forall p :: p in blobs ==>
           match blobs[p]
           case Raw(data) => data in buffers && contents[p] == File(data[..])
           case Json(scene) => contents[p] == Published(scene)
    }

    method Exists(path: string) returns (found: bool)
      requires Valid()
      ensures found == (path in contents)
    {
      found := path in blobs;
    }

    /** Store a clone of the bytes. */
    method Put(path: string, data: array<bv8>)
      requires Valid()
      modifies this
      ensures Valid() && contents == old(contents)[path := File(data[..])]
      ensures fresh(buffers - old(buffers))
    {
      var clone := Clone(data);
      blobs, contents := blobs[path := Raw(clone)], contents[path := File(clone[..])];
      buffers := buffers + {clone};
    }

    method PutPublished(path: string, scene: Payload)
      requires Valid()
      modifies this
      ensures Valid() && contents == old(contents)[path := Published(scene)] && buffers == old(buffers)
    {
      blobs, contents := blobs[path := Json(scene)], contents[path := Published(scene)];
    }
  }

  // ---- deep copies ---------------------------------------------------------------------------------------

  /** The owner of three arrays writes over them. */
  method Scribble(v: Slices, junk: bv8, id: string)
    modifies v.elements, v.appState, v.fileIDs
  {
    for i := 0 to v.elements.Length { v.elements[i] := junk; }
    for i := 0 to v.appState.Length { v.appState[i] := junk; }
    for i := 0 to v.fileIDs.Length { v.fileIDs[i] := id; }
  }

  /** Arrays that are not the store's can be written over: the store holds what it held. */
  method ScribbleOutside(store: MemStore, v: Slices, junk: bv8, id: string)
    requires store.Valid() && v.Arrays() !! store.Arrays()
    modifies v.elements, v.appState, v.fileIDs
    ensures store.Valid() && store.View() == old(store.View())
  {
    Scribble(v, junk, id);
  }

  /** Fetch a version, and write over what came back. */
  method FetchAndScribble(store: MemStore, sceneID: string, versionID: string, junk: bv8, id: string)
    requires store.Valid()
    ensures store.Valid() && store.View() == old(store.View())
  {
    var got := store.GetVersion(sceneID, versionID);
    if got.Some? {
      ScribbleOutside(store, got.value, junk, id);
    }
  }
}
