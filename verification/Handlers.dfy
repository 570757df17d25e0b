/** The HTTP handlers on the heap: registry, store and blobs updated in sequence, each handler computing its
    step of SessionSpec. Every caller is an admin; the ids drawn at random are passed in. `mine` are any objects of
    the caller's: none of them comes to hold stored data, so it can go on writing to them. */
module Handlers {
  import opened Spec = SessionSpec
  import opened Options
  import Laws = SessionLaws
  import Rooms
  import Runs = SessionRuns
  import SortedIds
  import opened Stores

  /** The bytes behind the files of a request. */
  ghost function FilesData(files: map<string, array<bv8>>): (data: map<string, Spec.Bytes>)
    reads files.Values
    ensures data.Keys == files.Keys
  {
    map id | id in files :: files[id][..]
  }

  /** validFileID: scan for a character outside the safe alphabet. */
  method CheckFileID(id: string) returns (ok: bool)
    ensures ok == ValidFileID(id)
    ensures ok <==> 1 <= |id| <= 128 && forall i :: 0 <= i < |id| ==> id[i] in Laws.SAFE
  {
    Laws.ValidIdsAreSafe(id);
    if id == "" || |id| > MAX_FILE_ID { return false; }
    for i := 0 to |id|
      invariant forall j :: 0 <= j < i ==> FileIDChar(id[j])
    {
      if !FileIDChar(id[i]) { return false; }
    }
    return true;
  }

  /** The ids of the files of a request, checked and sorted. */
  method CheckedIDs(files: map<string, array<bv8>>) returns (ids: seq<string>, ok: bool)
    ensures ok == forall id :: id in files ==> ValidFileID(id)
    ensures ok ==> ids == SortedIds.SortedList(files.Keys)
  {
    ids := [];
    var left := files.Keys;
    while left != {}
      invariant left <= files.Keys && SortedIds.Members(ids) == files.Keys - left
      invariant forall id :: id in files && id !in left ==> ValidFileID(id)
      decreases left
    {
      var id :| id in left;
      ok := CheckFileID(id);
      if !ok { return [], false; }
      assert SortedIds.Members(ids + [id]) == SortedIds.Members(ids) + {id};
      ids := ids + [id];
      left := left - {id};
    }
    assert SortedIds.Members(ids) == files.Keys;
    ids := SortedIds.Sort(ids);
    ok := true;
  }

  /** The canvas a request carries. */
  ghost function CanvasOf(elements: array<bv8>, appState: array<bv8>, files: map<string, array<bv8>>): Canvas
    reads elements, appState, files.Values
  {
    Canvas(elements[..], appState[..], FilesData(files))
  }

  method NewSlices(elements: array<bv8>, appState: array<bv8>, ids: seq<string>) returns (v: Slices)
    ensures v.Data() == Payload(elements[..], appState[..], ids)
    ensures v.elements == elements && v.appState == appState && fresh(v.fileIDs)
  {
    var fileIDs := new string[|ids|](i requires 0 <= i < |ids| => ids[i]);
    assert fileIDs[..] == ids;
    v := Slices(elements, appState, fileIDs);
  }

  class App {
    const registry: Rooms.Registry
    const store: MemStore
    const blobs: MemBlobStore

    constructor ()
      ensures Valid() && View() == EMPTY
      ensures fresh(registry) && fresh(store) && fresh(blobs)
    {
      registry := new Rooms.Registry();
      store := new MemStore();
      blobs := new MemBlobStore();
    }

    ghost predicate Valid()
      reads registry, registry.rooms.Values`sceneID, registry.bySceneID.Values`sceneID, store,
            store.scenes.Values`versions, store.scenes.Values`history, store.bytes, store.ids, blobs, blobs.buffers
    {
      registry.Valid() && store.Valid() && blobs.Valid()
    }

    ghost function View(): State
      reads registry, registry.rooms.Values`name, registry.rooms.Values`sceneID,
            store`scenes, store.scenes.Values`name, store.scenes.Values`history, blobs`contents
    {
      State(registry.Rooms(), registry.Index(), store.View(), blobs.contents)
    }

    /** The room with an id, if there is one, and the room live for a scene. */
    ghost function RoomAt(id: string): (rooms: set<Rooms.Room>)
      reads registry`rooms
    {
      if id in registry.rooms then {registry.rooms[id]} else {}
    }

    ghost function LiveAt(sceneID: string): (rooms: set<Rooms.Room>)
      reads registry`bySceneID
    {
      if sceneID in registry.bySceneID then {registry.bySceneID[sceneID]} else {}
    }

    // ---- rooms -------------------------------------------------------------------------------------------

    method CreateRoom(name: string, sceneID: string, newRoom: string) returns (answer: Response)
      requires Valid() && newRoom !in registry.rooms
      modifies registry
      ensures Valid()
      ensures forall r :: r in registry.rooms.Values ==>
                r in old(registry.rooms.Values) || (fresh(r) && r.clients == {})
      ensures View() == DoCreate(old(View()), name, sceneID, newRoom) && answer == RoomIs(newRoom, false)
    {
      var room := registry.Create(name, sceneID, newRoom);
      answer := RoomIs(room.id, false);
    }

    method Open(sceneID: string, name: string, newRoom: string) returns (answer: Response)
      requires Valid() && newRoom !in registry.rooms && sceneID != ""
      modifies registry
      ensures Valid()
      ensures forall r :: r in registry.rooms.Values ==>
                r in old(registry.rooms.Values) || (fresh(r) && r.clients == {})
      ensures (View(), answer) == DoOpen(old(View()), sceneID, name, newRoom)
    {
      var room, created := registry.GetOrCreateForScene(sceneID, name, newRoom);
      answer := RoomIs(room.id, !created);
    }

    /** The defensive close of one room changes its connections, and nothing of the application's state. */
    method CloseConnections(room: Rooms.Room)
      requires Valid()
      modifies room`clients, room.clients
      ensures Valid() && View() == old(View())
      ensures room.clients == {}
      ensures forall c :: c in old(room.clients) ==> Rooms.HandedBoth(old(c.View()), c.View())
    {
      room.CloseAll();
    }

    method DropRoom(id: string)
      requires Valid() && id in registry.rooms
      modifies registry
      ensures Valid() && View() == DoClose(old(View()), id).0
      ensures registry.rooms == old(registry.rooms) - {id}
    {
      registry.Delete(id);
    }

    /** Run the defensive close on the room, then remove it. */
    method CloseRoom(id: string) returns (answer: Response)
      requires Valid()
      modifies registry, RoomAt(id)`clients, if id in registry.rooms then registry.rooms[id].clients else {}
      ensures Valid()
      ensures registry.rooms == old(registry.rooms) - {id}
      ensures (View(), answer) == DoClose(old(View()), id)
      ensures id in old(registry.rooms) ==> old(registry.rooms)[id].clients == {}
      ensures forall c :: id in old(registry.rooms) && c in old(registry.rooms[id].clients) ==>
                Rooms.HandedBoth(old(c.View()), c.View())
    {
      var room := registry.Get(id);
      if room == null { return NotFound; }
      ghost var before := View();
      CloseConnections(room);
      assert View() == before;
      DropRoom(id);
      answer := Done;
    }

    // ---- scenes --------------------------------------------------------------------------------------------

    method RemoveStored(sceneID: string) returns (ok: bool)
      requires Valid()
      modifies store`scenes
      ensures Valid() && ok == (sceneID in old(View()).scenes)
      ensures store.scenes.Values <= old(store.scenes.Values)
      ensures View() == if ok then old(View()).(scenes := old(View()).scenes - {sceneID}) else old(View())
    {
      assert sceneID !in store.View() ==> store.View() - {sceneID} == store.View();
      ok := store.DeleteScene(sceneID);
    }

    method DeleteScene(sceneID: string) returns (answer: Response)
      requires Valid()
      modifies store`scenes
      ensures Valid()
      ensures store.scenes.Values <= old(store.scenes.Values)
      ensures (View(), answer) == DoDelete(old(View()), sceneID)
    {
      var live := registry.RoomForScene(sceneID);
      if live != null { return Conflict; }
      var ok := RemoveStored(sceneID);
      answer := if ok then Done else NotFound;
    }

    // ---- saves ---------------------------------------------------------------------------------------------

    method PutMissing(id: string, data: array<bv8>, ghost mine: set<object>)
      requires blobs.Valid()
      requires mine !! blobs.buffers
      modifies blobs
      ensures mine !! blobs.buffers
      ensures blobs.Valid() && blobs.contents == PutNew(old(blobs.contents), id, data[..])
    {
      var found := blobs.Exists(FilePath(id));
      if !found { blobs.Put(FilePath(id), data); }
    }

    method PutFiles(ids: seq<string>, files: map<string, array<bv8>>, ghost mine: set<object>)
      requires blobs.Valid() && forall id :: id in ids ==> id in files
      requires mine !! blobs.buffers
      modifies blobs
      ensures mine !! blobs.buffers
      ensures blobs.Valid() && blobs.contents == PutAll(old(blobs.contents), FilesData(files), ids)
    {
      ghost var start, data := blobs.contents, FilesData(files);
      for i := 0 to |ids|
        invariant blobs.Valid() && FilesData(files) == data
        invariant blobs.contents == PutAll(start, data, ids[..i]) && mine !! blobs.buffers
      {
        PutMissing(ids[i], files[ids[i]], mine);
        assert ids[..i + 1][..i] == ids[..i];
      }
      assert ids[..|ids|] == ids;
    }

    /** Store the files of a request that are not there yet, in the order of their ids. */
    method UploadFiles(files: map<string, array<bv8>>, ghost mine: set<object>) returns (ids: seq<string>, ok: bool)
      requires blobs.Valid()
      requires mine !! blobs.buffers
      modifies blobs
      ensures mine !! blobs.buffers
      ensures blobs.Valid()
      ensures ok == old(ValidFiles(FilesData(files)))
      ensures ok ==> ids == SortedIds.SortedList(files.Keys)
      ensures blobs.contents == if ok then old(Upload(blobs.contents, FilesData(files))) else old(blobs.contents)
    {
      ids, ok := CheckedIDs(files);
      if !ok { return; }
      SortedIds.InMembers(ids);
      PutFiles(ids, files, mine);
    }

    method StoreFiles(files: map<string, array<bv8>>, ghost mine: set<object>) returns (ids: seq<string>, ok: bool)
      requires Valid()
      requires mine !! blobs.buffers
      modifies blobs
      ensures mine !! blobs.buffers
      ensures Valid()
      ensures ok == old(ValidFiles(FilesData(files)))
      ensures ok ==> ids == SortedIds.SortedList(files.Keys)
      ensures View() == if ok then old(View().(blobs := Upload(View().blobs, FilesData(files)))) else old(View())
    {
      ids, ok := UploadFiles(files, mine);
    }

    method CreateScene(name: string, savedBy: string, v: Slices, newScene: string, newVersion: string,
                       ghost mine: set<object>)
      requires Valid() && newScene !in store.scenes
      requires mine !! store.bytes && mine !! store.ids
      modifies store
      ensures mine !! store.bytes && mine !! store.ids
      ensures Valid()
      ensures forall s :: s in store.scenes.Values ==> s in old(store.scenes.Values) || fresh(s)
      ensures View() == old(View()).(
                scenes := old(View().scenes)[newScene :=
                  Scene(name, savedBy, [Version(newVersion, savedBy, v.Data())])])
    {
      store.CreateScene(name, savedBy, v, newScene, newVersion, mine);
    }

    /** Bind a room to the scene its first save created. */
    method BindSaved(room: Rooms.Room, sceneID: string)
      requires Valid() && room.id in registry.rooms && registry.rooms[room.id] == room
      requires room.sceneID == "" && sceneID != ""
      modifies registry`bySceneID, room`sceneID
      ensures Valid()
      ensures View() == old(View()).(
                rooms := old(View().rooms)[room.id := Spec.Room(room.name, sceneID)],
                index := old(View().index)[sceneID := room.id])
    {
      registry.BindSaved(room, sceneID);
    }

    /** The first save of a room: create the scene under the room's title, and bind the room to it. */
    method FirstSave(room: Rooms.Room, savedBy: string, v: Slices, newScene: string, newVersion: string,
                     ghost mine: set<object>)
      requires Valid() && room.id in registry.rooms && registry.rooms[room.id] == room && room.sceneID == ""
      requires newScene != "" && newScene !in store.scenes
      requires mine !! store.bytes && mine !! store.ids
      modifies registry`bySceneID, room`sceneID, store
      ensures mine !! store.bytes && mine !! store.ids
      ensures Valid()
      ensures forall s :: s in store.scenes.Values ==> s in old(store.scenes.Values) || fresh(s)
      ensures View() == Record(old(View()), room.id, savedBy, v.Data(), newScene, newVersion).0
    {
      CreateScene(room.name, savedBy, v, newScene, newVersion, mine);
      BindSaved(room, newScene);
    }

    method AddVersion(sceneID: string, savedBy: string, v: Slices, newVersion: string, ghost mine: set<object>)
      returns (ok: bool)
      requires Valid()
      requires mine !! store.bytes && mine !! store.ids
      modifies store`bytes, store`ids, store.scenes.Values`versions, store.scenes.Values`history
      ensures mine !! store.bytes && mine !! store.ids
      ensures Valid() && ok == (sceneID in old(View()).scenes)
      ensures ok ==> View() == old(View()).(
                scenes := old(View()).scenes[sceneID := old(View()).scenes[sceneID].(
                            versions := old(View()).scenes[sceneID].versions
                                      + [Version(newVersion, savedBy, old(v.Data()))])])
      ensures !ok ==> View() == old(View())
    {
      ok := store.AddVersion(sceneID, savedBy, v, newVersion, mine);
    }

    method RecordVersion(room: Rooms.Room, savedBy: string, v: Slices, newScene: string, newVersion: string,
                         ghost mine: set<object>)
      returns (answer: Response)
      requires Valid() && room.id in registry.rooms && registry.rooms[room.id] == room
      requires newScene != "" && newScene !in store.scenes
      requires mine !! store.bytes && mine !! store.ids
      modifies registry`bySceneID, room`sceneID, store, store.scenes.Values`versions, store.scenes.Values`history
      ensures mine !! store.bytes && mine !! store.ids
      ensures Valid()
      ensures forall s :: s in store.scenes.Values ==> s in old(store.scenes.Values) || fresh(s)
      ensures (View(), answer) == Record(old(View()), room.id, savedBy, old(v.Data()), newScene, newVersion)
    {
      var sceneID := room.sceneID;
      if sceneID == "" {
        FirstSave(room, savedBy, v, newScene, newVersion, mine);
        return Saved(newScene, newVersion);
      }
      var ok := AddVersion(sceneID, savedBy, v, newVersion, mine);
      answer := if ok then Saved(sceneID, newVersion) else ServerError;
    }

    method SaveStored(room: Rooms.Room, savedBy: string, elements: array<bv8>, appState: array<bv8>, ids: seq<string>,
                      newScene: string, newVersion: string, ghost mine: set<object>) returns (answer: Response)
      requires Valid() && room.id in registry.rooms && registry.rooms[room.id] == room
      requires newScene != "" && newScene !in store.scenes
      requires mine !! store.bytes && mine !! store.ids
      modifies registry`bySceneID, room`sceneID, store, store.scenes.Values`versions, store.scenes.Values`history
      ensures mine !! store.bytes && mine !! store.ids
      ensures Valid()
      ensures forall s :: s in store.scenes.Values ==> s in old(store.scenes.Values) || fresh(s)
      ensures (View(), answer)
           == Record(old(View()), room.id, savedBy, old(Payload(elements[..], appState[..], ids)), newScene, newVersion)
    {
      ghost var before := View();
      var v := NewSlices(elements, appState, ids);
      assert View() == before && store.bytes == old(store.bytes);
      answer := RecordVersion(room, savedBy, v, newScene, newVersion, mine);
    }

    /** Upload the files of a canvas, then record it. */
    method SaveCanvas(room: Rooms.Room, savedBy: string, elements: array<bv8>, appState: array<bv8>,
                      files: map<string, array<bv8>>, newScene: string, newVersion: string, ghost mine: set<object>)
      returns (answer: Response)
      requires Valid() && room.id in registry.rooms && registry.rooms[room.id] == room
      requires newScene != "" && newScene !in store.scenes
      requires mine !! store.bytes && mine !! store.ids && mine !! blobs.buffers
      modifies registry`bySceneID, room`sceneID, store, store.scenes.Values`versions, store.scenes.Values`history, blobs
      ensures mine !! store.bytes && mine !! store.ids && mine !! blobs.buffers
      ensures Valid()
      ensures forall s :: s in store.scenes.Values ==> s in old(store.scenes.Values) || fresh(s)
      ensures var s, c := old(View()), old(CanvasOf(elements, appState, files));
              (View(), answer) == if ValidFiles(c.files)
                then Record(s.(blobs := Upload(s.blobs, c.files)), room.id, savedBy, PayloadOf(c), newScene, newVersion)
                else (s, BadRequest)
    {
      ghost var c := CanvasOf(elements, appState, files);
      var ids, ok := StoreFiles(files, mine);
      if !ok { return BadRequest; }
      assert PayloadOf(c) == Payload(elements[..], appState[..], ids);
      answer := SaveStored(room, savedBy, elements, appState, ids, newScene, newVersion, mine);
    }

    /** Save a room's canvas as a new version. */
    method Save(id: string, savedBy: string, elements: array<bv8>, appState: array<bv8>, files: map<string, array<bv8>>,
                newScene: string, newVersion: string, ghost mine: set<object>) returns (answer: Response)
      requires Valid() && newScene != "" && newScene !in store.scenes
      requires mine !! store.bytes && mine !! store.ids && mine !! blobs.buffers
      modifies registry`bySceneID, RoomAt(id)`sceneID, store,
               store.scenes.Values`versions, store.scenes.Values`history, blobs
      ensures mine !! store.bytes && mine !! store.ids && mine !! blobs.buffers
      ensures Valid()
      ensures forall s :: s in store.scenes.Values ==> s in old(store.scenes.Values) || fresh(s)
      ensures (View(), answer)
           == DoSave(old(View()), id, savedBy, old(CanvasOf(elements, appState, files)), newScene, newVersion)
    {
      var room := registry.Get(id);
      if room == null { return NotFound; }
      if elements.Length == 0 { return BadRequest; }
      answer := SaveCanvas(room, savedBy, elements, appState, files, newScene, newVersion, mine);
    }

    method PutPublished(scene: Payload)
      requires Valid()
      modifies blobs
      ensures Valid() && View() == old(View()).(blobs := old(View()).blobs[PUBLISHED_PATH := Published(scene)])
      ensures blobs.buffers == old(blobs.buffers)
    {
      blobs.PutPublished(PUBLISHED_PATH, scene);
    }

    /** Publish a room's canvas, overwriting what was published before. */
    method Publish(id: string, elements: array<bv8>, appState: array<bv8>, files: map<string, array<bv8>>,
                   ghost mine: set<object>)
      returns (answer: Response)
      requires Valid()
      requires mine !! blobs.buffers
      modifies blobs
      ensures mine !! blobs.buffers
      ensures Valid()
      ensures (View(), answer) == DoPublish(old(View()), id, old(CanvasOf(elements, appState, files)))
      ensures answer == Done ==>
                && "public/published-scene.json" in blobs.contents
                && blobs.contents["public/published-scene.json"].Published?
                && var p := blobs.contents["public/published-scene.json"].scene;
                   && p.elements == old(elements[..]) && p.appState == old(appState[..])
                   && SortedIds.Sorted(p.fileIDs) && forall i :: i in p.fileIDs <==> i in files
    {
      Runs.PayloadIsCanvas(CanvasOf(elements, appState, files));
      var room := registry.Get(id);
      if room == null { return NotFound; }
      if elements.Length == 0 { return BadRequest; }
      ghost var c := CanvasOf(elements, appState, files);
      var ids, ok := StoreFiles(files, mine);
      if !ok { return BadRequest; }
      assert PayloadOf(c) == Payload(elements[..], appState[..], ids);
      PutPublished(Payload(elements[..], appState[..], ids));
      answer := Done;
    }

    /** Fetch a saved version. */
    method GetVersion(sceneID: string, versionID: string) returns (v: Option<Slices>)
      requires Valid()
      ensures v.None? <==> Runs.Fetch(Runs.VersionsOf(View(), sceneID), versionID).Missing?
      ensures v.Some? ==> Runs.Fetch(Runs.VersionsOf(View(), sceneID), versionID) == Runs.Data(v.value.Data())
      ensures v.Some? ==> fresh(v.value.Arrays())
    {
      v := store.GetVersion(sceneID, versionID);
    }

    // ---- names ---------------------------------------------------------------------------------------------

    method SetName(room: Rooms.Room, name: string)
      requires Valid() && room.id in registry.rooms && registry.rooms[room.id] == room
      modifies room`name
      ensures Valid()
      ensures View() == old(View()).(rooms := old(View()).rooms[room.id := old(View()).rooms[room.id].(name := name)])
    {
      registry.SetName(room, name);
    }

    method RenameStored(sceneID: string, name: string) returns (ok: bool)
      requires Valid()
      modifies store.scenes.Values`name
      ensures Valid() && ok == (sceneID in old(View()).scenes)
      ensures View() == if ok then
                        old(View()).(scenes :=
                          old(View()).scenes[sceneID := old(View()).scenes[sceneID].(name := name)])
                        else old(View())
    {
      ok := store.RenameScene(sceneID, name);
    }

    method RenameRoom(id: string, name: string) returns (answer: Response)
      requires Valid()
      modifies RoomAt(id)`name
      ensures Valid()
      ensures (View(), answer) == DoRenameRoom(old(View()), id, name)
    {
      if name == "" { return BadRequest; }
      var room := registry.Get(id);
      if room == null { return NotFound; }
      SetName(room, name);
      answer := Done;
    }

    method RenameLive(sceneID: string, name: string)
      requires Valid()
      modifies LiveAt(sceneID)`name
      ensures Valid()
      ensures var s := old(View());
              View() == if sceneID in s.index && s.index[sceneID] in s.rooms
                        then s.(rooms := s.rooms[s.index[sceneID] := s.rooms[s.index[sceneID]].(name := name)]) else s
    {
      var live := registry.RoomForScene(sceneID);
      if live != null { SetName(live, name); }
    }

    /** Rename a stored scene, and the room live for it. */
    method RenameScene(sceneID: string, name: string) returns (answer: Response)
      requires Valid()
      modifies store.scenes.Values`name, LiveAt(sceneID)`name
      ensures Valid()
      ensures (View(), answer) == DoRenameScene(old(View()), sceneID, name)
    {
      if name == "" { return BadRequest; }
      var ok := RenameStored(sceneID, name);
      if !ok { return NotFound; }
      RenameLive(sceneID, name);
      answer := Done;
    }
  }
}
