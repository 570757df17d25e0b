/** What every run of handlers keeps: one live room per document, live documents stay stored, history is
    append-only, files stay available. */
module SessionRuns {
  import opened SessionSpec
  import opened SessionUploads
  import opened SortedIds

  // ---- the index -----------------------------------------------------------------------------------

  /** The scene's entry names the room. */
  ghost predicate Names(s: State, scene: string, room: string) {
    scene in s.index && s.index[scene] == room
  }

  /** Every index entry names a registered room bound to exactly that scene. */
  ghost predicate IndexSound(s: State) {
    forall scene :: scene in s.index ==>
      scene != "" && s.index[scene] in s.rooms && s.rooms[s.index[scene]].sceneID == scene
  }

  /** Every bound room is the indexed one of its scene. */
  ghost predicate IndexComplete(s: State) {
    forall id :: id in s.rooms && s.rooms[id].sceneID != "" ==>
      s.rooms[id].sceneID in s.index && s.index[s.rooms[id].sceneID] == id
  }

  /** Brute force: the registered rooms bound to a scene. */
  ghost function RoomsOf(s: State, scene: string): set<string> {
    set id | id in s.rooms && s.rooms[id].sceneID == scene
  }

  lemma SaveKeepsSound(s: State, r: Request)
    requires IndexSound(s) && Fresh(s, r) && r.Save?
    ensures IndexSound(Handle(s, r).0)
  {
  }

  lemma StepKeepsSound(s: State, r: Request)
    requires IndexSound(s) && Fresh(s, r)
    ensures IndexSound(Handle(s, r).0)
  {
    if r.Save? { SaveKeepsSound(s, r); }
  }

  lemma StepKeepsComplete(s: State, r: Request)
    requires IndexSound(s) && IndexComplete(s) && Fresh(s, r)
    requires r.CreateRoom? ==> r.sceneID == ""
    ensures IndexComplete(Handle(s, r).0)
  {
  }

  /** Even with legacy creates, no handler run leaves a stale index entry. */
  lemma {:induction false} IndexIsSound(requests: seq<Request>, k: nat)
    requires FreshRun(requests) && k <= |requests|
    ensures IndexSound(At(requests, k))
  {
    if k > 0 {
      IndexIsSound(requests, k - 1);
      NextState(requests, k - 1);
      StepKeepsSound(At(requests, k - 1), requests[k - 1]);
    }
  }

  lemma {:induction false} IndexIsComplete(requests: seq<Request>, k: nat)
    requires FreshRun(requests) && NoLegacy(requests) && k <= |requests|
    ensures IndexSound(At(requests, k)) && IndexComplete(At(requests, k))
  {
    if k > 0 {
      IndexIsComplete(requests, k - 1);
      NextState(requests, k - 1);
      StepKeepsSound(At(requests, k - 1), requests[k - 1]);
      StepKeepsComplete(At(requests, k - 1), requests[k - 1]);
    }
  }

  /** One live room per document: the index lookup is the brute-force search, and finds at most one room. */
  lemma OneRoomPerScene(requests: seq<Request>, k: nat, scene: string)
    requires FreshRun(requests) && NoLegacy(requests) && k <= |requests| && scene != ""
    ensures var s := At(requests, k);
            RoomsOf(s, scene) == if scene in s.index then {s.index[scene]} else {}
  {
    IndexIsComplete(requests, k);
  }

  lemma CloseStep(s: State, room: string, scene: string)
    requires IndexSound(s)
    ensures var after := DoClose(s, room).0.index;
            && (scene in after <==> scene in s.index && s.index[scene] != room)
            && (scene in after ==> after[scene] == s.index[scene])
  {
  }

  /** Closing a room removes no other room's entry: an older duplicate never takes the newer one's. */
  lemma CloseSparesOthers(requests: seq<Request>, k: nat, scene: string)
    requires FreshRun(requests) && k < |requests| && requests[k].CloseRoom?
    ensures var before, after := At(requests, k).index, At(requests, k + 1).index;
            && (scene in after <==> scene in before && before[scene] != requests[k].room)
            && (scene in after ==> after[scene] == before[scene])
  {
    IndexIsSound(requests, k);
    NextState(requests, k);
    CloseStep(At(requests, k), requests[k].room, scene);
  }

  lemma StepKeepsScene(s: State, r: Request, room: string)
    requires Fresh(s, r) && room in s.rooms && s.rooms[room].sceneID != ""
    ensures room in Handle(s, r).0.rooms ==> Handle(s, r).0.rooms[room].sceneID == s.rooms[room].sceneID
  {
  }

  lemma StepKeepsRoom(s: State, r: Request, room: string)
    requires room in s.rooms && r != CloseRoom(room)
    ensures room in Handle(s, r).0.rooms
  {
  }

  /** A room stays until it is closed, and its scene never changes once it is set. */
  lemma {:induction false} SceneIsFixed(requests: seq<Request>, j: nat, k: nat, room: string)
    requires FreshRun(requests) && j <= k <= |requests| && forall i :: j <= i < k ==> requests[i] != CloseRoom(room)
    requires room in At(requests, j).rooms
    ensures room in At(requests, k).rooms
    ensures var was := At(requests, j).rooms[room].sceneID;
            was != "" ==> At(requests, k).rooms[room].sceneID == was
  {
    if j < k {
      SceneIsFixed(requests, j, k - 1, room);
      NextState(requests, k - 1);
      StepKeepsRoom(At(requests, k - 1), requests[k - 1], room);
      if At(requests, k - 1).rooms[room].sceneID != "" {
        StepKeepsScene(At(requests, k - 1), requests[k - 1], room);
      }
    }
  }

  // ---- sessions ----------------------------------------------------------------------------------------

  /** The request makes a room live for the scene: an open that creates one, or a first save. */
  ghost predicate Starts(s: State, r: Request, scene: string) {
    || (r.Open? && r.sceneID == scene && Handle(s, r).1 == RoomIs(r.newRoom, false))
    || (r.Save? && r.room in s.rooms && s.rooms[r.room].sceneID == ""
        && Handle(s, r).1 == Saved(scene, r.newVersion))
  }

  /** The request closes a room bound to the scene. */
  ghost predicate Ends(s: State, r: Request, scene: string) {
    r.CloseRoom? && r.room in s.rooms && s.rooms[r.room].sceneID == scene
  }

  /** Starts minus ends among the first k requests. */
  ghost function Balance(requests: seq<Request>, k: nat, scene: string): int
    requires k <= |requests|
  {
    if k == 0 then 0
    else
      Balance(requests, k - 1, scene)
      + (if Starts(At(requests, k - 1), requests[k - 1], scene) then 1 else 0)
      - (if Ends(At(requests, k - 1), requests[k - 1], scene) then 1 else 0)
  }

  lemma OpenMovesIndex(s: State, r: Request, scene: string)
    requires Fresh(s, r) && r.Open?
    ensures scene in Handle(s, r).0.index <==> scene in s.index || scene == r.sceneID
    ensures Starts(s, r, scene) <==> scene == r.sceneID && scene !in s.index
    ensures scene in s.index ==> Handle(s, r).0.index[scene] == s.index[scene]
  {
  }

  lemma SaveMovesIndex(s: State, r: Request, scene: string)
    requires Fresh(s, r) && r.Save?
    ensures scene in Handle(s, r).0.index <==> scene in s.index || Starts(s, r, scene)
    ensures Starts(s, r, scene) ==> scene !in s.index
    ensures scene in s.index ==> Handle(s, r).0.index[scene] == s.index[scene]
  {
  }

  /** A request starts a session of a scene, or ends it, exactly when its index entry appears or goes; an entry
      that stays, stays with its room. */
  lemma StepMovesIndex(s: State, r: Request, scene: string)
    requires IndexSound(s) && IndexComplete(s) && Fresh(s, r) && scene != ""
    requires r.CreateRoom? ==> r.sceneID == ""
    ensures Starts(s, r, scene) <==> scene !in s.index && scene in Handle(s, r).0.index
    ensures Ends(s, r, scene) <==> scene in s.index && scene !in Handle(s, r).0.index
    ensures scene in s.index && !Ends(s, r, scene) ==> Handle(s, r).0.index[scene] == s.index[scene]
  {
    match r
    case Open(_, _, _) => OpenMovesIndex(s, r, scene);
    case Save(_, _, _, _, _) => SaveMovesIndex(s, r, scene);
    case CloseRoom(room) => CloseStep(s, room, scene);
    case _ =>
  }

  lemma {:induction false} BalanceIsIndexed(requests: seq<Request>, k: nat, scene: string)
    requires FreshRun(requests) && NoLegacy(requests) && k <= |requests| && scene != ""
    ensures Balance(requests, k, scene) == if scene in At(requests, k).index then 1 else 0
  {
    if k > 0 {
      BalanceIsIndexed(requests, k - 1, scene);
      IndexIsComplete(requests, k - 1);
      NextState(requests, k - 1);
      StepMovesIndex(At(requests, k - 1), requests[k - 1], scene);
    }
  }

  /** The conservation law: opens that created a room, plus first saves, minus closes, is 1 exactly when the
      scene has a live room, and 0 otherwise. */
  lemma SessionsBalance(requests: seq<Request>, k: nat, scene: string)
    requires FreshRun(requests) && NoLegacy(requests) && k <= |requests| && scene != ""
    ensures Balance(requests, k, scene) == if RoomsOf(At(requests, k), scene) != {} then 1 else 0
  {
    OneRoomPerScene(requests, k, scene);
    BalanceIsIndexed(requests, k, scene);
  }

  ghost predicate NoEnd(requests: seq<Request>, scene: string, j: nat, k: nat)
    requires k <= |requests|
  {
    forall i :: j <= i < k ==> !Ends(At(requests, i), requests[i], scene)
  }

  /** While nobody closes a scene's room, the scene keeps it. */
  lemma {:induction false} LiveRoomStays(requests: seq<Request>, j: nat, k: nat, scene: string)
    requires FreshRun(requests) && NoLegacy(requests) && j <= k <= |requests| && scene != ""
    requires scene in At(requests, j).index && NoEnd(requests, scene, j, k)
    ensures scene in At(requests, k).index && At(requests, k).index[scene] == At(requests, j).index[scene]
  {
    if j < k {
      LiveRoomStays(requests, j, k - 1, scene);
      IndexIsComplete(requests, k - 1);
      NextState(requests, k - 1);
      StepMovesIndex(At(requests, k - 1), requests[k - 1], scene);
    }
  }

  lemma OpenFinds(s: State, r: Request)
    requires r.Open?
    ensures r.sceneID in Handle(s, r).0.index
    ensures Handle(s, r).1 == RoomIs(Handle(s, r).0.index[r.sceneID], r.sceneID in s.index)
    ensures r.sceneID in s.index ==> Handle(s, r).0 == s
  {
  }

  /** Two opens of a scene with no close in between return the same room, the second one as live. */
  lemma OpensAgree(requests: seq<Request>, j: nat, k: nat, scene: string)
    requires FreshRun(requests) && NoLegacy(requests) && j < k < |requests| && NoEnd(requests, scene, j + 1, k)
    requires requests[j].Open? && requests[j].sceneID == scene && requests[k].Open? && requests[k].sceneID == scene
    ensures Answer(requests, j).RoomIs? && Answer(requests, k) == RoomIs(Answer(requests, j).room, true)
  {
    assert Fresh(At(requests, j), requests[j]);
    NextState(requests, j);
    OpenFinds(At(requests, j), requests[j]);
    LiveRoomStays(requests, j + 1, k, scene);
    OpenFinds(At(requests, k), requests[k]);
  }

  // ---- live documents stay stored --------------------------------------------------------------------

  ghost predicate LiveAreStored(s: State) {
    forall id :: id in s.rooms && s.rooms[id].sceneID != "" ==> s.rooms[id].sceneID in s.scenes
  }

  lemma StepKeepsStored(s: State, r: Request)
    requires IndexSound(s) && IndexComplete(s) && LiveAreStored(s) && Fresh(s, r)
    requires (r.CreateRoom? ==> r.sceneID == "") && (r.Open? ==> r.sceneID in s.scenes)
    ensures LiveAreStored(Handle(s, r).0)
  {
  }

  /** In runs that open only stored scenes, every live room's scene stays in the store. */
  lemma {:induction false} LiveIsStored(requests: seq<Request>, k: nat)
    requires FreshRun(requests) && NoLegacy(requests) && OpensStored(requests) && k <= |requests|
    ensures LiveAreStored(At(requests, k))
  {
    if k > 0 {
      LiveIsStored(requests, k - 1);
      IndexIsComplete(requests, k - 1);
      NextState(requests, k - 1);
      StepKeepsStored(At(requests, k - 1), requests[k - 1]);
    }
  }

  ghost function VersionsOf(s: State, scene: string): seq<Version> {
    if scene in s.scenes then s.scenes[scene].versions else []
  }

  /** What a successful save adds to the history of a scene. */
  ghost function Added(r: Request, answer: Response, scene: string): seq<Version>
    requires r.Save?
  {
    if answer.Saved? && answer.sceneID == scene then [Version(r.newVersion, r.savedBy, PayloadOf(r.canvas))] else []
  }

  lemma SaveStep(s: State, r: Request, scene: string)
    requires r.Save? && Fresh(s, r)
    ensures VersionsOf(Handle(s, r).0, scene) == VersionsOf(s, scene) + Added(r, Handle(s, r).1, scene)
    ensures Handle(s, r).1.Saved? ==>
              && Handle(s, r).1.versionID == r.newVersion
              && r.room in Handle(s, r).0.rooms && Handle(s, r).0.rooms[r.room].sceneID == Handle(s, r).1.sceneID
    ensures Handle(s, r).1.Saved? <==>
              && r.room in s.rooms && r.canvas.elements != [] && ValidFiles(r.canvas.files)
              && (s.rooms[r.room].sceneID != "" ==> s.rooms[r.room].sceneID in s.scenes)
  {
  }

  /** What a version holds is the canvas it was saved from. */
  lemma PayloadIsCanvas(c: Canvas)
    ensures PayloadOf(c).elements == c.elements && PayloadOf(c).appState == c.appState
    ensures Sorted(PayloadOf(c).fileIDs) && forall id :: id in PayloadOf(c).fileIDs <==> id in c.files
  {
    InMembers(PayloadOf(c).fileIDs);
  }

  /** So a well-formed save in a live room always succeeds, and appends exactly one version, which holds the canvas, to
      that room's scene and no other. */
  lemma SaveAppendsOne(requests: seq<Request>, k: nat, scene: string)
    requires FreshRun(requests) && NoLegacy(requests) && OpensStored(requests) && k < |requests|
    requires requests[k].Save? && requests[k].room in At(requests, k).rooms
    requires requests[k].canvas.elements != [] && ValidFiles(requests[k].canvas.files)
    ensures var s, s', r, answer := At(requests, k), At(requests, k + 1), requests[k], Answer(requests, k);
            && answer.Saved? && answer.versionID == r.newVersion
            && r.room in s'.rooms && s'.rooms[r.room].sceneID == answer.sceneID
            && (scene != answer.sceneID ==> VersionsOf(s', scene) == VersionsOf(s, scene))
            && (scene == answer.sceneID ==>
                  var before, after := VersionsOf(s, scene), VersionsOf(s', scene);
                  && |after| == |before| + 1 && after[..|before|] == before
                  && var v := after[|before|];
                     && v.id == r.newVersion && v.savedBy == r.savedBy
                     && v.data.elements == r.canvas.elements && v.data.appState == r.canvas.appState
                     && Sorted(v.data.fileIDs) && forall id :: id in v.data.fileIDs <==> id in r.canvas.files)
  {
    assert Fresh(At(requests, k), requests[k]);
    LiveIsStored(requests, k);
    NextState(requests, k);
    SaveStep(At(requests, k), requests[k], scene);
    PayloadIsCanvas(requests[k].canvas);
  }

  // ---- history ---------------------------------------------------------------------------------------------

  datatype Found = Missing | Data(payload: Payload)

  /** GetVersion: the first version with the id. */
  function Fetch(versions: seq<Version>, id: string): Found {
    if versions == [] then Missing
    else if versions[0].id == id then Data(versions[0].data)
    else Fetch(versions[1..], id)
  }

  lemma {:induction false} FetchAppended(before: seq<Version>, v: Version, later: seq<Version>)
    requires forall i :: 0 <= i < |before| ==> before[i].id != v.id
    ensures Fetch(before + [v] + later, v.id) == Data(v.data)
  {
    if before != [] {
      FetchAppended(before[1..], v, later);
      assert (before + [v] + later)[1..] == before[1..] + [v] + later;
    }
  }

  /** Fetching finds the first version with the id, and only misses an id that no version has. */
  lemma {:induction false} FetchFindsFirst(versions: seq<Version>, id: string, i: nat)
    requires i <= |versions| && forall j :: 0 <= j < i ==> versions[j].id != id
    ensures i == |versions| ==> Fetch(versions, id) == Missing
    ensures i < |versions| && versions[i].id == id ==> Fetch(versions, id) == Data(versions[i].data)
  {
    if i > 0 {
      FetchFindsFirst(versions[1..], id, i - 1);
    }
  }

  /** No deletion of the scene goes through from the j-th request up to the k-th. */
  ghost predicate NotDeleted(requests: seq<Request>, scene: string, j: nat, k: nat)
    requires k <= |requests|
  {
    forall i :: j <= i < k && requests[i] == DeleteScene(scene) ==> Answer(requests, i) != Done
  }

  lemma StepKeepsSceneStored(s: State, r: Request, scene: string)
    requires scene in s.scenes && (r == DeleteScene(scene) ==> Handle(s, r).1 != Done)
    ensures scene in Handle(s, r).0.scenes
  {
  }

  /** A scene stays stored until a deletion of it is answered as done. */
  lemma {:induction false} StoredUntilDeleted(requests: seq<Request>, j: nat, k: nat, scene: string)
    requires j <= k <= |requests| && NotDeleted(requests, scene, j, k) && scene in At(requests, j).scenes
    ensures scene in At(requests, k).scenes
  {
    if j < k {
      StoredUntilDeleted(requests, j, k - 1, scene);
      NextState(requests, k - 1);
      StepKeepsSceneStored(At(requests, k - 1), requests[k - 1], scene);
    }
  }

  lemma StepGrows(s: State, r: Request, scene: string)
    requires Fresh(s, r) && scene in s.scenes && scene in Handle(s, r).0.scenes
    ensures VersionsOf(s, scene) <= VersionsOf(Handle(s, r).0, scene)
  {
    if r.Save? {
      SaveStep(s, r, scene);
    }
  }

  lemma NextGrows(requests: seq<Request>, k: nat, scene: string)
    requires FreshRun(requests) && k < |requests| && NotDeleted(requests, scene, k, k + 1)
    requires scene in At(requests, k).scenes
    ensures VersionsOf(At(requests, k), scene) <= VersionsOf(At(requests, k + 1), scene)
  {
    assert Fresh(At(requests, k), requests[k]);
    StoredUntilDeleted(requests, k, k + 1, scene);
    NextState(requests, k);
    StepGrows(At(requests, k), requests[k], scene);
  }

  /** Earlier version lists are prefixes of later ones, until a deletion of the scene goes through. */
  lemma {:induction false} HistoryOnlyGrows(requests: seq<Request>, j: nat, k: nat, scene: string)
    requires FreshRun(requests) && j <= k <= |requests| && NotDeleted(requests, scene, j, k)
    ensures VersionsOf(At(requests, j), scene) <= VersionsOf(At(requests, k), scene)
  {
    if j < k && scene in At(requests, j).scenes {
      HistoryOnlyGrows(requests, j, k - 1, scene);
      StoredUntilDeleted(requests, j, k - 1, scene);
      NextGrows(requests, k - 1, scene);
    }
  }

  lemma FetchedAmong(before: seq<Version>, v: Version, now: seq<Version>)
    requires before + [v] <= now && forall i :: 0 <= i < |before| ==> before[i].id != v.id
    ensures Fetch(now, v.id) == Data(v.data)
  {
    assert now == before + [v] + now[|before| + 1..];
    FetchAppended(before, v, now[|before| + 1..]);
  }

  lemma SavedFetchesFrom(s: State, r: Request, scene: string, version: string, now: seq<Version>)
    requires r.Save? && Fresh(s, r) && Handle(s, r).1 == Saved(scene, version)
    requires VersionsOf(Handle(s, r).0, scene) <= now
    ensures Fetch(now, version) == Data(PayloadOf(r.canvas))
  {
    SaveStep(s, r, scene);
    FetchedAmong(VersionsOf(s, scene), Version(r.newVersion, r.savedBy, PayloadOf(r.canvas)), now);
  }

  /** A version id returned by a save fetches the canvas as it was saved, field by field, after any later requests,
      until a deletion of the scene goes through. */
  lemma SavedVersionIsFetched(requests: seq<Request>, j: nat, k: nat, scene: string, version: string)
    requires FreshRun(requests) && j < k <= |requests|
    requires requests[j].Save? && Answer(requests, j) == Saved(scene, version)
    requires NotDeleted(requests, scene, j + 1, k)
    ensures var c, got := requests[j].canvas, Fetch(VersionsOf(At(requests, k), scene), version);
            && got.Data? && got.payload.elements == c.elements && got.payload.appState == c.appState
            && Sorted(got.payload.fileIDs) && forall id :: id in got.payload.fileIDs <==> id in c.files
  {
    assert Fresh(At(requests, j), requests[j]);
    NextState(requests, j);
    HistoryOnlyGrows(requests, j + 1, k, scene);
    SavedFetchesFrom(At(requests, j), requests[j], scene, version, VersionsOf(At(requests, k), scene));
    PayloadIsCanvas(requests[j].canvas);
  }

  // ---- files -------------------------------------------------------------------------------------------------

  ghost predicate HasFiles(s: State, p: Payload) {
    forall id :: id in p.fileIDs ==> FilePath(id) in s.blobs && s.blobs[FilePath(id)].File?
  }

  /** Every file of every stored version and of the published scene has a blob. */
  ghost predicate FilesAvailable(s: State) {
    && (forall p :: p in s.blobs ==> (s.blobs[p].Published? <==> p == PUBLISHED_PATH))
    && (forall scene, i :: scene in s.scenes && 0 <= i < |s.scenes[scene].versions|
          ==> HasFiles(s, s.scenes[scene].versions[i].data))
    && (PUBLISHED_PATH in s.blobs ==> HasFiles(s, s.blobs[PUBLISHED_PATH].scene))
  }

  /** A file blob, once written, stays as it is. */
  ghost predicate FilesKept(before: map<string, Blob>, after: map<string, Blob>) {
    forall p :: p in before && p != PUBLISHED_PATH ==> p in after && after[p] == before[p]
  }

  /** Blobs only added or kept keep what is available. */
  lemma MoreBlobs(s: State, s': State)
    requires FilesKept(s.blobs, s'.blobs)
    ensures forall p: Payload :: HasFiles(s, p) ==> HasFiles(s', p)
  {
    FilePathsDiffer();
  }

  lemma UploadIsAvailable(s: State, c: Canvas)
    requires FilesAvailable(s)
    ensures var s' := s.(blobs := Upload(s.blobs, c.files));
            FilesAvailable(s') && HasFiles(s', PayloadOf(c)) && FilesKept(s.blobs, s'.blobs)
  {
    var s' := s.(blobs := Upload(s.blobs, c.files));
    UploadAdds(s.blobs, c.files);
    MoreBlobs(s, s');
    FilePathsDiffer();
    InMembers(PayloadOf(c).fileIDs);
  }

  lemma RecordKeepsFiles(s: State, room: string, savedBy: string, data: Payload, newScene: string, newVersion: string)
    requires FilesAvailable(s) && room in s.rooms && HasFiles(s, data)
    ensures FilesAvailable(Record(s, room, savedBy, data, newScene, newVersion).0)
    ensures Record(s, room, savedBy, data, newScene, newVersion).0.blobs == s.blobs
  {
    var s' := Record(s, room, savedBy, data, newScene, newVersion).0;
    MoreBlobs(s, s');
  }

  lemma PublishKeepsFiles(s: State, data: Payload)
    requires FilesAvailable(s) && HasFiles(s, data)
    ensures FilesAvailable(s.(blobs := s.blobs[PUBLISHED_PATH := Published(data)]))
  {
    MoreBlobs(s, s.(blobs := s.blobs[PUBLISHED_PATH := Published(data)]));
  }

  lemma SaveKeepsFiles(s: State, r: Request)
    requires FilesAvailable(s) && r.Save?
    ensures FilesAvailable(Handle(s, r).0) && FilesKept(s.blobs, Handle(s, r).0.blobs)
  {
    if r.room in s.rooms && r.canvas.elements != [] && ValidFiles(r.canvas.files) {
      var s' := s.(blobs := Upload(s.blobs, r.canvas.files));
      UploadIsAvailable(s, r.canvas);
      RecordKeepsFiles(s', r.room, r.savedBy, PayloadOf(r.canvas), r.newScene, r.newVersion);
    }
  }

  lemma PublishingKeepsFiles(s: State, r: Request)
    requires FilesAvailable(s) && r.Publish?
    ensures FilesAvailable(Handle(s, r).0) && FilesKept(s.blobs, Handle(s, r).0.blobs)
  {
    if r.room in s.rooms && r.canvas.elements != [] && ValidFiles(r.canvas.files) {
      UploadIsAvailable(s, r.canvas);
      PublishKeepsFiles(s.(blobs := Upload(s.blobs, r.canvas.files)), PayloadOf(r.canvas));
    }
  }

  lemma StepKeepsFiles(s: State, r: Request)
    requires FilesAvailable(s)
    ensures FilesAvailable(Handle(s, r).0) && FilesKept(s.blobs, Handle(s, r).0.blobs)
  {
    if r.Save? {
      SaveKeepsFiles(s, r);
    } else if r.Publish? {
      PublishingKeepsFiles(s, r);
    } else {
      assert Handle(s, r).0.blobs == s.blobs;
      MoreBlobs(s, Handle(s, r).0);
    }
  }

  /** File availability in every reachable state, with no file blob ever overwritten. */
  lemma {:induction false} FilesStayAvailable(requests: seq<Request>, j: nat, k: nat)
    requires j <= k <= |requests|
    ensures FilesAvailable(At(requests, k)) && FilesKept(At(requests, j).blobs, At(requests, k).blobs)
  {
    if k > 0 {
      FilesStayAvailable(requests, if j < k then j else k - 1, k - 1);
      NextState(requests, k - 1);
      StepKeepsFiles(At(requests, k - 1), requests[k - 1]);
    }
  }
}
