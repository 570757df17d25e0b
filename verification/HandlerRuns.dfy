/** Whole runs of requests on the application's objects. They do what the runs of steps do, so what holds of those
    holds here. */
module HandlerRuns {
  import opened Handlers
  import opened Options
  import opened RelayClients
  import Runs = SessionRuns
  import SortedIds
  import opened Spec = SessionSpec
  import opened Stores

  // ---- request bodies -------------------------------------------------------------------------------------

  method NewBytes(data: Spec.Bytes) returns (a: array<bv8>)
    ensures fresh(a) && a[..] == data
  {
    a := new bv8[|data|](i requires 0 <= i < |data| => data[i]);
  }

  method NewFiles(data: map<string, Spec.Bytes>) returns (files: map<string, array<bv8>>)
    ensures FilesData(files) == data && forall id :: id in files ==> fresh(files[id])
  {
    files := map[];
    var left := data.Keys;
    while left != {}
      invariant left <= data.Keys && files.Keys == data.Keys - left
      invariant forall id :: id in files ==> fresh(files[id]) && files[id][..] == data[id]
      decreases left
    {
      var id :| id in left;
      var a := NewBytes(data[id]);
      files := files[id := a];
      left := left - {id};
    }
  }

  method Decode(c: Canvas) returns (elements: array<bv8>, appState: array<bv8>, files: map<string, array<bv8>>)
    ensures CanvasOf(elements, appState, files) == c
  {
    elements := NewBytes(c.elements);
    appState := NewBytes(c.appState);
    files := NewFiles(c.files);
  }

  // ---- one request ------------------------------------------------------------------------------------------

  /** These are the connections there are, and any of them may be in any room. */
  ghost predicate Among(app: App, conns: set<Connection>)
    reads app.registry`rooms, app.registry.rooms.Values`clients
  {
    forall room :: room in app.registry.rooms.Values ==> room.clients <= conns
  }

  /** These arrays hold nothing that is stored. */
  ghost predicate Apart(app: App, mine: set<object>)
    reads app.store, app.blobs
  {
    mine !! app.store.bytes && mine !! app.store.ids && mine !! app.blobs.buffers
  }

  /** Decoding a request leaves the application as it is. */
  method DecodeFor(app: App, c: Canvas, ghost mine: set<object>)
    returns (elements: array<bv8>, appState: array<bv8>, files: map<string, array<bv8>>)
    requires app.Valid() && Apart(app, mine)
    ensures app.Valid() && Apart(app, mine)
    ensures CanvasOf(elements, appState, files) == c && app.View() == old(app.View())
  {
    elements, appState, files := Decode(c);
  }

  method DoSave(app: App, r: Request, ghost mine: set<object>) returns (answer: Response)
    requires r.Save? && app.Valid() && Apart(app, mine) && Fresh(app.View(), r)
    modifies app.registry, app.store, app.blobs, app.registry.rooms.Values`sceneID,
             app.store.scenes.Values`versions, app.store.scenes.Values`history
    ensures app.Valid() && Apart(app, mine) && app.registry.rooms == old(app.registry.rooms)
    ensures (app.View(), answer) == Handle(old(app.View()), r)
    ensures forall s :: s in app.store.scenes.Values ==> s in old(app.store.scenes.Values) || fresh(s)
  {
    var elements, appState, files := DecodeFor(app, r.canvas, mine);
    answer := app.Save(r.room, r.savedBy, elements, appState, files, r.newScene, r.newVersion, mine);
  }

  method DoPublish(app: App, r: Request, ghost mine: set<object>) returns (answer: Response)
    requires r.Publish? && app.Valid() && Apart(app, mine)
    modifies app.blobs
    ensures app.Valid() && Apart(app, mine)
    ensures (app.View(), answer) == Handle(old(app.View()), r)
  {
    var elements, appState, files := DecodeFor(app, r.canvas, mine);
    answer := app.Publish(r.room, elements, appState, files, mine);
  }

  /** Creating, opening and closing rooms. */
  method DoRoom(app: App, r: Request, conns: set<Connection>, ghost mine: set<object>) returns (answer: Response)
    requires (r.CreateRoom? || r.Open? || r.CloseRoom?) && app.Valid() && Fresh(app.View(), r)
    requires Among(app, conns) && Apart(app, mine)
    modifies app.registry, app.registry.rooms.Values`clients, conns
    ensures app.Valid() && Apart(app, mine)
    ensures (app.View(), answer) == Handle(old(app.View()), r)
    ensures forall room :: room in app.registry.rooms.Values ==> room in old(app.registry.rooms.Values) || fresh(room)
  {
    if r.CreateRoom? {
      answer := app.CreateRoom(r.name, r.sceneID, r.newRoom);
    } else if r.Open? {
      answer := app.Open(r.sceneID, r.name, r.newRoom);
    } else {
      answer := app.CloseRoom(r.room);
    }
  }

  /** Names, and deleting scenes. */
  method DoName(app: App, r: Request, ghost mine: set<object>) returns (answer: Response)
    requires (r.RenameRoom? || r.RenameScene? || r.DeleteScene?) && app.Valid() && Apart(app, mine)
    modifies app.store`scenes, app.store.scenes.Values`name, app.registry.rooms.Values`name
    ensures app.Valid() && Apart(app, mine)
    ensures (app.View(), answer) == Handle(old(app.View()), r)
    ensures app.store.scenes.Values <= old(app.store.scenes.Values)
  {
    if r.RenameRoom? {
      answer := app.RenameRoom(r.room, r.name);
    } else if r.RenameScene? {
      answer := app.RenameScene(r.sceneID, r.name);
    } else {
      answer := app.DeleteScene(r.sceneID);
    }
  }

  method Do(app: App, r: Request, conns: set<Connection>, ghost mine: set<object>) returns (answer: Response)
    requires app.Valid() && Among(app, conns) && Apart(app, mine) && Fresh(app.View(), r)
    modifies app.registry, app.store, app.blobs, app.registry.rooms.Values, app.store.scenes.Values, conns
    ensures app.Valid() && Apart(app, mine)
    ensures (app.View(), answer) == Handle(old(app.View()), r)
    ensures forall room :: room in app.registry.rooms.Values ==> room in old(app.registry.rooms.Values) || fresh(room)
    ensures forall s :: s in app.store.scenes.Values ==> s in old(app.store.scenes.Values) || fresh(s)
  {
    if r.Save? {
      answer := DoSave(app, r, mine);
    } else if r.Publish? {
      answer := DoPublish(app, r, mine);
    } else if r.CreateRoom? || r.Open? || r.CloseRoom? {
      answer := DoRoom(app, r, conns, mine);
    } else {
      answer := DoName(app, r, mine);
    }
  }

  // ---- runs -----------------------------------------------------------------------------------------------------

  /** Connections come and go without the handlers. */
  method ComeAndGo(app: App, conns: set<Connection>)
    requires app.Valid()
    modifies app.registry.rooms.Values`clients
    ensures app.Valid() && Among(app, conns) && app.View() == old(app.View())
  {
    var left := app.registry.rooms.Values;
    while left != {}
      invariant left <= app.registry.rooms.Values
      invariant forall room :: room in app.registry.rooms.Values && room !in left ==> room.clients <= conns
      decreases left
    {
      var room :| room in left;
      var now: set<Connection> := *;
      room.clients := now * conns;
      left := left - {room};
    }
  }

  /** The k-th request of a run, whoever is connected by then. */
  method ServeOne(app: App, ghost run: seq<Request>, ghost k: nat, r: Request,
                  conns: set<Connection>, ghost mine: set<object>) returns (answer: Response)
    requires app.Valid() && Apart(app, mine)
    requires FreshRun(run) && k < |run| && run[k] == r && app.View() == After(run[..k])
    modifies app.registry, app.store, app.blobs, app.registry.rooms.Values, app.store.scenes.Values, conns
    ensures app.Valid() && Apart(app, mine)
    ensures app.View() == After(run[..k + 1]) && answer == Answer(run, k)
    ensures forall room :: room in app.registry.rooms.Values ==> room in old(app.registry.rooms.Values) || fresh(room)
    ensures forall s :: s in app.store.scenes.Values ==> s in old(app.store.scenes.Values) || fresh(s)
  {
    NextState(run, k);
    assert Fresh(At(run, k), run[k]);
    ComeAndGo(app, conns);
    answer := Do(app, r, conns, mine);
  }

  /** The answers to a run from its k-th request on. */
  ghost function AnswersFrom(run: seq<Request>, k: nat): (answers: seq<Response>)
    requires k <= |run|
    ensures |answers| == |run| - k
    ensures forall i :: 0 <= i < |answers| ==> answers[i] == Answer(run, k + i)
    decreases |run| - k
  {
    if k == |run| then [] else [Answer(run, k)] + AnswersFrom(run, k + 1)
  }

  /** Any run of requests, on top of any run before it, with any connections coming and going. */
  method Serve(app: App, ghost run: seq<Request>, ghost k: nat, requests: seq<Request>,
               conns: set<Connection>, ghost mine: set<object>) returns (answers: seq<Response>)
    requires app.Valid() && Apart(app, mine)
    requires FreshRun(run) && k <= |run| && run[k..] == requests && app.View() == After(run[..k])
    modifies app.registry, app.store, app.blobs, app.registry.rooms.Values, app.store.scenes.Values, conns
    ensures app.Valid() && Apart(app, mine)
    ensures app.View() == After(run) && answers == AnswersFrom(run, k)
    decreases |requests|
  {
    if requests == [] {
      assert run[..k] == run;
      return [];
    }
    var first := ServeOne(app, run, k, requests[0], conns, mine);
    var rest := Serve(app, run, k + 1, requests[1..], conns, mine);
    answers := [first] + rest;
  }

  // ---- what callers keep ---------------------------------------------------------------------------------------

  method Overwrite(mine: set<array<bv8>>, junk: bv8)
    modifies mine
  {
    var left := mine;
    while left != {}
      invariant left <= mine
      decreases left
    {
      var a :| a in left;
      for i := 0 to a.Length { a[i] := junk; }
      left := left - {a};
    }
  }

  /** Writing over arrays that hold nothing stored changes nothing of the application. */
  method Scribble(app: App, mine: set<array<bv8>>, junk: bv8)
    requires app.Valid() && Apart(app, mine)
    modifies mine
    ensures app.Valid() && app.View() == old(app.View())
    ensures app.registry.rooms == old(app.registry.rooms) && app.store.scenes == old(app.store.scenes)
  {
    Overwrite(mine, junk);
  }

  /** A save from the caller's own arrays, as the k-th request of a run. */
  method ServeSave(app: App, ghost run: seq<Request>, ghost k: nat, room: string, savedBy: string,
                   elements: array<bv8>, appState: array<bv8>, files: map<string, array<bv8>>,
                   newScene: string, newVersion: string, ghost mine: set<object>) returns (answer: Response)
    requires app.Valid() && Apart(app, mine)
    requires FreshRun(run) && k < |run| && app.View() == After(run[..k])
    requires run[k] == Request.Save(room, savedBy, CanvasOf(elements, appState, files), newScene, newVersion)
    modifies app.registry`bySceneID, app.store, app.blobs, app.registry.rooms.Values`sceneID,
             app.store.scenes.Values`versions, app.store.scenes.Values`history
    ensures app.Valid() && Apart(app, mine)
    ensures app.View() == After(run[..k + 1]) && answer == Answer(run, k)
    ensures forall s :: s in app.store.scenes.Values ==> s in old(app.store.scenes.Values) || fresh(s)
  {
    NextState(run, k);
    assert Fresh(At(run, k), run[k]);
    answer := app.Save(room, savedBy, elements, appState, files, newScene, newVersion, mine);
  }

  /** A save, after which the caller writes over every array it saved from. */
  method SaveAndScribble(app: App, ghost run: seq<Request>, ghost k: nat, room: string, savedBy: string,
                         elements: array<bv8>, appState: array<bv8>, files: map<string, array<bv8>>,
                         newScene: string, newVersion: string, junk: bv8) returns (answer: Response)
    requires app.Valid() && Apart(app, {elements, appState} + files.Values)
    requires FreshRun(run) && k < |run| && app.View() == After(run[..k])
    requires run[k] == Request.Save(room, savedBy, CanvasOf(elements, appState, files), newScene, newVersion)
    modifies app.registry`bySceneID, app.store, app.blobs, app.registry.rooms.Values`sceneID,
             app.store.scenes.Values`versions, app.store.scenes.Values`history, elements, appState, files.Values
    ensures app.Valid() && app.View() == After(run[..k + 1]) && answer == Answer(run, k)
    ensures app.registry.rooms == old(app.registry.rooms)
    ensures forall s :: s in app.store.scenes.Values ==> s in old(app.store.scenes.Values) || fresh(s)
  {
    var mine := {elements, appState} + files.Values;
    answer := ServeSave(app, run, k, room, savedBy, elements, appState, files, newScene, newVersion, mine);
    Scribble(app, mine, junk);
  }

  /** What a save in a run recorded, fetched at the end of the run, written over, and fetched again. */
  method FetchSaved(app: App, ghost run: seq<Request>, ghost k: nat, sceneID: string, versionID: string, junk: bv8)
    returns (got: Option<Slices>)
    requires app.Valid() && FreshRun(run) && k < |run| && app.View() == After(run)
    requires run[k].Save? && Answer(run, k) == Saved(sceneID, versionID)
    ensures Runs.NotDeleted(run, sceneID, k + 1, |run|) ==>
              && got.Some?
              && got.value.elements[..] == run[k].canvas.elements && got.value.appState[..] == run[k].canvas.appState
              && SortedIds.Sorted(got.value.fileIDs[..])
              && forall id :: id in got.value.fileIDs[..] <==> id in run[k].canvas.files
  {
    FetchAndScribble(app.store, sceneID, versionID, junk, "");
    assert app.View() == After(run);
    got := app.GetVersion(sceneID, versionID);
    if Runs.NotDeleted(run, sceneID, k + 1, |run|) {
      assert run[..|run|] == run;
      Runs.SavedVersionIsFetched(run, k, |run|, sceneID, versionID);
    }
  }

  /** A save; then the caller writes over every array it saved from; then any further requests; then the version is
      fetched, and what came back is written over too: fetched again, it holds the elements, the app state and the file
      ids as they were saved, unless a deletion of the scene has gone through by then. */
  method SavedDataIsOutOfReach(app: App, ghost run: seq<Request>, ghost k: nat, room: string, savedBy: string,
                               elements: array<bv8>, appState: array<bv8>, files: map<string, array<bv8>>,
                               newScene: string, newVersion: string, junk: bv8,
                               later: seq<Request>, conns: set<Connection>)
    returns (answer: Response, got: Option<Slices>)
    requires app.Valid() && Apart(app, {elements, appState} + files.Values)
    requires FreshRun(run) && k < |run| && run[k + 1..] == later && app.View() == After(run[..k])
    requires run[k] == Request.Save(room, savedBy, CanvasOf(elements, appState, files), newScene, newVersion)
    modifies app.registry, app.store, app.blobs, app.registry.rooms.Values, app.store.scenes.Values,
             elements, appState, files.Values, conns
    ensures answer == Answer(run, k)
    ensures answer.Saved? && Runs.NotDeleted(run, answer.sceneID, k + 1, |run|) ==>
              && got.Some?
              && got.value.elements[..] == old(elements[..]) && got.value.appState[..] == old(appState[..])
              && SortedIds.Sorted(got.value.fileIDs[..])
              && forall id :: id in got.value.fileIDs[..] <==> id in files
  {
    answer := SaveAndScribble(app, run, k, room, savedBy, elements, appState, files, newScene, newVersion, junk);
    var answers := Serve(app, run, k + 1, later, conns, {});
    got := None;
    if answer.Saved? { got := FetchSaved(app, run, k, answer.sceneID, answer.versionID, junk); }
  }
}
