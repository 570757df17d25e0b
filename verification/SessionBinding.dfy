/** Handlers that act on what they read a moment ago: a first save, which creates its scene, sets it in the room, then
    indexes the room, with anything else in between; and a deletion, which checks and then deletes. */
module SessionBinding {
  import opened SessionSpec
  import opened SessionRuns

  // ---- the steps ------------------------------------------------------------------------------------------

  /** Creates, Sets and Binds are a first save's, Removes a deletion's. A room is named by its id, and the one a handler
      still holds may have left the registry. */
  datatype Step =
    | Whole(request: Request)
    | Creates(scene: string, saved: Scene)   // CreateScene
    | Sets(room: string, scene: string)      // SetSceneID
    | Binds(room: string, scene: string)     // BindScene
    | Removes(scene: string)                 // DeleteScene, the check being in the past

  /** `pending` are the rooms between their Sets and their Binds. */
  datatype Moment = Moment(s: State, pending: set<string>)

  function SetScene(s: State, room: string, scene: string): State {
    if room in s.rooms then s.(rooms := s.rooms[room := s.rooms[room].(sceneID := scene)]) else s
  }

  function BindScene(s: State, room: string, scene: string): State {
    s.(index := s.index[scene := room])
  }

  ghost function Take(m: Moment, step: Step): Moment {
    match step
    case Whole(r) => m.(s := Handle(m.s, r).0)
    case Creates(scene, saved) => m.(s := m.s.(scenes := m.s.scenes[scene := saved]))
    case Sets(room, scene) => Moment(SetScene(m.s, room, scene), m.pending + {room})
    case Binds(room, scene) => Moment(BindScene(m.s, room, scene), m.pending - {room})
    case Removes(scene) => m.(s := m.s.(scenes := m.s.scenes - {scene}))
  }

  /** Random ids are fresh, and no scene id is empty. */
  ghost predicate Allowed(s: State, step: Step) {
    match step
    case Whole(r) => Fresh(s, r)
    case Creates(scene, _) => scene != "" && scene !in s.scenes
    case Sets(_, scene) => scene != ""
    case Binds(_, scene) => scene != ""
    case Removes(_) => true
  }

  ghost predicate Goes(m: Moment, step: Step, m': Moment) {
    Allowed(m.s, step) && m' == Take(m, step)
  }

  ghost predicate IsRun(ms: seq<Moment>, steps: seq<Step>) {
    && |ms| == |steps| + 1
    && forall k :: 0 <= k < |steps| ==> Goes(ms[k], steps[k], ms[k + 1])
  }

  // ---- what is to be kept -------------------------------------------------------------------------------------

  ghost predicate Consistent(s: State) {
    IndexSound(s) && IndexComplete(s) && LiveAreStored(s)
  }

  /** The same, but a pending room need not be indexed yet. */
  ghost predicate Inv(m: Moment) {
    && IndexSound(m.s) && LiveAreStored(m.s)
    && forall id :: id in m.s.rooms && m.s.rooms[id].sceneID != "" && id !in m.pending ==>
         m.s.rooms[id].sceneID in m.s.index && m.s.index[m.s.rooms[id].sceneID] == id
  }

  /** Some entry names the room: in a sound index, the one of its scene. */
  ghost predicate Named(s: State, room: string) {
    exists scene :: scene in s.index && s.index[scene] == room
  }

  /** What a caller could look up just before the step. */
  ghost predicate Timely(m: Moment, step: Step) {
    match step
    case Whole(CreateRoom(_, scene, _)) =>
      scene != "" ==> scene in m.s.scenes && (scene in m.s.index ==> m.s.index[scene] in m.pending)
    case Whole(Open(scene, _, _)) => scene in m.s.index || scene in m.s.scenes
    case Whole(DeleteScene(scene)) => scene in m.s.index || RoomsOf(m.s, scene) == {} || scene == ""
    case Whole(_) => true
    case Creates(_, _) => true
    case Sets(room, scene) =>
      room in m.s.rooms ==> m.s.rooms[room].sceneID == scene || (!Named(m.s, room) && scene in m.s.scenes)
    case Binds(room, scene) =>
      && room in m.s.rooms && m.s.rooms[room].sceneID == scene
      && (scene in m.s.index ==> m.s.index[scene] in m.pending + {room})
    case Removes(scene) => RoomsOf(m.s, scene) == {} || scene == ""
  }

  // ---- exactly when each step keeps it ------------------------------------------------------------------------

  /** Setting the scene keeps the index sound exactly when the room is gone, has this scene already, or is named by
      no entry. */
  lemma SetSceneIsSoundIff(s: State, room: string, scene: string)
    requires IndexSound(s)
    ensures IndexSound(SetScene(s, room, scene))
            <==> room !in s.rooms || s.rooms[room].sceneID == scene || !Named(s, room)
  {
    var s' := SetScene(s, room, scene);
    if Named(s, room) && IndexSound(s') {
      var named :| named in s.index && s.index[named] == room;
      assert s'.index[named] == room;
    }
    if room in s.rooms && s.rooms[room].sceneID == scene {
      assert s' == s;
    }
  }

  /** Indexing the room keeps the index sound exactly when the room is registered and has this scene by then. */
  lemma BindSceneIsSoundIff(s: State, room: string, scene: string)
    requires IndexSound(s) && scene != ""
    ensures IndexSound(BindScene(s, room, scene)) <==> room in s.rooms && s.rooms[room].sceneID == scene
  {
    var s' := BindScene(s, room, scene);
    assert s'.index[scene] == room;
    forall other | other in s'.index && other != scene ensures s'.index[other] == s.index[other] {}
  }

  lemma SetsKeepsIff(m: Moment, room: string, scene: string)
    requires Inv(m) && scene != ""
    ensures Inv(Take(m, Sets(room, scene))) <==> Timely(m, Sets(room, scene))
  {
    SetSceneIsSoundIff(m.s, room, scene);
    if room in m.s.rooms {
      assert SetScene(m.s, room, scene).rooms[room].sceneID == scene;
    }
  }

  lemma BindsKeepsIff(m: Moment, room: string, scene: string)
    requires Inv(m) && scene != ""
    ensures Inv(Take(m, Binds(room, scene))) <==> Timely(m, Binds(room, scene))
  {
    BindSceneIsSoundIff(m.s, room, scene);
    var m' := Take(m, Binds(room, scene));
    if scene in m.s.index && m.s.index[scene] !in m.pending + {room} {
      var other := m.s.index[scene];
      assert other in m'.s.rooms && m'.s.rooms[other].sceneID == scene && other !in m'.pending;
      assert m'.s.index[scene] == room;
    }
  }

  lemma RemovesKeepsIff(m: Moment, scene: string)
    requires Inv(m)
    ensures Inv(Take(m, Removes(scene))) <==> Timely(m, Removes(scene))
  {
    assert forall id :: id in m.s.rooms && m.s.rooms[id].sceneID == scene ==> id in RoomsOf(m.s, scene);
    if RoomsOf(m.s, scene) != {} && scene != "" {
      var id :| id in RoomsOf(m.s, scene);
      assert id in Take(m, Removes(scene)).s.rooms;
    }
  }

  lemma DeleteKeepsIff(m: Moment, scene: string)
    requires Inv(m)
    ensures Inv(Take(m, Whole(DeleteScene(scene)))) <==> Timely(m, Whole(DeleteScene(scene)))
  {
    RemovesKeepsIff(m, scene);
    if scene !in m.s.scenes && scene != "" {
      assert RoomsOf(m.s, scene) == {};
    }
  }

  lemma CreateRoomKeepsIff(m: Moment, r: Request)
    requires Inv(m) && Fresh(m.s, r) && r.CreateRoom?
    ensures Inv(Take(m, Whole(r))) <==> Timely(m, Whole(r))
  {
    var m' := Take(m, Whole(r));
    assert m'.s.rooms[r.newRoom].sceneID == r.sceneID;
    if r.sceneID != "" && r.sceneID in m.s.index && m.s.index[r.sceneID] !in m.pending {
      var other := m.s.index[r.sceneID];
      assert other in m'.s.rooms && m'.s.rooms[other].sceneID == r.sceneID;
      assert m'.s.index[r.sceneID] == r.newRoom;
    }
  }

  lemma OpenKeepsIff(m: Moment, r: Request)
    requires Inv(m) && Fresh(m.s, r) && r.Open?
    ensures Inv(Take(m, Whole(r))) <==> Timely(m, Whole(r))
  {
    var m' := Take(m, Whole(r));
    if r.sceneID !in m.s.index {
      assert m'.s.rooms[r.newRoom].sceneID == r.sceneID;
    }
  }

  lemma SaveKeeps(m: Moment, r: Request)
    requires Inv(m) && Fresh(m.s, r) && r.Save?
    ensures Inv(Take(m, Whole(r)))
  {
  }

  lemma OthersKeep(m: Moment, r: Request)
    requires Inv(m) && (r.Publish? || r.CloseRoom? || r.RenameRoom? || r.RenameScene?)
    ensures Inv(Take(m, Whole(r)))
  {
  }

  lemma StepKeepsIff(m: Moment, step: Step)
    requires Inv(m) && Allowed(m.s, step)
    ensures Inv(Take(m, step)) <==> Timely(m, step)
  {
    match step
    case Whole(r) =>
      if r.CreateRoom? { CreateRoomKeepsIff(m, r); }
      else if r.Open? { OpenKeepsIff(m, r); }
      else if r.DeleteScene? { DeleteKeepsIff(m, r.sceneID); }
      else if r.Save? { SaveKeeps(m, r); }
      else { OthersKeep(m, r); }
    case Creates(_, _) =>
    case Sets(room, scene) => SetsKeepsIff(m, room, scene);
    case Binds(room, scene) => BindsKeepsIff(m, room, scene);
    case Removes(scene) => RemovesKeepsIff(m, scene);
  }

  ghost predicate AllInv(ms: seq<Moment>) {
    forall k :: 0 <= k < |ms| ==> Inv(ms[k])
  }

  ghost predicate AllTimely(ms: seq<Moment>, steps: seq<Step>)
    requires |ms| == |steps| + 1
  {
    forall k :: 0 <= k < |steps| ==> Timely(ms[k], steps[k])
  }

  lemma NextKeepsIff(ms: seq<Moment>, steps: seq<Step>, k: nat)
    requires IsRun(ms, steps) && k < |steps| && Inv(ms[k])
    ensures Inv(ms[k + 1]) <==> Timely(ms[k], steps[k])
  {
    assert Goes(ms[k], steps[k], ms[k + 1]);
    StepKeepsIff(ms[k], steps[k]);
  }

  lemma {:induction false} TimelyUpTo(ms: seq<Moment>, steps: seq<Step>, k: nat)
    requires IsRun(ms, steps) && k < |ms| && Inv(ms[0]) && AllTimely(ms, steps)
    ensures Inv(ms[k])
  {
    if k > 0 {
      TimelyUpTo(ms, steps, k - 1);
      NextKeepsIff(ms, steps, k - 1);
    }
  }

  /** However requests, the steps of first saves and those of deletions interleave, index, rooms and store agree all
      along if and only if every step is timely. */
  lemma AgreeIffTimely(ms: seq<Moment>, steps: seq<Step>)
    requires IsRun(ms, steps) && Inv(ms[0])
    ensures AllInv(ms) <==> AllTimely(ms, steps)
  {
    if AllTimely(ms, steps) {
      forall k | 0 <= k < |ms| ensures Inv(ms[k]) {
        TimelyUpTo(ms, steps, k);
      }
    }
    if AllInv(ms) {
      forall k | 0 <= k < |steps| ensures Timely(ms[k], steps[k]) {
        assert Inv(ms[k + 1]);
        NextKeepsIff(ms, steps, k);
      }
    }
  }

  /** With no save pending, to agree is to be consistent in full. */
  lemma AgreeWhenDone(ms: seq<Moment>, steps: seq<Step>, k: nat)
    requires IsRun(ms, steps) && Inv(ms[0]) && AllTimely(ms, steps)
    requires k < |ms| && ms[k].pending == {}
    ensures Consistent(ms[k].s)
  {
    TimelyUpTo(ms, steps, k);
  }

  /** The binding as a whole, of a room that has not this scene yet: all is well after it exactly when the room is then
      registered and has no scene, and the scene is stored and no room is live for it. */
  lemma BindingKeepsIff(s: State, room: string, scene: string)
    requires Consistent(s) && scene != "" && (room in s.rooms ==> s.rooms[room].sceneID != scene)
    ensures Consistent(BindScene(SetScene(s, room, scene), room, scene))
            <==> room in s.rooms && s.rooms[room].sceneID == "" && scene in s.scenes && scene !in s.index
  {
    var mid := SetScene(s, room, scene);
    var end := BindScene(mid, room, scene);
    assert end.index[scene] == room && end.scenes == s.scenes;
    if room !in s.rooms {
      assert room !in end.rooms;
    } else {
      var was := s.rooms[room].sceneID;
      assert end.rooms[room].sceneID == scene;
      if was != "" {
        assert s.index[was] == room && end.index[was] == room;
      } else if scene in s.index {
        var other := s.index[scene];
        assert other != room && end.rooms[other].sceneID == scene;
      } else if scene in s.scenes {
        var m := Moment(s, {});
        assert !Named(s, room);
        StepKeepsIff(m, Sets(room, scene));
        StepKeepsIff(Take(m, Sets(room, scene)), Binds(room, scene));
      }
    }
  }

  // ---- what untimely steps do -----------------------------------------------------------------------------------

  /** The step points the scene's entry at another room. */
  predicate Repoints(step: Step, room: string, scene: string) {
    || (step.Whole? && step.request.CreateRoom? && step.request.sceneID == scene)
    || (step.Binds? && step.scene == scene && step.room != room)
  }

  predicate Closes(step: Step, room: string) {
    step.Whole? && step.request == CloseRoom(room)
  }

  /** The step registers a room under the id. */
  predicate Registers(step: Step, room: string) {
    step.Whole? && (step.request.CreateRoom? || step.request.Open?) && step.request.newRoom == room
  }

  lemma StepKeepsEntry(m: Moment, step: Step, room: string, scene: string)
    requires Allowed(m.s, step) && Names(m.s, scene, room)
    requires !Repoints(step, room, scene) && (Closes(step, room) ==> room !in m.s.rooms)
    ensures Names(Take(m, step).s, scene, room)
  {
  }

  lemma StepKeepsGone(m: Moment, step: Step, room: string)
    requires room !in m.s.rooms && !Registers(step, room)
    ensures room !in Take(m, step).s.rooms
  {
  }

  lemma {:induction false} EntryStays(ms: seq<Moment>, steps: seq<Step>, j: nat, k: nat, room: string, scene: string)
    requires IsRun(ms, steps) && j <= k < |ms| && Names(ms[j].s, scene, room)
    requires forall i :: j <= i < k ==> !Repoints(steps[i], room, scene) && !Closes(steps[i], room)
    ensures Names(ms[k].s, scene, room)
  {
    if j < k {
      EntryStays(ms, steps, j, k - 1, room, scene);
      assert Goes(ms[k - 1], steps[k - 1], ms[k]);
      StepKeepsEntry(ms[k - 1], steps[k - 1], room, scene);
    }
  }

  /** Two first saves of one room: whatever else goes on, and in whichever order their steps come, from the second
      Binds on the room is indexed under two scenes, until one of the entries is pointed elsewhere or it is closed. */
  lemma TwoFirstSaves(ms: seq<Moment>, steps: seq<Step>, i: nat, j: nat, k: nat, room: string, one: string, two: string)
    requires IsRun(ms, steps) && i < j < k < |ms| && one != two
    requires steps[i] == Binds(room, one) && steps[j] == Binds(room, two)
    requires forall n :: i < n < k ==>
      !Repoints(steps[n], room, one) && !Repoints(steps[n], room, two) && !Closes(steps[n], room)
    ensures Names(ms[k].s, one, room) && Names(ms[k].s, two, room) && !IndexSound(ms[k].s)
  {
    EntryStays(ms, steps, i + 1, k, room, one);
    EntryStays(ms, steps, j + 1, k, room, two);
  }

  /** The scene's entry names a room that is no longer registered. */
  ghost predicate Stale(s: State, room: string, scene: string) {
    Names(s, scene, room) && room !in s.rooms
  }

  lemma {:induction false} GoneStays(ms: seq<Moment>, steps: seq<Step>, j: nat, k: nat, room: string)
    requires IsRun(ms, steps) && j <= k < |ms| && room !in ms[j].s.rooms
    requires forall i :: j <= i < k ==> !Registers(steps[i], room)
    ensures room !in ms[k].s.rooms
  {
    if j < k {
      GoneStays(ms, steps, j, k - 1, room);
      StepKeepsGone(ms[k - 1], steps[k - 1], room);
    }
  }

  /** A close at any moment before the Binds of a first save, and the entry it makes is stale. */
  lemma CloseOvertakesFirstSave(ms: seq<Moment>, steps: seq<Step>, i: nat, j: nat, room: string, scene: string)
    requires IsRun(ms, steps) && i < j < |steps|
    requires Closes(steps[i], room) && steps[j] == Binds(room, scene)
    requires forall n :: i < n < j ==> !Registers(steps[n], room)
    ensures Stale(ms[j + 1].s, room, scene) && !IndexSound(ms[j + 1].s)
  {
    assert room !in ms[i + 1].s.rooms;
    GoneStays(ms, steps, i + 1, j, room);
  }

  lemma {:induction false} StaleStays(ms: seq<Moment>, steps: seq<Step>, j: nat, k: nat, room: string, scene: string)
    requires IsRun(ms, steps) && j <= k < |ms| && Stale(ms[j].s, room, scene)
    requires forall i :: j <= i < k ==> !Registers(steps[i], room) && !Repoints(steps[i], room, scene)
    ensures Stale(ms[k].s, room, scene)
  {
    if j < k {
      StaleStays(ms, steps, j, k - 1, room, scene);
      StepKeepsGone(ms[k - 1], steps[k - 1], room);
      assert Goes(ms[k - 1], steps[k - 1], ms[k]);
      StepKeepsEntry(ms[k - 1], steps[k - 1], room, scene);
    }
  }

  /** Nothing but a legacy create for the scene, another Binds of it or a reused room id mends a stale entry: until
      then deletion is refused, and opening answers with the room that is gone. */
  lemma StaleForGood(ms: seq<Moment>, steps: seq<Step>, j: nat, k: nat, room: string, scene: string,
                     name: string, newRoom: string)
    requires IsRun(ms, steps) && j <= k < |ms| && Stale(ms[j].s, room, scene)
    requires forall i :: j <= i < k ==> !Registers(steps[i], room) && !Repoints(steps[i], room, scene)
    ensures DoDelete(ms[k].s, scene) == (ms[k].s, Conflict)
    ensures DoOpen(ms[k].s, scene, name, newRoom) == (ms[k].s, RoomIs(room, true)) && room !in ms[k].s.rooms
  {
    StaleStays(ms, steps, j, k, room, scene);
  }

  /** A blank registered room, about to have its first save as a scene with a fresh id. */
  ghost predicate Blank(m: Moment, room: string, scene: string) {
    && Inv(m) && room in m.s.rooms && m.s.rooms[room].sceneID == ""
    && forall id :: id in m.s.rooms ==> m.s.rooms[id].sceneID != scene
  }

  /** An open of the new scene before it is indexed: the index stays sound, and two rooms are live for the scene. */
  lemma OpenOvertakesFirstSave(ms: seq<Moment>, steps: seq<Step>, room: string, scene: string, saved: Scene,
                               name: string, newRoom: string)
    requires IsRun(ms, steps) && Blank(ms[0], room, scene)
    requires var create, open := Creates(scene, saved), Whole(Open(scene, name, newRoom));
             || steps == [create, open, Sets(room, scene), Binds(room, scene)]
             || steps == [create, Sets(room, scene), open, Binds(room, scene)]
    ensures IndexSound(ms[4].s) && newRoom != room && RoomsOf(ms[4].s, scene) == {room, newRoom}
  {
    assert ms[1] == Take(ms[0], steps[0]) && ms[2] == Take(ms[1], steps[1]);
    assert ms[3] == Take(ms[2], steps[2]) && ms[4] == Take(ms[3], steps[3]);
    assert ms[4].s.rooms.Keys == ms[0].s.rooms.Keys + {newRoom};
    forall id | id in ms[0].s.rooms && id != room ensures ms[4].s.rooms[id] == ms[0].s.rooms[id] {}
  }

  /** A deletion of the new scene before it is indexed: a room is live for a scene that is not stored. */
  lemma DeleteOvertakesFirstSave(ms: seq<Moment>, steps: seq<Step>, room: string, scene: string, saved: Scene)
    requires IsRun(ms, steps) && Blank(ms[0], room, scene)
    requires var create, delete := Creates(scene, saved), Whole(DeleteScene(scene));
             || steps == [create, delete, Sets(room, scene), Binds(room, scene)]
             || steps == [create, Sets(room, scene), delete, Binds(room, scene)]
    ensures IndexSound(ms[4].s) && Names(ms[4].s, scene, room) && scene !in ms[4].s.scenes
  {
    assert ms[1] == Take(ms[0], steps[0]) && ms[2] == Take(ms[1], steps[1]);
    assert ms[3] == Take(ms[2], steps[2]) && ms[4] == Take(ms[3], steps[3]);
  }

  /** An open between the check of a deletion and the deletion: a room is live for a scene that is not stored. */
  lemma OpenOvertakesDelete(ms: seq<Moment>, steps: seq<Step>, scene: string, name: string, newRoom: string)
    requires IsRun(ms, steps) && Inv(ms[0]) && scene !in ms[0].s.index
    requires steps == [Whole(Open(scene, name, newRoom)), Removes(scene)]
    ensures IndexSound(ms[2].s) && Names(ms[2].s, scene, newRoom) && scene !in ms[2].s.scenes
  {
    assert ms[1] == Take(ms[0], steps[0]) && ms[2] == Take(ms[1], steps[1]);
  }
}
