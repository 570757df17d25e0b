/** Rooms, the scene index, saved scenes and blobs as values, with each HTTP handler as one step. */
module SessionSpec {
  import opened SortedIds

  type Bytes = seq<bv8>

  /** A room; the empty scene id means it has never been saved. */
  datatype Room = Room(name: string, sceneID: string)

  datatype Payload = Payload(elements: Bytes, appState: Bytes, fileIDs: seq<string>)
  datatype Version = Version(id: string, savedBy: string, data: Payload)
  datatype Scene = Scene(name: string, createdBy: string, versions: seq<Version>)

  /** A blob is an image file, or the published scene (its JSON kept as the value it encodes). */
  datatype Blob = File(data: Bytes) | Published(scene: Payload)

  datatype State = State(
    rooms: map<string, Room>,     // registered rooms by id
    index: map<string, string>,   // scene id -> id of its canonical live room
    scenes: map<string, Scene>,   // saved scenes by id
    blobs: map<string, Blob>)     // blobs by path

  datatype Canvas = Canvas(elements: Bytes, appState: Bytes, files: map<string, Bytes>)

  /** One request by an admin. Ids the server would draw at random come with the request. */
  datatype Request =
    | CreateRoom(name: string, sceneID: string, newRoom: string)
    | Open(sceneID: string, name: string, newRoom: string)
    | Save(room: string, savedBy: string, canvas: Canvas, newScene: string, newVersion: string)
    | Publish(room: string, canvas: Canvas)
    | DeleteScene(sceneID: string)
    | CloseRoom(room: string)
    | RenameRoom(room: string, name: string)
    | RenameScene(sceneID: string, name: string)

  datatype Response =
    | RoomIs(room: string, live: bool)
    | Saved(sceneID: string, versionID: string)
    | Done
    | BadRequest | NotFound | Conflict | ServerError

  // ---- small pieces ---------------------------------------------------------------------------

  const FILES_PREFIX := "public/files/"
  const PUBLISHED_PATH := "public/published-scene.json"
  const MAX_FILE_ID := 128

  predicate FileIDChar(c: char) {
    'a' <= c <= 'z' || 'A' <= c <= 'Z' || '0' <= c <= '9' || c == '-' || c == '_'
  }

  predicate ValidFileID(id: string) {
    id != "" && |id| <= MAX_FILE_ID && forall i :: 0 <= i < |id| ==> FileIDChar(id[i])
  }

  function FilePath(id: string): string { FILES_PREFIX + id }

  /** White space as unicode.IsSpace has it. */
  predicate IsSpace(c: char) {
    '\t' <= c <= '\r' || c == ' ' || c == '\U{0085}' || c == '\U{00A0}' || c == '\U{1680}'
    || '\U{2000}' <= c <= '\U{200A}' || c == '\U{2028}' || c == '\U{2029}' || c == '\U{202F}'
    || c == '\U{205F}' || c == '\U{3000}'
  }

  /** A blank title becomes "Untitled". */
  function TitleOf(name: string): string {
    if forall i :: 0 <= i < |name| ==> IsSpace(name[i]) then "Untitled" else name
  }

  // ---- uploads ----------------------------------------------------------------------------------

  lemma FilePathsDiffer()
    ensures forall a, b :: FilePath(a) == FilePath(b) ==> a == b
    ensures forall a :: FilePath(a) != PUBLISHED_PATH
  {
    forall a, b | FilePath(a) == FilePath(b) ensures a == b {
      assert FilePath(a)[|FILES_PREFIX|..] == a && FilePath(b)[|FILES_PREFIX|..] == b;
    }
    forall a ensures FilePath(a) != PUBLISHED_PATH {
      assert FilePath(a)[7] == 'f' && PUBLISHED_PATH[7] == 'p';
    }
  }

  /** Store one file unless its path is taken. */
  function PutNew(blobs: map<string, Blob>, id: string, data: Bytes): map<string, Blob> {
    if FilePath(id) in blobs then blobs else blobs[FilePath(id) := File(data)]
  }

  function PutAll(blobs: map<string, Blob>, files: map<string, Bytes>, ids: seq<string>): map<string, Blob>
    requires forall id :: id in ids ==> id in files
  {
    if ids == [] then blobs
    else
      var last := |ids| - 1;
      PutNew(PutAll(blobs, files, ids[..last]), ids[last], files[ids[last]])
  }

  /** uploadFiles: the files in the order of their ids. */
  ghost function Upload(blobs: map<string, Blob>, files: map<string, Bytes>): map<string, Blob> {
    InMembers(SortedList(files.Keys));
    PutAll(blobs, files, SortedList(files.Keys))
  }

  /** What that comes to: files not stored yet are added, and a path already taken keeps its blob. */
  function WithFiles(blobs: map<string, Blob>, files: map<string, Bytes>): map<string, Blob> {
    FilePathsDiffer();
    blobs + map id | id in files && FilePath(id) !in blobs :: FilePath(id) := File(files[id])
  }

  predicate ValidFiles(files: map<string, Bytes>) {
    forall id :: id in files ==> ValidFileID(id)
  }

  ghost function PayloadOf(c: Canvas): Payload {
    Payload(c.elements, c.appState, SortedList(c.files.Keys))
  }

  // ---- the handlers -------------------------------------------------------------------------------

  /** Room creation: blank, or (legacy) seeded from a scene, which then becomes canonical for it. */
  function DoCreate(s: State, name: string, sceneID: string, newRoom: string): State {
    s.(rooms := s.rooms[newRoom := Room(TitleOf(name), sceneID)],
       index := if sceneID != "" then s.index[sceneID := newRoom] else s.index)
  }

  function DoOpen(s: State, sceneID: string, name: string, newRoom: string): (State, Response) {
    if sceneID in s.index then (s, RoomIs(s.index[sceneID], true))
    else (s.(rooms := s.rooms[newRoom := Room(TitleOf(name), sceneID)], index := s.index[sceneID := newRoom]),
          RoomIs(newRoom, false))
  }

  /** A room's first save creates its scene and binds the room to it; later ones append a version. */
  ghost function Record(s: State, room: string, savedBy: string, data: Payload, newScene: string, newVersion: string)
    : (State, Response)
    requires room in s.rooms
  {
    var r := s.rooms[room];
    var version := Version(newVersion, savedBy, data);
    if r.sceneID == "" then
      (s.(scenes := s.scenes[newScene := Scene(r.name, savedBy, [version])],
          rooms := s.rooms[room := r.(sceneID := newScene)],
          index := s.index[newScene := room]),
       Saved(newScene, newVersion))
    else if r.sceneID in s.scenes then
      var scene := s.scenes[r.sceneID];
      (s.(scenes := s.scenes[r.sceneID := scene.(versions := scene.versions + [version])]),
       Saved(r.sceneID, newVersion))
    else (s, ServerError)
  }

  ghost function DoSave(s: State, room: string, savedBy: string, c: Canvas, newScene: string, newVersion: string)
    : (State, Response)
  {
    if room !in s.rooms then (s, NotFound)
    else if c.elements == [] || !ValidFiles(c.files) then (s, BadRequest)
    else Record(s.(blobs := Upload(s.blobs, c.files)), room, savedBy, PayloadOf(c), newScene, newVersion)
  }

  ghost function DoPublish(s: State, room: string, c: Canvas): (State, Response) {
    if room !in s.rooms then (s, NotFound)
    else if c.elements == [] || !ValidFiles(c.files) then (s, BadRequest)
    else (s.(blobs := Upload(s.blobs, c.files)[PUBLISHED_PATH := Published(PayloadOf(c))]), Done)
  }

  /** Deletion is refused while a room is live for the scene. */
  function DoDelete(s: State, sceneID: string): (State, Response) {
    if sceneID in s.index then (s, Conflict)
    else if sceneID !in s.scenes then (s, NotFound)
    else (s.(scenes := s.scenes - {sceneID}), Done)
  }

  /** The index entry goes with the room if the room was the canonical one. */
  function DoClose(s: State, room: string): (State, Response) {
    if room !in s.rooms then (s, NotFound)
    else
      var scene := s.rooms[room].sceneID;
      (s.(rooms := s.rooms - {room},
          index := if scene != "" && scene in s.index && s.index[scene] == room then s.index - {scene} else s.index),
       Done)
  }

  function DoRenameRoom(s: State, room: string, name: string): (State, Response) {
    if name == "" then (s, BadRequest)
    else if room !in s.rooms then (s, NotFound)
    else (s.(rooms := s.rooms[room := s.rooms[room].(name := name)]), Done)
  }

  function DoRenameScene(s: State, sceneID: string, name: string): (State, Response) {
    if name == "" then (s, BadRequest)
    else if sceneID !in s.scenes then (s, NotFound)
    else
      var renamed := s.(scenes := s.scenes[sceneID := s.scenes[sceneID].(name := name)]);
      if sceneID in s.index && s.index[sceneID] in s.rooms then
        (renamed.(rooms := s.rooms[s.index[sceneID] := s.rooms[s.index[sceneID]].(name := name)]), Done)
      else (renamed, Done)
  }

  ghost function Handle(s: State, r: Request): (State, Response) {
    match r
    case CreateRoom(name, sceneID, newRoom) => (DoCreate(s, name, sceneID, newRoom), RoomIs(newRoom, false))
    case Open(sceneID, name, newRoom) => DoOpen(s, sceneID, name, newRoom)
    case Save(room, savedBy, c, newScene, newVersion) => DoSave(s, room, savedBy, c, newScene, newVersion)
    case Publish(room, c) => DoPublish(s, room, c)
    case DeleteScene(sceneID) => DoDelete(s, sceneID)
    case CloseRoom(room) => DoClose(s, room)
    case RenameRoom(room, name) => DoRenameRoom(s, room, name)
    case RenameScene(sceneID, name) => DoRenameScene(s, sceneID, name)
  }

  // ---- runs -----------------------------------------------------------------------------------------

  const EMPTY := State(map[], map[], map[], map[])

  ghost function After(requests: seq<Request>): State
    decreases |requests|, 1
  {
    if requests == [] then EMPTY else Latest(requests)
  }

  /** The state the last request leads to. */
  ghost function Latest(requests: seq<Request>): State
    requires requests != []
    decreases |requests|, 0
  {
    Handle(After(requests[..|requests| - 1]), requests[|requests| - 1]).0
  }

  /** The state before the k-th request, and the answer to it. */
  ghost function At(requests: seq<Request>, k: nat): State
    requires k <= |requests|
  {
    After(requests[..k])
  }

  ghost function Answer(requests: seq<Request>, k: nat): Response
    requires k < |requests|
  {
    Handle(At(requests, k), requests[k]).1
  }

  /** Random ids are fresh, and scene ids in paths are not empty. */
  ghost predicate Fresh(s: State, r: Request) {
    match r
    case CreateRoom(_, _, newRoom) => newRoom !in s.rooms
    case Open(sceneID, _, newRoom) => newRoom !in s.rooms && sceneID != ""
    case Save(_, _, _, newScene, newVersion) =>
      && newScene != "" && newScene !in s.scenes && newScene !in s.index
      && (forall id :: id in s.rooms ==> s.rooms[id].sceneID != newScene)
      && (forall scene, i :: scene in s.scenes && 0 <= i < |s.scenes[scene].versions|
            ==> s.scenes[scene].versions[i].id != newVersion)
    case _ => true
  }

  ghost predicate FreshRun(requests: seq<Request>) {
    forall k :: 0 <= k < |requests| ==> Fresh(At(requests, k), requests[k])
  }

  /** No legacy creation of a room for a scene. */
  ghost predicate NoLegacy(requests: seq<Request>) {
    forall k :: 0 <= k < |requests| && requests[k].CreateRoom? ==> requests[k].sceneID == ""
  }

  /** Scenes are opened only if they are stored. */
  ghost predicate OpensStored(requests: seq<Request>) {
    forall k :: 0 <= k < |requests| && requests[k].Open? ==> requests[k].sceneID in At(requests, k).scenes
  }

  lemma NextState(requests: seq<Request>, k: nat)
    requires k < |requests|
    ensures At(requests, k + 1) == Handle(At(requests, k), requests[k]).0
  {
    var upTo := requests[..k + 1];
    assert upTo[..k] == requests[..k] && After(upTo) == Latest(upTo);
  }
}
