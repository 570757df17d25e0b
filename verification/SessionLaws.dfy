/** What each request promises its callers, told from requests and answers alone: which file ids are safe, who has which
    name, what was published, what is refused, and what comes and goes. */
module SessionLaws {
  import opened SessionSpec
  import opened SessionRuns
  import opened SessionUploads
  import opened SortedIds

  // ---- file ids -------------------------------------------------------------------------------------------------

  /** The safe alphabet, written out. */
  const SAFE := "abcdefghijklmnopqrstuvwxyz" + "ABCDEFGHIJKLMNOPQRSTUVWXYZ" + "0123456789" + "-_"

  lemma Letters(c: char)
    ensures 'a' <= c <= 'z' <==> c in "abcdefghijklmnopqrstuvwxyz"
    ensures 'A' <= c <= 'Z' <==> c in "ABCDEFGHIJKLMNOPQRSTUVWXYZ"
  {
  }

  lemma Digits(c: char)
    ensures '0' <= c <= '9' <==> c in "0123456789"
    ensures c == '-' || c == '_' <==> c in "-_"
  {
  }

  lemma SafeChars(c: char)
    ensures FileIDChar(c) <==> c in SAFE
  {
    Letters(c);
    Digits(c);
  }

  /** A file id is valid exactly when it has 1 to 128 characters of the alphabet. */
  lemma ValidIdsAreSafe(id: string)
    ensures ValidFileID(id) <==> 1 <= |id| <= 128 && forall i :: 0 <= i < |id| ==> id[i] in SAFE
  {
    forall i | 0 <= i < |id| ensures FileIDChar(id[i]) <==> id[i] in SAFE {
      SafeChars(id[i]);
    }
  }

  /** So no valid id leads out of the directory of files. */
  lemma FilePathsStayInside(id: string)
    requires ValidFileID(id)
    ensures |FilePath(id)| > 13 && FilePath(id)[..13] == "public/files/" && FilePath(id)[13..] == id
    ensures forall i :: 13 <= i < |FilePath(id)| ==>
              FilePath(id)[i] != '/' && FilePath(id)[i] != '.' && FilePath(id)[i] != '\\' && FilePath(id)[i] != '%'
  {
    forall i | 13 <= i < |FilePath(id)|
      ensures FilePath(id)[i] != '/' && FilePath(id)[i] != '.' && FilePath(id)[i] != '\\' && FilePath(id)[i] != '%'
    {
      assert FilePath(id)[i] == id[i - 13];
    }
  }

  // ---- names ------------------------------------------------------------------------------------------------------

  /** White space as Unicode has it, by code. */
  const WHITE := {0x9, 0xA, 0xB, 0xC, 0xD, 0x20, 0x85, 0xA0, 0x1680, 0x2000, 0x2001, 0x2002, 0x2003, 0x2004, 0x2005,
                  0x2006, 0x2007, 0x2008, 0x2009, 0x200A, 0x2028, 0x2029, 0x202F, 0x205F, 0x3000}

  lemma Spaces(c: char)
    ensures IsSpace(c) <==> c as int in WHITE
  {
  }

  /** Only a name of nothing but white space is replaced. */
  lemma BlankIsUntitled(name: string)
    ensures TitleOf(name) == if forall i :: 0 <= i < |name| ==> name[i] as int in WHITE then "Untitled" else name
  {
    forall i | 0 <= i < |name| ensures IsSpace(name[i]) <==> name[i] as int in WHITE {
      Spaces(name[i]);
    }
  }

  /** A room's name: the title it was created or opened with, until the room or, while it is the scene's live one, its
      scene is renamed. Closing, saving, publishing or anything about other rooms leaves it. */
  lemma RoomNames(s: State, r: Request, room: string)
    requires IndexSound(s) && Fresh(s, r) && room in Handle(s, r).0.rooms
    ensures var name := Handle(s, r).0.rooms[room].name;
            if room !in s.rooms then (r.CreateRoom? || r.Open?) && name == TitleOf(r.name)
            else
              name == if || (r.RenameRoom? && r.room == room && r.name != "")
                         || (r.RenameScene? && r.name != "" && r.sceneID in s.scenes && Names(s, r.sceneID, room))
                      then r.name else s.rooms[room].name
  {
  }

  /** A scene's name: the room's at its first save, until the scene is renamed; its creator is whoever saved it first.
      */
  lemma SceneNames(s: State, r: Request, scene: string)
    requires Fresh(s, r) && scene in Handle(s, r).0.scenes
    ensures var saved := Handle(s, r).0.scenes[scene];
            if scene !in s.scenes then
              r.Save? && r.room in s.rooms && saved.name == s.rooms[r.room].name && saved.createdBy == r.savedBy
            else
              && saved.createdBy == s.scenes[scene].createdBy
              && saved.name == if r.RenameScene? && r.sceneID == scene && r.name != "" then r.name
                               else s.scenes[scene].name
  {
  }

  // ---- what comes and goes --------------------------------------------------------------------------------

  /** A room is registered from the answer that it was created until it is closed. */
  lemma RoomsComeAndGo(s: State, r: Request, room: string)
    ensures room in Handle(s, r).0.rooms <==>
              || ((r.CreateRoom? || r.Open?) && r.newRoom == room && Handle(s, r).1 == RoomIs(room, false)
                  && (r.Open? ==> r.sceneID !in s.index))
              || (room in s.rooms && r != CloseRoom(room))
  {
  }

  /** A scene is stored from the first save that is answered with its id until a deletion answered as done. */
  lemma ScenesComeAndGo(s: State, r: Request, scene: string)
    ensures scene in Handle(s, r).0.scenes <==>
              || (scene in s.scenes && !(r == DeleteScene(scene) && Handle(s, r).1 == Done))
              || (r.Save? && r.room in s.rooms && s.rooms[r.room].sceneID == "" && r.newScene == scene
                  && Handle(s, r).1 == Saved(scene, r.newVersion))
  {
  }

  /** A scene's live room: the one last created for it, opened for it or first saved as it, until that very room
      closes. */
  lemma EntriesComeAndGo(s: State, r: Request, scene: string, room: string)
    requires IndexSound(s) && Fresh(s, r)
    ensures Names(Handle(s, r).0, scene, room) <==>
              || (r.CreateRoom? && r.sceneID == scene != "" && r.newRoom == room)
              || (r.Open? && r.sceneID == scene && scene !in s.index && r.newRoom == room)
              || (r.Save? && r.room == room && room in s.rooms && s.rooms[room].sceneID == ""
                  && Handle(s, r).1 == Saved(scene, r.newVersion))
              || (Names(s, scene, room) && r != CloseRoom(room) && !(r.CreateRoom? && r.sceneID == scene))
  {
  }

  /** A room's scene: the one it was made for, or got at its first save. */
  lemma RoomScenes(s: State, r: Request, room: string)
    requires Fresh(s, r) && room in Handle(s, r).0.rooms
    ensures Handle(s, r).0.rooms[room].sceneID ==
            if (r.CreateRoom? || r.Open?) && room !in s.rooms then r.sceneID
            else if r.Save? && r.room == room && room in s.rooms && s.rooms[room].sceneID == "" && Handle(s, r).1.Saved?
            then Handle(s, r).1.sceneID
            else if room in s.rooms then s.rooms[room].sceneID else ""
  {
  }

  /** Nothing but a save adds to a history. */
  lemma OnlySavesAdd(s: State, r: Request, scene: string)
    requires Fresh(s, r) && !r.Save? && scene in Handle(s, r).0.scenes
    ensures scene in s.scenes && Handle(s, r).0.scenes[scene].versions == s.scenes[scene].versions
  {
  }

  /** A save that is answered as such has put its canvas last in that scene's history. */
  lemma SavedIsLast(s: State, room: string, savedBy: string, c: Canvas, newScene: string, newVersion: string)
    ensures var (s', answer) := DoSave(s, room, savedBy, c, newScene, newVersion);
            answer.Saved? ==>
              var history := VersionsOf(s', answer.sceneID);
              && history != []
              && var v := history[|history| - 1];
                 && v.id == answer.versionID == newVersion && v.savedBy == savedBy
                 && v.data.elements == c.elements && v.data.appState == c.appState
                 && Sorted(v.data.fileIDs) && forall id :: id in v.data.fileIDs <==> id in c.files
  {
    PayloadIsCanvas(c);
  }

  // ---- answers --------------------------------------------------------------------------------------------

  /** What the source refuses, and why. */
  lemma SavesAreRefused(s: State, r: Request)
    requires r.Save? || r.Publish?
    ensures var answer, c := Handle(s, r).1, r.canvas;
            var malformed := c.elements == [] || exists id :: id in c.files && !ValidFileID(id);
            && (answer == NotFound <==> r.room !in s.rooms)
            && (answer == BadRequest <==> r.room in s.rooms && malformed)
            && (answer == ServerError <==> r.Save? && r.room in s.rooms && !malformed
                                           && s.rooms[r.room].sceneID != "" && s.rooms[r.room].sceneID !in s.scenes)
            && (answer == NotFound || answer == BadRequest || answer == ServerError
                || (r.Publish? && answer == Done)
                || (r.Save? && answer == Saved(if s.rooms[r.room].sceneID == "" then r.newScene
                                               else s.rooms[r.room].sceneID, r.newVersion)))
  {
  }

  lemma OthersAreRefused(s: State, r: Request)
    requires r.DeleteScene? || r.CloseRoom? || r.RenameRoom? || r.RenameScene?
    ensures var answer := Handle(s, r).1;
            && (answer == BadRequest <==> (r.RenameRoom? || r.RenameScene?) && r.name == "")
            && (answer == Conflict <==> r.DeleteScene? && r.sceneID in s.index)
            && (answer == NotFound <==>
                  || (r.CloseRoom? && r.room !in s.rooms)
                  || (r.RenameRoom? && r.name != "" && r.room !in s.rooms)
                  || (r.RenameScene? && r.name != "" && r.sceneID !in s.scenes)
                  || (r.DeleteScene? && r.sceneID !in s.index && r.sceneID !in s.scenes))
            && (answer == BadRequest || answer == Conflict || answer == NotFound || answer == Done)
  {
  }

  /** A refused request changes nothing; only a save whose scene has gone has uploaded its files by then. */
  lemma RefusalsChangeNothing(s: State, r: Request)
    ensures Handle(s, r).1 in {NotFound, BadRequest, Conflict} ==> Handle(s, r).0 == s
    ensures Handle(s, r).1 == ServerError ==> Handle(s, r).0 == s.(blobs := Handle(s, r).0.blobs)
  {
  }

  // ---- blobs ----------------------------------------------------------------------------------------------

  lemma Uploaded(blobs: map<string, Blob>, files: map<string, Bytes>, id: string)
    ensures var after, path := Upload(blobs, files), FilePath(id);
            && (path in after <==> path in blobs || id in files)
            && (path in blobs ==> after[path] == blobs[path])
            && (path !in blobs && id in files ==> after[path] == File(files[id]))
  {
    UploadIsWithFiles(blobs, files);
    FilesAt(blobs, files, FilePath(id));
    assert FilePath(id)[|FILES_PREFIX|..] == id;
  }

  lemma UploadedBeside(blobs: map<string, Blob>, files: map<string, Bytes>)
    ensures var after := Upload(blobs, files);
            && (PUBLISHED_PATH in after <==> PUBLISHED_PATH in blobs)
            && (PUBLISHED_PATH in blobs ==> after[PUBLISHED_PATH] == blobs[PUBLISHED_PATH])
  {
    FilePathsDiffer();
    UploadIsWithFiles(blobs, files);
    FilesAt(blobs, files, PUBLISHED_PATH);
  }

  /** The blobs after a request: the upload, if it was not refused before, and the publish. */
  lemma BlobsAfter(s: State, r: Request)
    ensures Handle(s, r).0.blobs ==
            if !(r.Save? || r.Publish?) || Handle(s, r).1 in {NotFound, BadRequest} then s.blobs
            else if r.Save? then Upload(s.blobs, r.canvas.files)
            else Upload(s.blobs, r.canvas.files)["public/published-scene.json" := Published(PayloadOf(r.canvas))]
  {
  }

  /** A save or publish that is not refused has every file stored, as the request brought it if it was not there yet;
      and no request ever touches another file. */
  lemma FilesAreStored(s: State, r: Request, id: string)
    ensures var before, after, path := s.blobs, Handle(s, r).0.blobs, "public/files/" + id;
            if (r.Save? || r.Publish?) && !(Handle(s, r).1 in {NotFound, BadRequest}) && id in r.canvas.files then
              path in after && after[path] == if path in before then before[path] else File(r.canvas.files[id])
            else
              (path in after <==> path in before) && (path in before ==> after[path] == before[path])
  {
    FilePathsDiffer();
    assert FilePath(id) == "public/files/" + id;
    BlobsAfter(s, r);
    if r.Save? || r.Publish? {
      Uploaded(s.blobs, r.canvas.files, id);
    }
  }

  lemma PublishedStep(s: State, r: Request)
    ensures var before, after, path := s.blobs, Handle(s, r).0.blobs, "public/published-scene.json";
            if r.Publish? && Handle(s, r).1 == Done then
              path in after && after[path] == Published(PayloadOf(r.canvas))
            else
              (path in after <==> path in before) && (path in before ==> after[path] == before[path])
  {
    BlobsAfter(s, r);
    if r.Save? || r.Publish? {
      UploadedBeside(s.blobs, r.canvas.files);
    }
  }

  /** What was published last is what is there, field by field, until the next publish goes through. */
  lemma {:induction false} PublishedIsFetched(requests: seq<Request>, j: nat, k: nat)
    requires j < k <= |requests| && requests[j].Publish? && Answer(requests, j) == Done
    requires forall i :: j < i < k && requests[i].Publish? ==> Answer(requests, i) != Done
    ensures var c, blobs := requests[j].canvas, At(requests, k).blobs;
            && "public/published-scene.json" in blobs && blobs["public/published-scene.json"].Published?
            && var got := blobs["public/published-scene.json"].scene;
               && got.elements == c.elements && got.appState == c.appState
               && Sorted(got.fileIDs) && forall id :: id in got.fileIDs <==> id in c.files
  {
    NextState(requests, k - 1);
    PublishedStep(At(requests, k - 1), requests[k - 1]);
    if j < k - 1 {
      PublishedIsFetched(requests, j, k - 1);
    } else {
      PayloadIsCanvas(requests[j].canvas);
    }
  }
}
