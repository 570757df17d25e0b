# phil-canvas, verified

A Dafny model of the parts of the collaborative canvas where correctness spans several functions or whole runs.

**The replicated canvas** (`Canvas*.dfy`). Every client holds a scene of element objects, which Excalidraw mutates in
place, and a replica of a shared id-to-element map. A version gate decides what a scene publishes; clones keep scene,
shared map and loaded history apart; a restore merges a saved version into the live scene. `SyncSpec`, `Restore` and
`LocalOps` say what these steps compute on values, `Sync`, the methods of `Restore`, and `Replicas` are the code on
the heap, proved to compute exactly that over any run of commands. On top of it: convergence of any number of peers
(`Convergence`), exactness of restores (`Restore`), the absence of echo with a bound on write transactions (`Echo`),
whole runs of one client (`Coverage`), and the latch that answers a close once (`CloseSignals`).

What is assumed of foreign code is in three places. Excalidraw's `reconcileElements` keeps, per id, a value of the
higher version (`Reconcile.KeepsHigherVersion` and `Reconcile.IsReconciled`; ties and the order of the result are open;
`HigherVersion.PremiseCanBeMet` exhibits a reconciler of this kind). What a Y.Map shows is determined by the
transactions it has received, each entry being one some transaction wrote (`Convergence.ShowsUpdates`), and a replica
sees its own write at once (`Convergence.Publishes`); `Convergence.InTagOrder` meets both. And of the user's actions
(`LocalOps.Enabled`): an edit raises its element's version, a drawn element has a new id, and a saved version has unique
ids.

**Documents and sessions** (`Session*.dfy`, `Rooms.dfy`, `Stores.dfy`, `Handlers.dfy`). `SessionSpec` has rooms, scene
index, saved scenes and blobs as values, and each handler as one step; `SessionRuns` proves what every run keeps, and
`SessionLaws` what each request promises, told from requests and answers; `SessionRaces`, `SessionBytes` and
`SessionBinding` take handlers apart where they are not single steps. `Rooms`, `Stores` and `Handlers` are the mutable
registry, stores and handlers: each handler method is proved to change the state, and answer, exactly as its step
says, and `HandlerRuns` carries that to any sequence of requests, with connections coming and going, so that what
`SessionRuns` proves holds of the objects. `mine`, in their contracts, are any objects of the caller's, none of which
ever comes to hold stored data.

**The relay** (`Relay*.dfy`, `Rooms.dfy`). `RelaySpec` is the room's relay as interleaved atomic steps: the bounded
queue of each connection, read pumps in the middle of a broadcast, senders between a full queue and the close that
follows it, write pumps holding a frame, close-alls in progress. `RelayEvents` tells from the events alone who is in
the room and what was read from whom; in these terms `RelayDelivery`, `RelayClose` and `RelayOrder` prove, for every
interleaving, what can be on a wire, with each frame counted as offered when its `Send` takes effect; `RelayCalls`
does so in the order of the calls themselves. `RelayClients` and `Rooms.Room` are the code, tied to the same steps;
what others do to a connection between an overflow and its close, or to a room while a connection is served, is
arbitrary there too. `RelayProgress` proves that nobody ever waits for a slow connection. Close frames end a
connection's traffic as section 5.5.1 of RFC 6455 has it, and codes 4001 and 4003 are from the private range of its
section 7.4.2. The one assumption is that a write on a closed connection fails.

**The rate limiter** (`RateLimit*.dfy`). The in-place sliding window, against the full history of allowed attempts.

## What turned out not to hold

- A publish is a per-id maximum only when ids are unique in the scene. `SyncSpec.RepeatedIdLosesAnEdit` is the
  counterexample and `SyncSpec.PublishCoversSceneIff` the exact condition, for any list of elements.
- A first save creates its scene, sets it in the room and indexes the room in three steps, and a deletion checks before
  it deletes. Whether rooms, index and store still agree afterwards depends on what comes in between.
  `SessionBinding.AgreeIffTimely` is the exact condition, over whole runs of interleaved steps: each step must be timely,
  which is something to look up just before it. A scene is set in time in a room that no entry names, while the scene
  is stored; the room is indexed in time if it is still registered with that scene and no other room has the entry; a
  scene is opened in time if it is live or stored, and deleted in time if no registered room has it.
  `SessionBinding.TwoFirstSaves`, `SessionBinding.CloseOvertakesFirstSave` (for good: `SessionBinding.StaleForGood`),
  `SessionBinding.OpenOvertakesFirstSave`, `SessionBinding.DeleteOvertakesFirstSave` and
  `SessionBinding.OpenOvertakesDelete` are what untimely steps do.
- An overflowing `Send` closes the connection only after its select. Until then another `Send` can overtake it, and the
  wire is no prefix of the calls. `RelayOvertaken.OverflowIsOvertaken` is such a run, and `RelayCalls.CallsArePrefixIff`
  the exact condition. In the order in which the calls take effect, and for each sender by itself, there is no gap.
- Overlapping uploads can rewrite a file blob. `SessionBytes.BytesStayIffAgree` says exactly when they do not: when the
  canvases that uploads accept agree on the bytes of each file id, as content-addressed ids do. Availability survives
  in any case.

## Model

| member | source | states |
|---|---|---|
| SyncSpec.CollectMembers | frontend/src/collab/sync.ts:27-39 | collected are exactly the scene's elements that are new or strictly above their shared copy, deletions included |
| SyncSpec.PublishIsNewest | frontend/src/collab/sync.ts:27-56 | with unique ids, publishing leaves each id at the larger of the two versions with that side's value; ties keep the shared copy |
| SyncSpec.PublishTwice | frontend/src/collab/sync.ts:19-38 | a second publish of the same scene writes nothing, and no key is ever removed |
| SyncSpec.PublishKeepsLastOpen | frontend/src/collab/sync.ts:27-56 | for any list, repeated ids included: of each id the last element past the gate is stored, and an id with no such element keeps its entry |
| SyncSpec.PublishCoversSceneIff | frontend/src/collab/sync.ts:27-56 | a publish leaves no scene element above the shared map if and only if the last gated element of each id is its highest |
| SyncSpec.RepeatedIdLosesAnEdit | frontend/src/collab/sync.ts:27-56 | two elements of one id, the later with the lower version: the shared copy ends below the scene and the next publish writes again |
| SyncSpec.SeedIsAPublish | frontend/src/collab/useCollaborativeSync.ts:86-93 | the ungated write of a seed into a new document is what publishing the seed would be |
| Sync.CollectElementUpdates | frontend/src/collab/sync.ts:27-39 | the loop over objects collects what the gate on values lets through, and only objects of the scene |
| Sync.WriteElements | frontend/src/collab/sync.ts:42-56 | the map ends with the written values, last one per id; every object in it is a new clone or was there before |
| Sync.ReadElements | frontend/src/collab/sync.ts:58-66 | a listing of the map, every value exactly once, in new objects only |
| Restore.MergeIsUnion | frontend/src/collab/restoreVersion.ts:21-66 | the merge has each id of the union exactly once, and for each what the two inputs call for: restored content one above live, restored-only as it was, live-only as a tombstone one above, tombstones untouched |
| Restore.MergeById | frontend/src/collab/restoreVersion.ts:21-66 | the same as a map from ids |
| Restore.MergeRaisesLiveIds | frontend/src/collab/restoreVersion.ts:27-39 | a live id moves strictly up if and only if it is not a tombstone the snapshot lacks; such a tombstone is untouched |
| Restore.MergeDraws | frontend/src/collab/restoreVersion.ts:41-66 | the merge lists the restored elements in their order, then live ones in theirs; each element whose version moves carries the nonce and time of a stamp of its own, and every other is passed through whole |
| Restore.VisibleIsBodies | frontend/src/ui/DocumentControls.tsx:72-81 | two maps show the same if and only if the same ids are undeleted in both, with the same bodies |
| Restore.RestoreIsExact | frontend/src/ui/DocumentControls.tsx:72-81 | from a coherent state, merge, replace and publish leave the shared map showing exactly the snapshot, up to version, nonce and timestamp |
| Restore.LastRestoreWins | frontend/src/ui/DocumentControls.tsx:72-81 | after any sequence of restores the shared map shows the last snapshot, and the state is coherent again |
| Restore.BumpVersion | frontend/src/collab/restoreVersion.ts:11-19 | in place: one above the base, and nonce and time those that were drawn; nothing else |
| Restore.MergeRestoredElements | frontend/src/collab/restoreVersion.ts:41-66 | the two loops over objects compute the merge; the result holds new clones and live tombstones only, no object twice; neither input is written |
| Replicas.Replica.EditInPlace | frontend/src/collab/sync.ts:49-54 | mutating a scene element changes the scene at that index and neither the shared copy nor loaded history |
| Replicas.Replica.HandleChange | frontend/src/collab/useCollaborativeSync.ts:192-203 | publishes the scene, or does nothing while a remote change is being applied; keeps map, scene and history free of common objects |
| Replicas.Replica.ApplyRemoteElements | frontend/src/collab/useCollaborativeSync.ts:116-132 | the scene becomes what reconciling picks of scene and shared map, and the change event fired in between writes nothing |
| Replicas.Replica.ReceiveUpdates | frontend/src/collab/useCollaborativeSync.ts:134-138 | a peer's transaction is stored and then merged into the scene |
| Replicas.Replica.RestoreVersion | frontend/src/ui/DocumentControls.tsx:72-81 | the scene is replaced wholesale by the merge with the loaded version |
| Replicas.Replica.Run | frontend/src/collab/sync.ts:47-66 | any run of edits, drawing, changes, remote updates and restores computes on objects what it computes on values, and no object of the shared map is ever held by scene or history |
| Replicas.EditWaitsForTheGate | frontend/src/collab/sync.ts:19-38 | an in-place edit leaves the shared copy alone, and is collected next exactly when its version exceeds that copy's |
| Replicas.StoringTheLiveObject | frontend/src/collab/sync.ts:49-54 | without the clone on write, no edit of the stored object would ever pass the gate |
| LocalOps.OpRaises | frontend/src/collab/restoreVersion.ts:21-40 | every local action keeps ids unique, drops no id, and moves what it changes to a strictly higher version |
| Convergence.QuietScenesAgree | frontend/src/collab/useCollaborativeSync.ts:120-137 | in every run of any number of peers, once everything is delivered and nobody has anything to publish, all scenes hold the same version of every id; the same content if no two actions gave one id and version different content, and the same elements if no two collided at all |
| Convergence.RestoreIsExactInRuns | frontend/src/ui/DocumentControls.tsx:72-81 | in every reachable state in which no two actions gave one id and version different content, a published restore shows exactly the snapshot |
| Convergence.PublishSettles | frontend/src/collab/useCollaborativeSync.ts:192-199 | in every run, a publish leaves its peer nothing to publish, in a transaction holding exactly what there was |
| Convergence.DeliveryReaches | frontend/src/collab/useCollaborativeSync.ts:116-138 | in every run, a delivery reaches its peer, whose scene then covers what it has received and has lost nothing |
| Convergence.InTagOrderShowsUpdates | frontend/src/collab/useCollaborativeSync.ts:77-79 | a document in which transactions apply in one order shows only what they wrote: the assumption on the shared map can be met |
| Convergence.InTagOrderWritesLocally | frontend/src/collab/sync.ts:48-55 | in that document a replica's own write is visible to it at once |
| Coverage.RunStaysAhead | frontend/src/collab/useCollaborativeSync.ts:116-138 | in every run of one client the scene holds every shared id at a version no lower, and no element disappears or steps back |
| Coverage.ChangeSettles | frontend/src/collab/useCollaborativeSync.ts:192-199 | after any run, one change leaves scene and shared map at the same version of every id |
| HigherVersion.PremiseCanBeMet | frontend/src/collab/useCollaborativeSync.ts:116-127 | some reconciler keeps the higher version of each id, as is assumed of Excalidraw's |
| Echo.AdoptedIsNotWrittenBack | frontend/src/collab/sync.ts:24-26 | after a remote apply exactly those elements are published that the scene already held above the shared copies |
| Echo.PublishMovesUp | frontend/src/collab/sync.ts:27-56 | a publish moves no id down, and a non-empty one moves some id strictly up |
| Echo.PublishSpends | frontend/src/collab/sync.ts:27-56 | each element a publish writes uses up an authored version not used before |
| Echo.WritesAreBoundedByEdits | frontend/src/collab/useCollaborativeSync.ts:120-137 | in every run no shared version exceeds the highest some scene holds, and the shared map is changed at most as often as there are versions the user actions produced |
| Echo.StepsSettle | frontend/src/collab/useCollaborativeSync.ts:120-137 | in every run, a publish leaves its scene nothing to publish and an apply leaves its scene nothing to adopt |
| CloseSignals.Session.OnTextMessage | frontend/src/collab/useCollaborativeSync.ts:95-108 | whatever signals came in, exactly the first one that asks for a callback got it, and the provider is disconnected exactly then |
| CloseSignals.Session.OnClose | frontend/src/collab/useCollaborativeSync.ts:95-112 | the same for close codes, as `CloseSignals.FirstEndSettles` tells them apart |
| CloseSignals.FirstEndSettles | frontend/src/collab/useCollaborativeSync.ts:105-112 | the first closing text, code 4001 or code 4003 settles what is reported: the room closed for the first two, failed authentication for 4003; other signals report nothing |
| CloseSignals.ToldOnce | frontend/src/collab/authSocket.ts:46-67 | in every run of the relay, and for any reading of text payloads, a client is told its room closed exactly when a text frame that reads so has reached it, the server's or one relayed from another participant, and exactly once |
| SessionRuns.IndexIsSound | backend/internal/rooms/rooms.go:204-277 | in every run, legacy creates included, each index entry names a registered room bound to exactly that scene |
| SessionRuns.OneRoomPerScene | backend/internal/rooms/rooms.go:214-235 | without legacy creates the index lookup is a brute-force search over registered rooms, which finds at most one |
| SessionRuns.CloseSparesOthers | backend/internal/rooms/rooms.go:264-277 | closing a room removes an index entry if and only if the entry is that room's own |
| SessionRuns.SceneIsFixed | backend/internal/rooms/rooms.go:264-277 | a room stays registered until it is closed, and until then its scene, once set, never changes |
| SessionRuns.SessionsBalance | backend/internal/httpapi/scenes.go:283-303 | opens that created a room plus first saves minus closes is 1 exactly when the scene has a live room, and 0 otherwise |
| SessionRuns.LiveRoomStays | backend/internal/rooms/rooms.go:218-244 | with no close of its room a scene keeps the very room it has |
| SessionRuns.OpensAgree | backend/internal/httpapi/scenes.go:279-303 | two opens of a scene with no close in between return the same room, the second as live |
| SessionRuns.LiveIsStored | backend/internal/httpapi/scenes.go:342-364 | in runs that open stored scenes only, every live room's scene stays in the store |
| SessionRuns.SaveAppendsOne | backend/internal/httpapi/scenes.go:61-111 | in those runs a well-formed save in a live room always succeeds and appends exactly one version, with the elements, app state, file ids and attribution of the request, to that room's scene and no other |
| SessionRuns.PayloadIsCanvas | backend/internal/httpapi/scenes.go:79-83 | a version holds the elements and the app state of its canvas, and the ids of its files, sorted |
| SessionRuns.HistoryOnlyGrows | backend/internal/scenes/memory.go:52-66 | earlier version lists are prefixes of later ones until a deletion of the scene is answered as done |
| SessionRuns.StoredUntilDeleted | backend/internal/scenes/memory.go:107-116 | a scene stays stored until a deletion of it is answered as done |
| SessionRuns.FetchFindsFirst | backend/internal/scenes/memory.go:118-133 | a fetch finds the first version with the id, and misses exactly the ids no version has |
| SessionRuns.SavedVersionIsFetched | backend/internal/scenes/memory.go:118-133 | a version id returned by a save fetches the very elements, app state and file ids of that save after any later requests, until a deletion of the scene is answered as done |
| SessionRuns.FilesStayAvailable | backend/internal/httpapi/scenes.go:205-235 | in every reachable state each file of every stored version and of the published scene has a blob, and no file blob is ever overwritten |
| SessionLaws.ValidIdsAreSafe | backend/internal/httpapi/scenes.go:376-390 | a file id is valid if and only if it has 1 to 128 characters of the alphabet, which is written out |
| SessionLaws.FilePathsStayInside | backend/internal/httpapi/scenes.go:219-220 | the path of a valid id is the prefix and then the id, with no slash, dot, backslash or percent sign |
| SessionLaws.BlankIsUntitled | backend/internal/rooms/rooms.go:185-187 | a title is replaced if and only if it is nothing but white space, listed by code |
| SessionLaws.RoomNames | backend/internal/httpapi/rooms.go:108-135 | a room keeps the title it was created or opened with until it or the scene it is live for is renamed |
| SessionLaws.SceneNames | backend/internal/httpapi/scenes.go:88-98 | a scene has the name its room had at the first save, and whoever made that save as its creator, until it is renamed |
| SessionLaws.RoomsComeAndGo | backend/internal/rooms/rooms.go:200-277 | a room is registered from the answer that creates it until it is closed |
| SessionLaws.ScenesComeAndGo | backend/internal/scenes/memory.go:35-116 | a scene is stored from the first save answered with its id until a deletion answered as done |
| SessionLaws.EntriesComeAndGo | backend/internal/rooms/rooms.go:200-277 | a scene's live room is the one last created for it, opened for it or first saved as it, until that very room is closed |
| SessionLaws.RoomScenes | backend/internal/httpapi/scenes.go:94-102 | a room's scene is the one it was made for, or the one its first save made |
| SessionLaws.OnlySavesAdd | backend/internal/scenes/memory.go:52-66 | no request but a save changes any history |
| SessionLaws.SavedIsLast | backend/internal/httpapi/scenes.go:83-110 | a save answered with a scene and version has put the canvas, under that version id and attribution, last in that scene's history |
| SessionLaws.SavesAreRefused | backend/internal/httpapi/scenes.go:64-110 | exactly when a save or publish is answered not found, bad request, server error, and otherwise what |
| SessionLaws.OthersAreRefused | backend/internal/httpapi/scenes.go:309-364 | exactly when closing, renaming or deleting is answered bad request, conflict, not found, or done |
| SessionLaws.RefusalsChangeNothing | backend/internal/httpapi/scenes.go:64-110 | a refused request changes nothing, but for the files of a save whose scene has gone |
| SessionLaws.FilesAreStored | backend/internal/httpapi/scenes.go:219-233 | a request that is not refused has all its files stored, each as it was if it was there and else as it was brought; no other file is touched |
| SessionLaws.PublishedIsFetched | backend/internal/httpapi/scenes.go:146-156 | the published scene is that of the last publish that went through, field by field, after any later requests |
| SessionRaces.RecordedFilesAreAvailable | backend/internal/httpapi/scenes.go:205-235 | however uploads of several saves and publishes interleave, every file id ever recorded has a blob from then on |
| SessionRaces.FinishedUploadsAreAvailable | backend/internal/httpapi/scenes.go:205-235 | told from the steps alone: once an upload has finished, every file it brought is there and stays |
| SessionBytes.BytesStayIffAgree | backend/internal/httpapi/scenes.go:205-233 | however uploads interleave, no blob ever changes if and only if the canvases that uploads accept agree on the bytes of every file id |
| SessionBytes.AgreementKeepsBytes | backend/internal/httpapi/scenes.go:205-233 | if the accepted canvases agree, every blob holds the bytes one of them has for its id, and keeps them |
| SessionBytes.DisagreementRewrites | backend/internal/httpapi/scenes.go:219-233 | for any two accepted canvases that disagree on an id, a run of their two uploads in which that blob changes after it was written |
| SessionBinding.SetSceneIsSoundIff | backend/internal/httpapi/scenes.go:100-100 | setting the scene in the room keeps the index sound if and only if the room is gone, has this scene already, or is named by no entry |
| SessionBinding.BindSceneIsSoundIff | backend/internal/httpapi/scenes.go:101-101 | indexing the room keeps it sound if and only if the room is registered and has this scene by then |
| SessionBinding.StepKeepsIff | backend/internal/httpapi/scenes.go:94-102 | each request, step of a first save or deletion keeps rooms, index and store in agreement if and only if it is timely |
| SessionBinding.BindingKeepsIff | backend/internal/httpapi/scenes.go:98-102 | the binding as a whole keeps the index sound and complete and live scenes stored if and only if, when it happens, the room is registered and has no scene, and the new scene is stored and not live |
| SessionBinding.AgreeIffTimely | backend/internal/httpapi/scenes.go:94-102 | over any run of interleaved steps they agree all along if and only if every step is timely |
| SessionBinding.AgreeWhenDone | backend/internal/rooms/rooms.go:204-244 | whenever no first save is in between its steps, the index is then sound and complete and every live room's scene is stored |
| SessionBinding.CloseOvertakesFirstSave | backend/internal/httpapi/scenes.go:94-102 | in any run, a close of the room at any moment before it is indexed leaves the new scene indexed to a room that is gone |
| SessionBinding.StaleForGood | backend/internal/rooms/rooms.go:218-277 | such an entry outlives any later steps: the document cannot be deleted and opens into the room that is gone, until the entry is pointed at another room or the room id is used again |
| SessionBinding.TwoFirstSaves | backend/internal/httpapi/scenes.go:94-102 | in any run, two first saves of one room, in whichever order their steps come, leave it indexed under two scenes until it is closed or an entry pointed elsewhere |
| SessionBinding.OpenOvertakesFirstSave | backend/internal/httpapi/scenes.go:94-102 | opening the new scene before it is indexed leaves two live rooms for it, with the index sound |
| SessionBinding.DeleteOvertakesFirstSave | backend/internal/httpapi/scenes.go:94-102 | deleting the new scene before it is indexed leaves a live room whose scene is not stored |
| SessionBinding.OpenOvertakesDelete | backend/internal/httpapi/scenes.go:350-358 | opening a scene between the check and the deletion leaves a live room whose scene is not stored |
| SortedIds.Sort | backend/internal/httpapi/scenes.go:217-217 | the sorted list of the ids, the only one there is |
| SortedIds.BeforeByFirstDifference | backend/internal/httpapi/scenes.go:217-217 | the order is told by the first difference: the lower character, or the end, comes first |
| SortedIds.SortedIsUnique | backend/internal/httpapi/scenes.go:217-217 | sorted lists of the same ids are equal |
| Rooms.Room.Serve | backend/internal/relay/handler.go:74-82 | whatever happens to a connection and to its room while it is served: it is in the room if and only if it was authenticated and nobody has taken it out, and everybody else is in the room as if it had never come |
| Rooms.Room.Depart | backend/internal/relay/client.go:79-84 | the read pump's teardown takes out this client and no other, nobody if a close-all already has, and ends the connection without touching what was offered or written |
| Rooms.Room.Broadcast | backend/internal/rooms/rooms.go:124-131 | every client but the sender is sent the frame exactly once, and the sender nothing |
| Rooms.Room.CloseAll | backend/internal/rooms/rooms.go:133-149 | the client set is emptied and every client that was in it is handed the message, then the directive |
| Rooms.HandedBothInOrder | backend/internal/rooms/rooms.go:145-148 | being handed both is being offered the one, then the other, last, with nothing taken back; if the connection survives exactly these two are queued behind what was queued |
| Rooms.Registry.Create | backend/internal/rooms/rooms.go:200-212 | one more room under its id, titled, and indexed if it has a scene; the index stays sound |
| Rooms.Registry.GetOrCreateForScene | backend/internal/rooms/rooms.go:214-227 | the indexed room, or a new one that becomes it; created exactly when the scene had none |
| Rooms.Registry.BindScene | backend/internal/rooms/rooms.go:237-244 | the room is canonical for the scene, other entries stay |
| Rooms.Registry.BindSaved | backend/internal/httpapi/scenes.go:99-102 | recording the scene in the room and indexing it keeps the index sound |
| Rooms.Registry.Delete | backend/internal/rooms/rooms.go:264-277 | the room goes, its index entry only if that entry is this very room |
| Stores.CloneVersion | backend/internal/scenes/memory.go:168-174 | equal contents in three new arrays |
| Stores.MemStore.CreateScene | backend/internal/scenes/memory.go:35-50 | one more scene with one version, held in arrays of the store's own |
| Stores.MemStore.AddVersion | backend/internal/scenes/memory.go:52-66 | the version is appended to that scene's history, or nothing changes and the scene is reported missing |
| Stores.MemStore.RenameScene | backend/internal/scenes/memory.go:95-105 | that scene's name changes, or it is reported missing |
| Stores.MemStore.DeleteScene | backend/internal/scenes/memory.go:107-116 | that scene goes, or it is reported missing |
| Stores.MemStore.GetVersion | backend/internal/scenes/memory.go:118-133 | the first version with the id, in new arrays, or reported missing |
| Stores.MemBlobStore.Exists | backend/internal/scenes/memory.go:146-151 | whether the path has a blob |
| Stores.MemBlobStore.Put | backend/internal/scenes/memory.go:153-158 | the path holds the bytes, in an array of the store's own |
| Stores.ScribbleOutside | backend/internal/scenes/memory.go:168-174 | writing over arrays that are not the store's changes nothing it holds |
| HandlerRuns.SavedDataIsOutOfReach | backend/internal/scenes/memory.go:52-66 | a save, the caller overwriting everything it saved from, any further requests, a fetch, overwriting what came back: the next fetch returns the elements, app state and file ids that were in the caller's arrays, unless a deletion of the scene has gone through |
| HandlerRuns.Serve | backend/internal/httpapi/scenes.go:64-364 | any run of requests on the objects, with any connections coming and going, leads to the state, and gives the answers, of the run of steps |
| Handlers.CheckFileID | backend/internal/httpapi/scenes.go:376-390 | true exactly for 1 to 128 characters of the alphabet as `SessionLaws.SAFE` has it |
| Handlers.App.UploadFiles | backend/internal/httpapi/scenes.go:205-235 | stores exactly the files not there yet and returns the sorted ids; an invalid id stores nothing at all |
| SessionUploads.UploadIsWithFiles | backend/internal/httpapi/scenes.go:219-233 | the loop over the sorted ids adds exactly the files that were missing and keeps every blob |
| Handlers.App.CreateRoom | backend/internal/httpapi/rooms.go:64-82 | changes the state and answers as the step for creating a room does |
| Handlers.App.CloseRoom | backend/internal/httpapi/rooms.go:84-102 | changes the state and answers as the step for closing does, and hands every connection of the room the defensive close |
| Handlers.App.RenameRoom | backend/internal/httpapi/rooms.go:108-135 | changes the state and answers as the step for renaming a room does |
| Handlers.App.Open | backend/internal/httpapi/scenes.go:279-303 | changes the state and answers as the step for opening a scene does |
| Handlers.App.Save | backend/internal/httpapi/scenes.go:60-111 | changes the state and answers as the step for saving does: not found, bad request, first save, later save, or scene gone; no object of the caller comes to hold stored data |
| Handlers.App.Publish | backend/internal/httpapi/scenes.go:125-156 | changes the state and answers as the step for publishing does; the published scene then has the elements, app state and file ids of the request; no object of the caller comes to hold stored data |
| Handlers.App.GetVersion | backend/internal/httpapi/scenes.go:188-203 | the first version with the id in the scene's history, in new arrays, or not found |
| Handlers.App.RenameScene | backend/internal/httpapi/scenes.go:309-340 | changes the state and answers as the step for renaming a scene does, its live room included |
| Handlers.App.DeleteScene | backend/internal/httpapi/scenes.go:342-364 | changes the state and answers as the step for deleting does: refused while a room is live |
| RelayProgress.NobodyIsBlocked | backend/internal/relay/client.go:54-75 | in every reachable room, whoever is in the middle of a broadcast, a teardown or a close-all has a step to take, whatever state the other connections are in |
| RelayProgress.WorkRunsOut | backend/internal/rooms/rooms.go:124-149 | in every run, what it is in the middle of is over after a bounded number of its own steps, whatever others do in between |
| RelayProgress.WriterCanAct | backend/internal/relay/client.go:110-139 | in every reachable room, a write pump with a frame queued or in hand, or on its way out, has a step to take |
| RelayProgress.AnythingCanArrive | backend/internal/relay/client.go:92-107 | anyone can connect, a reading client can be sent any frame or fail, any connection can break, and a room can be closed at any moment |
| RelayEvents.SaidIsRead | backend/internal/relay/client.go:92-107 | in every run, what a client is taken to have said is what was read from it, frame by frame, kind and data |
| RelayEvents.MembersAreTold | backend/internal/relay/handler.go:74-82 | in every run, the events tell who is connected, who is in the room, whom a close-all took and whose teardown has begun; only authenticated connections ever get in |
| RelayDelivery.DeliveryIsGapFree | backend/internal/relay/client.go:54-75 | under every interleaving, until a client's own teardown, the frames on its wire are a prefix of those offered, in the order in which their sends took effect; on an open connection with an idle pump, wire and queue are all that was offered; nothing follows a close frame |
| RelayDelivery.FullAtCapacity | backend/internal/relay/client.go:22-23 | at most 256 frames are ever queued, and a queue is found full with exactly 256 and its teardown not begun |
| RelayCalls.CallsArePrefixIff | backend/internal/relay/client.go:54-75 | in the order of the calls, the wire is a prefix if and only if the pump has not written past the first call that found the queue full |
| RelayOvertaken.OverflowIsOvertaken | backend/internal/relay/client.go:56-63 | a run in which a call overflows and another's frame is queued and written before the connection is closed |
| RelayClose.HandedExactlyOnce | backend/internal/rooms/rooms.go:133-149 | for any overlapping close-alls, a client that was in the room when one came is handed room-closed and then 4001, each exactly once, and any other gets neither |
| RelayClose.ClosePrecededByMessage | backend/internal/relay/client.go:65-75 | until its own teardown, a close frame on a client's wire is 4001, comes after room-closed, and is last |
| RelayOrder.OfferedInOrder | backend/internal/rooms/rooms.go:124-131 | what a receiver is offered from a sender is a contiguous run of what was read from the sender, kind and data, each frame once: from the first frame read with the receiver in the room to the last; nothing from itself |
| RelayOrder.WrittenInOrder | backend/internal/relay/client.go:92-107 | the same run, possibly cut off at the end, is what is on the receiver's wire |
| RelayClients.Connection.Select | backend/internal/relay/client.go:56-60 | one ready case of the select is taken, and the default only on a full queue, where nothing happens yet |
| RelayClients.Connection.Send | backend/internal/relay/client.go:54-75 | the select, and after an overflow the close, with anything others may do to the connection in between, broadcasts and close-alls included |
| RelayClients.SentOnce | backend/internal/relay/client.go:54-75 | whatever others do, a send adds its own frame to what is offered, last, takes nothing back, loses the frame only with the connection, and keeps delivery gap-free |
| RelayClients.Connection.WritePump | backend/internal/relay/client.go:110-139 | writes the queue in order; either all of it is written, or the pump has closed the connection after a prefix |
| RelayClients.Connection.Teardown | backend/internal/relay/client.go:80-84 | the done channel and the connection are closed, and the invariant behind gap-free delivery survives |
| RateLimitSpec.AllowedExactly | backend/internal/auth/ratelimit.go:27-49 | with a clock that does not step back between calls of the key, a call is allowed if and only if fewer than max of all earlier calls of its key were allowed at times strictly later than now minus the window |
| RateLimitSpec.WindowIsCapped | backend/internal/auth/ratelimit.go:8-16 | of the calls of a key, at most max were allowed in any half-open interval of the window's length |
| RateLimitSpec.RememberedIsHistory | backend/internal/auth/ratelimit.go:35-41 | the pruned slice always answers for the full history |
| RateLimiters.Compact | backend/internal/auth/ratelimit.go:35-41 | the loop that appends to a prefix of the slice it reads keeps exactly the times after the cutoff, in order |
| RateLimiters.RateLimiter.Allow | backend/internal/auth/ratelimit.go:27-49 | answers and remembers as the specification does, with no backing array shared by two keys |
| RateLimiters.Serve | backend/internal/auth/ratelimit.go:27-49 | any run of calls on the object gives the specified verdicts and memory |
| RateLimiters.VerdictAt | backend/internal/auth/ratelimit.go:27-49 | each of those verdicts is the one the specification gives that call |

## Left out

- Yjs: wire format, conflict resolution and awareness. The shared map is a function of the transactions received; which of two concurrent writes it shows is left open.
- Excalidraw: `reconcileElements` and `updateScene` are foreign. The scene list replaced by `updateScene` is the list it was given, and the change event it causes is modelled as firing before the guard is lowered. An event that fires later is a separate change in a run, and `Echo.AdoptedIsNotWrittenBack` says what it publishes.
- Convergence.QuietScenesAgree: does not promise equal content after two concurrent edits that reach the same version of one id, because the gate compares versions only and the code does not provide it.
- The paint of a seed through `initialData`: scene and map start out with the seed.
- Image files in the shared document (`collectNewFiles`, `writeFiles`, `readFiles`): add-only, with no gate to reason about.
- Fractional indices, z-order, presence, anchors, scrolling and the React components.
- Element versions are natural numbers, all other element fields one opaque value, nonces and times drawn from a given supply.
- Random ids, guest codes, creation times and the creator's uid of a room. Fresh ids are parameters, and the loop that draws them again on a collision is not modelled.
- Authorization and JSON: every request is an admin's and well-formed but for what the handlers themselves check; the names in rename requests have been trimmed, and the attribution of a save is chosen by the caller. On the relay, authentication is an oracle.
- Firestore, Cloud Storage and their errors: the in-memory stores are the stores. The published scene is kept as the value its JSON encodes.
- Listing rooms, scenes and versions; reading blobs.
- `Registry.Add`, which inserts a room built elsewhere.
- Handlers.App.Save: is one step, as are the other handlers. What they can do to each other in between is in `SessionRaces` and `SessionBytes` for uploads, and in `SessionBinding` for first saves and deletions.
- SessionRuns.SessionsBalance: holds without legacy creates of a room for a scene, which replace the index entry of a live room.
- SessionRuns.FilesStayAvailable: handlers are single steps here; `SessionRaces.RecordedFilesAreAvailable` drops that and the promise on bytes with it.
- Pings, deadlines and size limits on a connection: any of them is a connection failure that can happen at any moment, and a turn in which the write pump leaves.
- RelayDelivery.DeliveryIsGapFree: says nothing once the client's own teardown has closed its done channel, because `Send` may then drop a frame while the pump still writes.
- The close frames of a failed authentication: such a connection never becomes a client.
- Frames gorilla writes by itself from the read side: its answers to a peer's pings and close frames. What is said of close frames on a wire is said of those the write pump writes.
- Nil and empty slices are one; how far `append` grows a slice is fixed at doubling.
- Times of the rate limiter are whole numbers, and the clock is a parameter that the cap takes not to step back between two calls for a key, as the monotonic clock read under the mutex does not (`RateLimitSpec.SteppingBackBreaksTheCap` shows what that is needed for).
