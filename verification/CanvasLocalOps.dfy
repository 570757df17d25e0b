/** What one user action does to one scene, and what every such action keeps. */
module LocalOps {
  import opened Elements
  import opened SyncSpec
  import opened Restore

  datatype LocalOp =
    | Edit(index: nat, data: ElementData)                // an in-place edit or deletion, with its version bump
    | Draw(data: ElementData)                            // a new element
    | Restore(snapshot: seq<ElementData>, stamps: Stamps) // a historical version merged in

  ghost predicate Enabled(scene: seq<ElementData>, op: LocalOp) {
    match op
    case Edit(i, d) => i < |scene| && scene[i].id == d.id && scene[i].version < d.version
    case Draw(d) => d.id !in Ids(scene)
    case Restore(snapshot, _) => UniqueIds(snapshot)
  }

  function ApplyOp(scene: seq<ElementData>, op: LocalOp): seq<ElementData> {
    match op
    case Edit(i, d) => if i < |scene| then scene[i := d] else scene
    case Draw(d) => scene + [d]
    case Restore(snapshot, stamps) => Merge(scene, snapshot, DrawStamps(stamps, |snapshot| + |scene|))
  }

  /** No id disappears, and what changes moves to a strictly higher version. */
  ghost predicate Raises(before: ById, after: ById) {
    forall id :: id in before ==> id in after && (after[id] == before[id] || before[id].version < after[id].version)
  }

  lemma EditRaises(scene: seq<ElementData>, i: nat, d: ElementData)
    requires UniqueIds(scene) && Enabled(scene, Edit(i, d))
    ensures UniqueIds(scene[i := d]) && Raises(SceneMap(scene), SceneMap(scene[i := d]))
  {
    var after := scene[i := d];
    SceneMapUnique(scene);
    SceneMapUnique(after);
    assert scene[i] in scene && after[i] in after;
    forall id | id in SceneMap(scene)
      ensures id in SceneMap(after)
      ensures SceneMap(after)[id] == SceneMap(scene)[id] || SceneMap(scene)[id].version < SceneMap(after)[id].version
    {
      var k :| 0 <= k < |scene| && scene[k] == SceneMap(scene)[id];
      assert after[k] in after;
    }
  }

  lemma DrawRaises(scene: seq<ElementData>, d: ElementData)
    requires UniqueIds(scene) && Enabled(scene, Draw(d))
    ensures UniqueIds(scene + [d]) && Raises(SceneMap(scene), SceneMap(scene + [d]))
  {
    UniqueConcat(scene, [d]);
    assert (scene + [d])[..|scene|] == scene;
    SceneMapIds(scene);
  }

  lemma RestoreRaises(scene: seq<ElementData>, snapshot: seq<ElementData>, stamps: seq<Stamp>)
    requires UniqueIds(scene) && UniqueIds(snapshot) && |snapshot| + |scene| <= |stamps|
    ensures UniqueIds(Merge(scene, snapshot, stamps))
    ensures Raises(SceneMap(scene), SceneMap(Merge(scene, snapshot, stamps)))
  {
    MergeIsUnion(scene, snapshot, stamps);
    forall id | id in SceneMap(scene)
      ensures var after := SceneMap(Merge(scene, snapshot, stamps));
              id in after && (after[id] == SceneMap(scene)[id] || SceneMap(scene)[id].version < after[id].version)
    {
      MergeRaisesLiveIds(scene, snapshot, stamps, id);
    }
  }

  /** Every local action keeps ids unique and raises what it changes. */
  lemma OpRaises(scene: seq<ElementData>, op: LocalOp)
    requires UniqueIds(scene) && Enabled(scene, op)
    ensures UniqueIds(ApplyOp(scene, op)) && Raises(SceneMap(scene), SceneMap(ApplyOp(scene, op)))
  {
    match op
    case Edit(i, d) => EditRaises(scene, i, d);
    case Draw(d) => DrawRaises(scene, d);
    case Restore(snapshot, stamps) => RestoreRaises(scene, snapshot, DrawStamps(stamps, |snapshot| + |scene|));
  }
}
