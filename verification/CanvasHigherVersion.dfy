/** The premise on reconcileElements can be met: a reconciler that keeps the higher version of each id. */
module HigherVersion {
  import opened Elements
  import opened SyncSpec
  import opened Reconcile
  import SortedIds

  predicate KeepsLocal(e: ElementData, shared: ById) {
    e.id !in shared || e.version >= shared[e.id].version
  }

  /** The scene's elements that are not below their shared copies. */
  function LocalPicks(scene: seq<ElementData>, shared: ById, n: nat): (picks: seq<Pick>)
    requires n <= |scene|
    ensures forall p :: p in picks <==> p.Local? && p.index < n && KeepsLocal(scene[p.index], shared)
    ensures forall i, j :: 0 <= i < j < |picks| ==> picks[i] != picks[j]
  {
    if n == 0 then []
    else LocalPicks(scene, shared, n - 1) + if KeepsLocal(scene[n - 1], shared) then [Local(n - 1)] else []
  }

  ghost function RemoteIds(scene: seq<ElementData>, shared: ById): set<string> {
    set id | id in shared && forall e :: e in scene && e.id == id ==> !KeepsLocal(e, shared)
  }

  ghost function RemotePicks(scene: seq<ElementData>, shared: ById): (picks: seq<Pick>)
    ensures forall p :: p in picks <==> p.Remote? && p.id in RemoteIds(scene, shared)
    ensures forall i, j :: 0 <= i < j < |picks| ==> picks[i] != picks[j]
  {
    var ids := SortedIds.SortedList(RemoteIds(scene, shared));
    var picks := seq(|ids|, i requires 0 <= i < |ids| => Remote(ids[i]));
    assert forall i :: 0 <= i < |ids| ==> ids[i] in SortedIds.Members(ids) && picks[i] == Remote(ids[i]);
    assert forall i, j :: 0 <= i < j < |ids| ==> ids[i] != ids[j] by {
      forall i, j | 0 <= i < j < |ids| ensures ids[i] != ids[j] { SortedIds.BeforeIsStrict(ids[i], ids[j]); }
    }
    assert forall id :: id in RemoteIds(scene, shared) ==> Remote(id) in picks by {
      forall id | id in RemoteIds(scene, shared) ensures Remote(id) in picks {
        assert id in SortedIds.Members(ids);
        var i :| 0 <= i < |ids| && ids[i] == id;
        assert picks[i] == Remote(id);
      }
    }
    picks
  }

  ghost function Choose(scene: seq<ElementData>, shared: ById): (picks: seq<Pick>)
    ensures ValidPicks(picks, |scene|, shared.Keys)
  {
    LocalPicks(scene, shared, |scene|) + RemotePicks(scene, shared)
  }

  lemma LocalIsTaken(scene: seq<ElementData>, shared: ById, e: ElementData)
    requires e in scene && KeepsLocal(e, shared)
    ensures e in Picked(scene, shared, Choose(scene, shared))
  {
    var picks := Choose(scene, shared);
    var i :| 0 <= i < |scene| && scene[i] == e;
    assert Local(i) in picks;
    var k :| 0 <= k < |picks| && picks[k] == Local(i);
    assert Picked(scene, shared, picks)[k] == e;
  }

  lemma RemoteIsTaken(scene: seq<ElementData>, shared: ById, id: string)
    requires id in RemoteIds(scene, shared)
    ensures shared[id] in Picked(scene, shared, Choose(scene, shared))
  {
    var picks := Choose(scene, shared);
    assert Remote(id) in picks;
    var k :| 0 <= k < |picks| && picks[k] == Remote(id);
    assert Picked(scene, shared, picks)[k] == shared[id];
  }

  /** Nothing else is taken: the scene's elements that are not below, and the shared ones no such element stands for. */
  lemma TakenFrom(scene: seq<ElementData>, shared: ById, e: ElementData)
    requires e in Picked(scene, shared, Choose(scene, shared))
    ensures (e in scene && KeepsLocal(e, shared)) || (exists id :: id in RemoteIds(scene, shared) && shared[id] == e)
  {
    var picks := Choose(scene, shared);
    var out := Picked(scene, shared, picks);
    var i :| 0 <= i < |out| && out[i] == e;
    assert picks[i] in picks && e == Take(scene, shared, picks[i]);
  }

  lemma ChosenIdsAreUnique(scene: seq<ElementData>, shared: ById)
    requires UniqueIds(scene) && Keyed(shared)
    ensures UniqueIds(Picked(scene, shared, Choose(scene, shared)))
  {
    var picks := Choose(scene, shared);
    var out := Picked(scene, shared, picks);
    forall i, j | 0 <= i < j < |out| ensures out[i].id != out[j].id {
      assert picks[i] in picks && picks[j] in picks && picks[i] != picks[j];
      assert out[i] == Take(scene, shared, picks[i]) && out[j] == Take(scene, shared, picks[j]);
      assert picks[i].Local? ==> scene[picks[i].index] in scene;
      assert picks[j].Local? ==> scene[picks[j].index] in scene;
    }
  }

  lemma ChosenAt(scene: seq<ElementData>, shared: ById, id: string)
    requires UniqueIds(scene) && Keyed(shared)
    ensures var local, after := SceneMap(scene), SceneMap(Picked(scene, shared, Choose(scene, shared)));
            && (id in after <==> id in local || id in shared)
            && (id in local && KeepsLocal(local[id], shared) ==> after[id] == local[id])
            && (id in shared && !(id in local && KeepsLocal(local[id], shared)) ==> after[id] == shared[id])
  {
    var out := Picked(scene, shared, Choose(scene, shared));
    ChosenIdsAreUnique(scene, shared);
    SceneMapUnique(scene);
    SceneMapUnique(out);
    var local, after := SceneMap(scene), SceneMap(out);
    if id in local && KeepsLocal(local[id], shared) {
      LocalIsTaken(scene, shared, local[id]);
    } else if id in shared {
      assert id in RemoteIds(scene, shared);
      RemoteIsTaken(scene, shared, id);
    } else if id in after {
      TakenFrom(scene, shared, after[id]);
    }
  }

  lemma ChosenIsReconciled(scene: seq<ElementData>, shared: ById)
    requires UniqueIds(scene) && Keyed(shared)
    ensures IsReconciled(SceneMap(scene), shared, SceneMap(Picked(scene, shared, Choose(scene, shared))))
  {
    var local, after := SceneMap(scene), SceneMap(Picked(scene, shared, Choose(scene, shared)));
    forall id ensures id in after <==> id in local || id in shared
              ensures id in local && KeepsLocal(local[id], shared) ==> id in after && after[id] == local[id]
              ensures id in shared && !(id in local && KeepsLocal(local[id], shared)) ==>
                 id in after && after[id] == shared[id]
    {
      ChosenAt(scene, shared, id);
    }
    SceneMapUnique(scene);
  }

  /** So the premise is not empty. */
  lemma PremiseCanBeMet()
    ensures exists r :: KeepsHigherVersion(r)
  {
    var r: Reconciler := (scene, shared) => Choose(scene, shared);
    forall scene, shared ensures ValidPicks(r(scene, shared), |scene|, shared.Keys) {}
    forall scene, shared | UniqueIds(scene) && Keyed(shared)
      ensures UniqueIds(Picked(scene, shared, r(scene, shared)))
      ensures IsReconciled(SceneMap(scene), shared, SceneMap(Picked(scene, shared, r(scene, shared))))
    {
      ChosenIdsAreUnique(scene, shared);
      ChosenIsReconciled(scene, shared);
    }
    assert KeepsHigherVersion(r);
  }
}
