/** Excalidraw's reconcileElements is foreign code. This is the one thing assumed of it: per id, the
    higher version survives. Which side wins a tie, and the order of the result, are left open. */
module Reconcile {
  import opened Elements
  import opened SyncSpec

  /** An element of the result: a local object, or the clone of a shared element. */
  datatype Pick = Local(index: nat) | Remote(id: string)

  /** What reconcileElements chooses, given the scene and the shared map. */
  type Reconciler = (seq<ElementData>, ById) -> seq<Pick>

  /** The picks name existing elements, none twice. */
  ghost predicate ValidPicks(picks: seq<Pick>, locals: nat, remote: set<string>) {
    && (forall p :: p in picks ==> if p.Local? then p.index < locals else p.id in remote)
    && (forall i, j :: 0 <= i < j < |picks| ==> picks[i] != picks[j])
  }

  function Take(scene: seq<ElementData>, shared: ById, p: Pick): ElementData
    requires if p.Local? then p.index < |scene| else p.id in shared
  {
    if p.Local? then scene[p.index] else shared[p.id]
  }

  function Picked(scene: seq<ElementData>, shared: ById, picks: seq<Pick>): (r: seq<ElementData>)
    requires ValidPicks(picks, |scene|, shared.Keys)
    ensures |r| == |picks|
  {
    seq(|picks|, i requires 0 <= i < |picks| =>
      assert picks[i] in picks; Take(scene, shared, picks[i]))
  }

  /** Every id of either side, each with a value of the higher version. */
  ghost predicate IsReconciled(scene: ById, shared: ById, out: ById) {
    && out.Keys == scene.Keys + shared.Keys
    && forall id :: id in out ==>
         && (id !in shared || (id in scene && scene[id].version > shared[id].version) ==> out[id] == scene[id])
         && (id !in scene || (id in shared && shared[id].version > scene[id].version) ==> out[id] == shared[id])
         && ((id in scene && out[id] == scene[id]) || (id in shared && out[id] == shared[id]))
  }

  /** The picks always name existing elements. */
  ghost predicate PicksElements(r: Reconciler) {
    forall scene, shared {:trigger r(scene, shared)} :: ValidPicks(r(scene, shared), |scene|, shared.Keys)
  }

  /** The premise: with unique ids, the picks keep the higher version of each id. */
  ghost predicate KeepsHigherVersion(r: Reconciler) {
    && PicksElements(r)
    && forall scene, shared {:trigger r(scene, shared)} :: UniqueIds(scene) && Keyed(shared) ==>
         var out := Picked(scene, shared, r(scene, shared));
         UniqueIds(out) && IsReconciled(SceneMap(scene), shared, SceneMap(out))
  }
}
