/** What whole runs of one client keep, given what is assumed of reconcileElements: the scene stays ahead of the
    shared map, and never steps back. */
module Coverage {
  import opened Elements
  import opened SyncSpec
  import opened Reconcile
  import opened Restore
  import opened Replicas
  import opened Convergence
  import Ops = LocalOps

  /** Edits raise the version, drawing uses a new id, and saved versions have unique ids. */
  ghost predicate Allowed(v: View, c: Command) {
    match c
    case Edit(i, d) => Ops.Enabled(v.scene, Ops.Edit(i, d))
    case Draw(d) => Ops.Enabled(v.scene, Ops.Draw(d))
    case Restore(version, stamps) => Ops.Enabled(v.scene, Ops.Restore(version, stamps))
    case _ => true
  }

  ghost predicate AllowedRun(r: Reconciler, v: View, commands: seq<Command>)
    requires PicksElements(r)
  {
    forall k :: 0 <= k < |commands| ==> Allowed(ExecAll(r, v, commands[..k]), commands[k])
  }

  /** The scene holds every shared id, at a version no lower. */
  ghost predicate Ahead(v: View) {
    UniqueIds(v.scene) && Keyed(v.shared) && Covers(SceneMap(v.scene), v.shared)
  }

  /** No id disappears and no version goes down. */
  ghost predicate Onward(before: ById, after: ById) {
    forall id :: id in before ==> id in after && before[id].version <= after[id].version
  }

  lemma LocalKeepsAhead(r: Reconciler, v: View, c: Command, op: Ops.LocalOp)
    requires PicksElements(r) && Ahead(v) && Ops.Enabled(v.scene, op)
    requires Exec(r, v, c).shared == v.shared && Exec(r, v, c).scene == Ops.ApplyOp(v.scene, op)
    ensures Ahead(Exec(r, v, c)) && Onward(SceneMap(v.scene), SceneMap(Exec(r, v, c).scene))
  {
    Ops.OpRaises(v.scene, op);
  }

  lemma ReceiveKeepsAhead(r: Reconciler, v: View, updates: seq<ElementData>)
    requires KeepsHigherVersion(r) && Ahead(v)
    ensures Ahead(Exec(r, v, Receive(updates)))
    ensures Onward(SceneMap(v.scene), SceneMap(Exec(r, v, Receive(updates)).scene))
  {
    var shared := WriteAll(v.shared, updates);
    WriteAllKeyed(v.shared, updates);
    var out := Picked(v.scene, shared, r(v.scene, shared));
    assert UniqueIds(out) && IsReconciled(SceneMap(v.scene), shared, SceneMap(out));
  }

  lemma ChangeKeepsAhead(r: Reconciler, v: View)
    requires PicksElements(r) && Ahead(v)
    ensures Ahead(Exec(r, v, Change))
  {
    PublishIsNewest(v.shared, v.scene);
    SceneMapUnique(v.scene);
  }

  lemma ExecKeepsAhead(r: Reconciler, v: View, c: Command)
    requires KeepsHigherVersion(r) && Ahead(v) && Allowed(v, c)
    ensures Ahead(Exec(r, v, c)) && Onward(SceneMap(v.scene), SceneMap(Exec(r, v, c).scene))
  {
    match c
    case Edit(i, d) => LocalKeepsAhead(r, v, c, Ops.Edit(i, d));
    case Draw(d) => LocalKeepsAhead(r, v, c, Ops.Draw(d));
    case Restore(version, stamps) => LocalKeepsAhead(r, v, c, Ops.Restore(version, stamps));
    case Receive(updates) => ReceiveKeepsAhead(r, v, updates);
    case Change => ChangeKeepsAhead(r, v);
  }

  /** In every run the scene stays ahead of the shared map, and no element of it disappears or steps back: not by a
      remote change, and not by a restore. */
  lemma {:induction false} RunStaysAhead(r: Reconciler, v: View, commands: seq<Command>)
    requires KeepsHigherVersion(r) && Ahead(v) && AllowedRun(r, v, commands)
    ensures Ahead(ExecAll(r, v, commands))
    ensures Onward(SceneMap(v.scene), SceneMap(ExecAll(r, v, commands).scene))
  {
    if commands != [] {
      var n := |commands| - 1;
      forall k | 0 <= k < n ensures Allowed(ExecAll(r, v, commands[..n][..k]), commands[..n][k]) {
        assert commands[..n][..k] == commands[..k];
      }
      RunStaysAhead(r, v, commands[..n]);
      ExecKeepsAhead(r, ExecAll(r, v, commands[..n]), commands[n]);
    }
  }

  /** So after any run, one change leaves the shared map and the scene at the same version of every id. */
  lemma ChangeSettles(r: Reconciler, v: View, commands: seq<Command>)
    requires KeepsHigherVersion(r) && Ahead(v) && AllowedRun(r, v, commands)
    ensures var after := Exec(r, ExecAll(r, v, commands), Change);
            var scene := SceneMap(after.scene);
            && scene.Keys == after.shared.Keys
            && forall id :: id in scene ==> scene[id].version == after.shared[id].version
  {
    RunStaysAhead(r, v, commands);
    var last := ExecAll(r, v, commands);
    PublishIsNewest(last.shared, last.scene);
  }
}
