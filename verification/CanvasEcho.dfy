/** No echo: over one shared map, a run makes no more write transactions than there were user edits. */
module Echo {
  import opened Elements
  import opened SyncSpec
  import opened Reconcile
  import opened Restore
  import opened LocalOps

  /** What a scene adopts from the shared map it never writes back: after a remote apply, exactly those
      elements are published that the scene already held above the shared copies. */
  lemma AdoptedIsNotWrittenBack(scene: seq<ElementData>, shared: ById, out: seq<ElementData>)
    requires UniqueIds(scene) && UniqueIds(out) && Keyed(shared)
    requires IsReconciled(SceneMap(scene), shared, SceneMap(out))
    ensures forall e :: e in Collect(out, shared) <==> e in Collect(scene, shared)
  {
    CollectMembers(scene, shared);
    CollectMembers(out, shared);
    SceneMapUnique(scene);
    SceneMapUnique(out);
    forall e | e in out && GateOpen(e, shared) ensures e in scene {
      assert SceneMap(out)[e.id] == e;
    }
    forall e | e in scene && GateOpen(e, shared) ensures e in out {
      assert SceneMap(scene)[e.id] == e;
    }
  }

  /** A publish that writes anything moves some shared id strictly up, and none down. */
  lemma PublishMovesUp(shared: ById, scene: seq<ElementData>)
    requires UniqueIds(scene)
    ensures Raises(shared, Publish(shared, scene))
    ensures Collect(scene, shared) != [] ==>
              exists id :: id in Publish(shared, scene)
                && (id !in shared || shared[id].version < Publish(shared, scene)[id].version)
  {
    PublishIsNewest(shared, scene);
    SceneMapUnique(scene);
    CollectMembers(scene, shared);
    if Collect(scene, shared) != [] {
      var e := Collect(scene, shared)[0];
      assert e in Collect(scene, shared);
      assert Publish(shared, scene)[e.id] == e;
    }
  }

  // ---- runs -----------------------------------------------------------------------------------

  /** An id at a version: what one user edit produces. */
  type Mark = (string, nat)

  function MarkOf(e: ElementData): Mark { (e.id, e.version) }

  ghost function Marks(els: seq<ElementData>): set<Mark> {
    set e | e in els :: MarkOf(e)
  }

  /** `txns` counts the write transactions so far, `written` the elements in them. */
  datatype World = World(scenes: seq<seq<ElementData>>, shared: ById, authored: set<Mark>, txns: nat, written: nat)

  datatype Action =
    | Act(peer: nat, op: LocalOp)
    | PublishScene(peer: nat)
    | Apply(peer: nat, out: seq<ElementData>)

  ghost predicate Initial(w: World) {
    && w.shared == map[] && w.txns == 0 && w.written == 0
    && forall i :: 0 <= i < |w.scenes| ==> UniqueIds(w.scenes[i]) && Marks(w.scenes[i]) <= w.authored
  }

  ghost predicate Step(w: World, a: Action, w': World) {
    a.peer < |w.scenes| &&
    var scene := w.scenes[a.peer];
    match a
    case Act(i, op) =>
      && Enabled(scene, op)
      && w' == w.(scenes := w.scenes[i := ApplyOp(scene, op)], authored := w.authored + Marks(ApplyOp(scene, op)))
    case PublishScene(i) =>
      var updates := Collect(scene, w.shared);
      w' == w.(shared := Publish(w.shared, scene), written := w.written + |updates|,
               txns := w.txns + if updates == [] then 0 else 1)
    case Apply(i, out) =>
      && UniqueIds(out) && IsReconciled(SceneMap(scene), w.shared, SceneMap(out))
      && w' == w.(scenes := w.scenes[i := out])
  }

  ghost predicate IsRun(ws: seq<World>, actions: seq<Action>) {
    && |ws| == |actions| + 1
    && Initial(ws[0])
    && forall k :: 0 <= k < |actions| ==> Step(ws[k], actions[k], ws[k + 1])
  }

  /** How many element versions an action on a scene can produce. */
  function OpCost(scene: seq<ElementData>, op: LocalOp): nat {
    if op.Restore? then |op.snapshot| + |scene| else 1
  }

  /** How many element versions a step of the run can produce. */
  function Cost(w: World, a: Action): nat {
    if a.Act? then OpCost(if a.peer < |w.scenes| then w.scenes[a.peer] else [], a.op) else 0
  }

  /** The cost of the first k actions of a run. */
  function TotalCost(ws: seq<World>, actions: seq<Action>, k: nat): nat
    requires k <= |actions| < |ws|
  {
    if k == 0 then 0 else TotalCost(ws, actions, k - 1) + Cost(ws[k - 1], actions[k - 1])
  }

  /** The authored versions at or below the shared copy. */
  ghost function Spent(authored: set<Mark>, shared: ById): set<Mark> {
    set m | m in authored && m.0 in shared && m.1 <= shared[m.0].version
  }

  /** Some scene holds the id at this version or above. */
  ghost predicate HeldBySome(scenes: seq<seq<ElementData>>, id: string, version: nat) {
    exists i, e :: 0 <= i < |scenes| && e in scenes[i] && e.id == id && version <= e.version
  }

  ghost predicate Inv(w: World) {
    && Keyed(w.shared)
    && (forall i :: 0 <= i < |w.scenes| ==> UniqueIds(w.scenes[i]) && Marks(w.scenes[i]) <= w.authored)
    && (forall id :: id in w.shared ==>
          MarkOf(w.shared[id]) in w.authored && HeldBySome(w.scenes, id, w.shared[id].version))
    && w.txns <= w.written <= |Spent(w.authored, w.shared)|
  }

  lemma MarksOfUnique(els: seq<ElementData>)
    requires UniqueIds(els)
    ensures |Marks(els)| == |els|
  {
    if els != [] {
      var n := |els| - 1;
      MarksOfUnique(els[..n]);
      assert els == els[..n] + [els[n]];
      assert Marks(els) == Marks(els[..n]) + {MarkOf(els[n])};
    }
  }

  lemma SubsetSize<T>(a: set<T>, b: set<T>)
    requires a <= b
    ensures |a| <= |b|
  {
    assert b == a + (b - a);
  }

  /** What a publish writes was authored, is spent afterwards, and was not spent before. */
  lemma WrittenMark(authored: set<Mark>, shared: ById, scene: seq<ElementData>, e: ElementData)
    requires UniqueIds(scene) && Marks(scene) <= authored && e in Collect(scene, shared)
    ensures MarkOf(e) in Spent(authored, Publish(shared, scene)) && MarkOf(e) !in Spent(authored, shared)
  {
    CollectMembers(scene, shared);
    PublishIsNewest(shared, scene);
    SceneMapUnique(scene);
    assert SceneMap(scene)[e.id] == e && MarkOf(e) in Marks(scene);
  }

  lemma SpentStaysSpent(authored: set<Mark>, shared: ById, scene: seq<ElementData>)
    requires UniqueIds(scene)
    ensures Spent(authored, shared) <= Spent(authored, Publish(shared, scene))
  {
    PublishIsNewest(shared, scene);
  }

  /** The heart of the bound: each element written uses up an authored version not used before. */
  lemma PublishSpends(authored: set<Mark>, shared: ById, scene: seq<ElementData>)
    requires UniqueIds(scene) && Marks(scene) <= authored
    ensures |Spent(authored, shared)| + |Collect(scene, shared)| <= |Spent(authored, Publish(shared, scene))|
  {
    var updates := Collect(scene, shared);
    var before, after := Spent(authored, shared), Spent(authored, Publish(shared, scene));
    CollectUnique(scene, shared);
    MarksOfUnique(updates);
    SpentStaysSpent(authored, shared, scene);
    forall m | m in Marks(updates) ensures m in after && m !in before {
      var e :| e in updates && m == MarkOf(e);
      WrittenMark(authored, shared, scene, e);
    }
    assert before !! Marks(updates);
    SubsetSize(before + Marks(updates), after);
  }

  lemma HeldAfter(scenes: seq<seq<ElementData>>, i: nat, out: seq<ElementData>, id: string, version: nat)
    requires i < |scenes| && UniqueIds(scenes[i]) && UniqueIds(out) && HeldBySome(scenes, id, version)
    requires forall e :: e in scenes[i] ==> exists o :: o in out && o.id == e.id && e.version <= o.version
    ensures HeldBySome(scenes[i := out], id, version)
  {
    var k, e :| 0 <= k < |scenes| && e in scenes[k] && e.id == id && version <= e.version;
    if k == i {
      var o :| o in out && o.id == e.id && e.version <= o.version;
      assert o in scenes[i := out][i];
    } else {
      assert e in scenes[i := out][k];
    }
  }

  lemma OpKeepsHeld(scene: seq<ElementData>, op: LocalOp)
    requires UniqueIds(scene) && Enabled(scene, op)
    ensures UniqueIds(ApplyOp(scene, op))
    ensures forall e :: e in scene ==> exists o :: o in ApplyOp(scene, op) && o.id == e.id && e.version <= o.version
  {
    var after := ApplyOp(scene, op);
    OpRaises(scene, op);
    SceneMapUnique(scene);
    SceneMapUnique(after);
    forall e | e in scene ensures exists o :: o in after && o.id == e.id && e.version <= o.version {
      assert SceneMap(after)[e.id] in after;
    }
  }

  lemma ActKeepsInv(w: World, i: nat, op: LocalOp, w': World)
    requires Inv(w) && Step(w, Act(i, op), w')
    ensures Inv(w')
  {
    var scene := w.scenes[i];
    OpKeepsHeld(scene, op);
    forall id | id in w.shared ensures HeldBySome(w'.scenes, id, w'.shared[id].version) {
      HeldAfter(w.scenes, i, ApplyOp(scene, op), id, w.shared[id].version);
    }
    SubsetSize(Spent(w.authored, w.shared), Spent(w'.authored, w.shared));
  }

  lemma PublishKeepsInv(w: World, i: nat, w': World)
    requires Inv(w) && Step(w, PublishScene(i), w')
    ensures Inv(w')
  {
    var scene := w.scenes[i];
    PublishSpends(w.authored, w.shared, scene);
    PublishIsNewest(w.shared, scene);
    SceneMapUnique(scene);
    forall id | id in w'.shared
      ensures MarkOf(w'.shared[id]) in w.authored && HeldBySome(w.scenes, id, w'.shared[id].version)
    {
      if !(id in w.shared && w'.shared[id] == w.shared[id]) {
        assert w'.shared[id] in scene;
        assert MarkOf(w'.shared[id]) in Marks(scene);
      }
    }
  }

  lemma ApplyKeepsInv(w: World, i: nat, out: seq<ElementData>, w': World)
    requires Inv(w) && Step(w, Apply(i, out), w')
    ensures Inv(w')
  {
    var scene := w.scenes[i];
    SceneMapUnique(scene);
    SceneMapUnique(out);
    forall e | e in out ensures MarkOf(e) in w.authored {
      assert SceneMap(out)[e.id] == e;
      if e in scene {
        assert MarkOf(e) in Marks(scene);
      } else {
        assert e == w.shared[e.id];
      }
    }
    forall e | e in scene ensures exists o :: o in out && o.id == e.id && e.version <= o.version {
      assert SceneMap(scene)[e.id] == e;
      assert SceneMap(out)[e.id] in out;
    }
    forall id | id in w.shared ensures HeldBySome(w'.scenes, id, w'.shared[id].version) {
      HeldAfter(w.scenes, i, out, id, w.shared[id].version);
    }
  }

  lemma {:induction false} RetireRestLength(current: seq<ElementData>, restored: ById, stamps: seq<Stamp>)
    requires |current| <= |stamps|
    ensures |RetireRest(current, restored, stamps)| <= |current|
  {
    if current != [] {
      RetireRestLength(current[..|current| - 1], restored, stamps);
    }
  }

  lemma MergeLength(current: seq<ElementData>, restored: seq<ElementData>, stamps: seq<Stamp>)
    requires |restored| + |current| <= |stamps|
    ensures |Merge(current, restored, stamps)| <= |restored| + |current|
  {
    RetireRestLength(current, SceneMap(restored), stamps[|restored|..]);
  }

  lemma RestoreMarks(scene: seq<ElementData>, op: LocalOp)
    requires UniqueIds(scene) && Enabled(scene, op) && op.Restore?
    ensures |Marks(ApplyOp(scene, op))| <= OpCost(scene, op)
  {
    OpRaises(scene, op);
    MarksOfUnique(ApplyOp(scene, op));
    MergeLength(scene, op.snapshot, DrawStamps(op.stamps, |op.snapshot| + |scene|));
  }

  lemma OneMark(scene: seq<ElementData>, op: LocalOp)
    requires Enabled(scene, op) && !op.Restore?
    ensures Marks(ApplyOp(scene, op)) <= Marks(scene) + {MarkOf(op.data)}
  {
    forall e | e in ApplyOp(scene, op) && e != op.data ensures MarkOf(e) in Marks(scene) {}
  }

  lemma AuthoredByOp(authored: set<Mark>, scene: seq<ElementData>, op: LocalOp)
    requires UniqueIds(scene) && Enabled(scene, op) && Marks(scene) <= authored
    ensures |authored + Marks(ApplyOp(scene, op))| <= |authored| + OpCost(scene, op)
  {
    var marks := Marks(ApplyOp(scene, op));
    if op.Restore? {
      RestoreMarks(scene, op);
    } else {
      OneMark(scene, op);
      SubsetSize(authored + marks, authored + {MarkOf(op.data)});
    }
  }

  lemma AuthoredGrowth(w: World, a: Action, w': World)
    requires Inv(w) && Step(w, a, w')
    ensures |w'.authored| <= |w.authored| + Cost(w, a)
  {
    if a.Act? { AuthoredByOp(w.authored, w.scenes[a.peer], a.op); }
  }

  lemma StepKeepsInv(w: World, a: Action, w': World)
    requires Inv(w) && Step(w, a, w')
    ensures Inv(w')
  {
    match a
    case Act(i, op) => ActKeepsInv(w, i, op, w');
    case PublishScene(i) => PublishKeepsInv(w, i, w');
    case Apply(i, out) => ApplyKeepsInv(w, i, out, w');
  }

  ghost predicate Bounded(w: World, authored: nat) {
    Inv(w) && |w.authored| <= authored
  }

  lemma InitialInv(w: World)
    requires Initial(w)
    ensures Bounded(w, |w.authored|)
  {
  }

  /** The first k steps of a run, one by one. */
  ghost predicate Follows(ws: seq<World>, actions: seq<Action>, k: nat)
    requires k <= |actions| < |ws|
  {
    k > 0 ==> Follows(ws, actions, k - 1) && Step(ws[k - 1], actions[k - 1], ws[k])
  }

  lemma {:induction false} RunFollows(ws: seq<World>, actions: seq<Action>, k: nat)
    requires IsRun(ws, actions) && k <= |actions|
    ensures Follows(ws, actions, k)
  {
    if k > 0 { RunFollows(ws, actions, k - 1); }
  }

  lemma RunStep(w: World, a: Action, w': World, authored: nat)
    requires Step(w, a, w') && Bounded(w, authored)
    ensures Bounded(w', authored + Cost(w, a))
  {
    StepKeepsInv(w, a, w');
    AuthoredGrowth(w, a, w');
  }

  lemma {:induction false} ReachableInv(ws: seq<World>, actions: seq<Action>, k: nat)
    requires k <= |actions| < |ws| && Initial(ws[0]) && Follows(ws, actions, k)
    ensures Bounded(ws[k], |ws[0].authored| + TotalCost(ws, actions, k))
  {
    if k == 0 {
      InitialInv(ws[0]);
    } else {
      ReachableInv(ws, actions, k - 1);
      RunStep(ws[k - 1], actions[k - 1], ws[k], |ws[0].authored| + TotalCost(ws, actions, k - 1));
    }
  }

  /** How many of the first k steps changed the shared map. */
  ghost function Writes(ws: seq<World>, k: nat): nat
    requires k < |ws|
  {
    if k == 0 then 0 else Writes(ws, k - 1) + if ws[k].shared != ws[k - 1].shared then 1 else 0
  }

  lemma StepIsCounted(w: World, a: Action, w': World)
    requires Step(w, a, w')
    ensures w'.txns >= w.txns + if w'.shared != w.shared then 1 else 0
  {
  }

  lemma {:induction false} WritesAreCounted(ws: seq<World>, actions: seq<Action>, k: nat)
    requires k <= |actions| < |ws| && Initial(ws[0]) && Follows(ws, actions, k)
    ensures Writes(ws, k) <= ws[k].txns
  {
    if k > 0 {
      WritesAreCounted(ws, actions, k - 1);
      StepIsCounted(ws[k - 1], actions[k - 1], ws[k]);
    }
  }

  /** In every run: no shared version is above the highest some scene holds, and the shared map was changed no more
      often than there are versions the user actions produced. Applying and publishing produce none, so finitely many
      edits cause finitely many writes. */
  lemma WritesAreBoundedByEdits(ws: seq<World>, actions: seq<Action>, k: nat)
    requires IsRun(ws, actions) && k < |ws|
    ensures forall id :: id in ws[k].shared ==> HeldBySome(ws[k].scenes, id, ws[k].shared[id].version)
    ensures Writes(ws, k) <= ws[k].txns <= |ws[k].authored| <= |ws[0].authored| + TotalCost(ws, actions, k)
  {
    RunFollows(ws, actions, k);
    ReachableInv(ws, actions, k);
    WritesAreCounted(ws, actions, k);
    SubsetSize(Spent(ws[k].authored, ws[k].shared), ws[k].authored);
  }

  /** A publish does leave its scene nothing to publish, and an apply does leave its scene nothing to adopt. */
  lemma StepsSettle(ws: seq<World>, actions: seq<Action>, k: nat)
    requires IsRun(ws, actions) && k < |actions| && !actions[k].Act?
    ensures actions[k].peer < |ws[k].scenes| && |ws[k + 1].scenes| == |ws[k].scenes|
    ensures var scene, shared := ws[k + 1].scenes[actions[k].peer], ws[k + 1].shared;
            && (actions[k].PublishScene? ==> Collect(scene, shared) == [])
            && (actions[k].Apply? ==> forall id :: id in shared ==>
                  id in SceneMap(scene) && shared[id].version <= SceneMap(scene)[id].version)
  {
    RunFollows(ws, actions, k);
    ReachableInv(ws, actions, k);
    assert Step(ws[k], actions[k], ws[k + 1]);
    PublishTwice(ws[k].shared, ws[k].scenes[actions[k].peer]);
  }
}
