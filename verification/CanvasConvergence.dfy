/** Many replicas over one Y.Doc: every quiet state of every run has all scenes alike. */
module Convergence {
  import opened Elements
  import opened SyncSpec
  import opened Reconcile
  import opened Restore
  import opened LocalOps

  // ---- the shared document -----------------------------------------------------------------

  /** One local-origin transaction. */
  datatype Txn = Txn(tag: nat, updates: seq<ElementData>)

  /** The map a Y.Doc shows is determined by the transactions it has received: replicas that have
      received the same ones agree. */
  type Crdt = set<Txn> -> ById

  /** Every entry was written under its id by some received transaction. */
  ghost predicate ShowsUpdates(crdt: Crdt) {
    forall known, id {:trigger id in crdt(known)} :: id in crdt(known) ==>
      crdt(known)[id].id == id && exists t: Txn :: t in known && crdt(known)[id] in t.updates
  }

  datatype Peer = Peer(scene: seq<ElementData>, known: set<Txn>)

  /** All peers, all transactions ever made, and every element value a user action ever produced. */
  datatype World = World(peers: seq<Peer>, sent: set<Txn>, authored: set<ElementData>)

  datatype Action =
    | Act(peer: nat, op: LocalOp)
    | PublishScene(peer: nat, tag: nat)
    | Deliver(peer: nat, txns: set<Txn>, out: seq<ElementData>)

  ghost predicate Initial(w: World) {
    && w.sent == {}
    && forall p :: p in w.peers ==> p.known == {} && UniqueIds(p.scene) && forall e :: e in p.scene ==> e in w.authored
  }

  ghost predicate Acts(w: World, i: nat, op: LocalOp, w': World)
    requires i < |w.peers|
  {
    var p := w.peers[i];
    var scene := ApplyOp(p.scene, op);
    && Enabled(p.scene, op)
    && w' == World(w.peers[i := p.(scene := scene)], w.sent, w.authored + set e | e in scene)
  }

  /** A write is visible at once to the replica that makes it: that much of Y.Map is assumed. */
  ghost predicate Publishes(crdt: Crdt, w: World, i: nat, tag: nat, w': World)
    requires i < |w.peers|
  {
    var p := w.peers[i];
    var updates := Collect(p.scene, crdt(p.known));
    var t := Txn(tag, updates);
    if updates == [] then w' == w
    else
      && (forall s :: s in w.sent ==> s.tag != tag)
      && crdt(p.known + {t}) == WriteAll(crdt(p.known), updates)
      && w' == World(w.peers[i := p.(known := p.known + {t})], w.sent + {t}, w.authored)
  }

  ghost predicate Delivers(crdt: Crdt, w: World, i: nat, txns: set<Txn>, out: seq<ElementData>, w': World)
    requires i < |w.peers|
  {
    var p := w.peers[i];
    && txns <= w.sent
    && UniqueIds(out) && IsReconciled(SceneMap(p.scene), crdt(p.known + txns), SceneMap(out))
    && w' == w.(peers := w.peers[i := Peer(out, p.known + txns)])
  }

  ghost predicate Step(crdt: Crdt, w: World, a: Action, w': World) {
    a.peer < |w.peers| &&
    match a
    case Act(i, op) => Acts(w, i, op, w')
    case PublishScene(i, tag) => Publishes(crdt, w, i, tag, w')
    case Deliver(i, txns, out) => Delivers(crdt, w, i, txns, out, w')
  }

  ghost predicate IsRun(crdt: Crdt, ws: seq<World>, actions: seq<Action>) {
    && |ws| == |actions| + 1
    && Initial(ws[0])
    && forall k :: 0 <= k < |actions| ==> Step(crdt, ws[k], actions[k], ws[k + 1])
  }

  // ---- what every reachable state keeps ---------------------------------------------------------

  /** The scene holds every shared id, at a version no lower. */
  ghost predicate Covers(scene: ById, shared: ById) {
    forall id :: id in shared ==> id in scene && shared[id].version <= scene[id].version
  }

  ghost predicate PeerInv(crdt: Crdt, p: Peer, w: World) {
    && UniqueIds(p.scene)
    && Covers(SceneMap(p.scene), crdt(p.known))
    && p.known <= w.sent
    && forall e :: e in p.scene ==> e in w.authored
  }

  ghost predicate Inv(crdt: Crdt, w: World) {
    && (forall i :: 0 <= i < |w.peers| ==> PeerInv(crdt, w.peers[i], w))
    && (forall t, e :: t in w.sent && e in t.updates ==> e in w.authored)
  }

  lemma ActKeepsInv(crdt: Crdt, w: World, i: nat, op: LocalOp, w': World)
    requires i < |w.peers| && Inv(crdt, w) && Acts(w, i, op, w')
    ensures Inv(crdt, w')
  {
    var p := w.peers[i];
    OpRaises(p.scene, op);
    assert PeerInv(crdt, p, w);
    assert Covers(SceneMap(w'.peers[i].scene), crdt(p.known));
    forall k | 0 <= k < |w'.peers| ensures PeerInv(crdt, w'.peers[k], w') {
      assert PeerInv(crdt, w.peers[k], w);
    }
  }

  lemma PublishKeepsInv(crdt: Crdt, w: World, i: nat, tag: nat, w': World)
    requires i < |w.peers| && Inv(crdt, w) && Publishes(crdt, w, i, tag, w')
    ensures Inv(crdt, w')
  {
    var p := w.peers[i];
    var updates := Collect(p.scene, crdt(p.known));
    if updates != [] {
      assert PeerInv(crdt, p, w);
      CollectMembers(p.scene, crdt(p.known));
      PublishIsNewest(crdt(p.known), p.scene);
      assert Covers(SceneMap(p.scene), crdt(w'.peers[i].known));
      forall k | 0 <= k < |w'.peers| ensures PeerInv(crdt, w'.peers[k], w') {
        assert PeerInv(crdt, w.peers[k], w);
      }
    }
  }

  lemma DeliverKeepsInv(crdt: Crdt, w: World, i: nat, txns: set<Txn>, out: seq<ElementData>, w': World)
    requires ShowsUpdates(crdt)
    requires i < |w.peers| && Inv(crdt, w) && Delivers(crdt, w, i, txns, out, w')
    ensures Inv(crdt, w')
  {
    var p := w.peers[i];
    var shared := crdt(p.known + txns);
    assert PeerInv(crdt, p, w);
    SceneMapUnique(p.scene);
    SceneMapUnique(out);
    forall e | e in out ensures e in w.authored {
      assert SceneMap(out)[e.id] == e;
      if !(e.id in SceneMap(p.scene) && SceneMap(p.scene)[e.id] == e) {
        assert e.id in shared && shared[e.id] == e;
      }
    }
    forall k | 0 <= k < |w'.peers| ensures PeerInv(crdt, w'.peers[k], w') {
      assert PeerInv(crdt, w.peers[k], w);
    }
  }

  lemma {:induction false} ReachableInv(crdt: Crdt, ws: seq<World>, actions: seq<Action>, k: nat)
    requires ShowsUpdates(crdt) && IsRun(crdt, ws, actions) && k < |ws|
    ensures Inv(crdt, ws[k]) && |ws[k].peers| == |ws[0].peers|
  {
    if k == 0 {
      assert crdt({}) == map[];
      forall i | 0 <= i < |ws[0].peers| ensures PeerInv(crdt, ws[0].peers[i], ws[0]) {
        assert ws[0].peers[i] in ws[0].peers;
      }
    } else {
      ReachableInv(crdt, ws, actions, k - 1);
      assert Step(crdt, ws[k - 1], actions[k - 1], ws[k]);
      match actions[k - 1]
      case Act(i, op) => ActKeepsInv(crdt, ws[k - 1], i, op, ws[k]);
      case PublishScene(i, tag) => PublishKeepsInv(crdt, ws[k - 1], i, tag, ws[k]);
      case Deliver(i, txns, out) => DeliverKeepsInv(crdt, ws[k - 1], i, txns, out, ws[k]);
    }
  }

  /** A publish leaves its peer nothing to publish, in a transaction that holds what there was and can reach everyone.
      */
  lemma PublishSettles(crdt: Crdt, ws: seq<World>, actions: seq<Action>, k: nat)
    requires ShowsUpdates(crdt) && IsRun(crdt, ws, actions) && k < |actions| && actions[k].PublishScene?
    ensures actions[k].peer < |ws[k].peers| && |ws[k + 1].peers| == |ws[k].peers|
    ensures var p, p' := ws[k].peers[actions[k].peer], ws[k + 1].peers[actions[k].peer];
            && p'.scene == p.scene && Collect(p'.scene, crdt(p'.known)) == []
            && (Collect(p.scene, crdt(p.known)) != [] ==>
                  exists t: Txn :: t in ws[k + 1].sent && t in p'.known && t.updates == Collect(p.scene, crdt(p.known)))
  {
    ReachableInv(crdt, ws, actions, k);
    assert Step(crdt, ws[k], actions[k], ws[k + 1]);
    var p := ws[k].peers[actions[k].peer];
    assert PeerInv(crdt, p, ws[k]);
    PublishTwice(crdt(p.known), p.scene);
  }

  /** A delivery reaches its peer, whose scene then covers all it has received. */
  lemma DeliveryReaches(crdt: Crdt, ws: seq<World>, actions: seq<Action>, k: nat)
    requires ShowsUpdates(crdt) && IsRun(crdt, ws, actions) && k < |actions| && actions[k].Deliver?
    ensures actions[k].peer < |ws[k].peers| && |ws[k + 1].peers| == |ws[k].peers|
    ensures var p, p' := ws[k].peers[actions[k].peer], ws[k + 1].peers[actions[k].peer];
            && p'.known == p.known + actions[k].txns
            && Covers(SceneMap(p.scene), crdt(p.known)) && Covers(SceneMap(p'.scene), crdt(p'.known))
            && Covers(SceneMap(p'.scene), SceneMap(p.scene))
  {
    ReachableInv(crdt, ws, actions, k);
    ReachableInv(crdt, ws, actions, k + 1);
    assert Step(crdt, ws[k], actions[k], ws[k + 1]);
    assert PeerInv(crdt, ws[k].peers[actions[k].peer], ws[k]);
    assert PeerInv(crdt, ws[k + 1].peers[actions[k].peer], ws[k + 1]);
  }

  // ---- quiet states ------------------------------------------------------------------------------

  /** Every transaction has reached every peer, and no peer has anything left to publish. */
  ghost predicate Quiet(crdt: Crdt, w: World) {
    forall p :: p in w.peers ==> p.known == w.sent && Collect(p.scene, crdt(p.known)) == []
  }

  /** No two user actions gave one id the same version with different values. */
  ghost predicate NoCollision(authored: set<ElementData>) {
    forall a, b :: a in authored && b in authored && a.id == b.id && a.version == b.version ==> a == b
  }

  /** Nor with different content. Two peers that restore one snapshot at once collide in nonce and time only. */
  ghost predicate NoConflict(authored: set<ElementData>) {
    forall a, b :: a in authored && b in authored && a.id == b.id && a.version == b.version ==>
      ContentOf(a) == ContentOf(b)
  }

  /** A quiet peer's scene is the shared map, version for version. */
  lemma QuietPeer(crdt: Crdt, w: World, i: nat)
    requires ShowsUpdates(crdt) && Inv(crdt, w) && Quiet(crdt, w) && i < |w.peers|
    ensures var shared, scene := crdt(w.sent), SceneMap(w.peers[i].scene);
            && scene.Keys == shared.Keys
            && (forall id :: id in shared ==> scene[id].version == shared[id].version)
            && (NoConflict(w.authored) ==> forall id :: id in shared ==> ContentOf(scene[id]) == ContentOf(shared[id]))
            && (NoCollision(w.authored) ==> scene == shared)
  {
    var p := w.peers[i];
    var shared, scene := crdt(w.sent), SceneMap(p.scene);
    assert p in w.peers && PeerInv(crdt, p, w);
    CollectNothing(p.scene, shared);
    SceneMapUnique(p.scene);
    forall id | id in scene ensures id in shared && scene[id].version <= shared[id].version {
      assert scene[id] in p.scene;
    }
    forall id | id in shared ensures scene[id] in w.authored && shared[id] in w.authored {
      var t :| t in w.sent && shared[id] in t.updates;
    }
  }

  /** Convergence: in any run, any quiet state has all scenes holding the same version of every id, and
      the same content, or even the same elements, when no two actions collided in content, or at all. */
  lemma QuietScenesAgree(crdt: Crdt, ws: seq<World>, actions: seq<Action>, k: nat, i: nat, j: nat)
    requires ShowsUpdates(crdt) && IsRun(crdt, ws, actions) && k < |ws| && Quiet(crdt, ws[k])
    requires i < |ws[k].peers| && j < |ws[k].peers|
    ensures var a, b := SceneMap(ws[k].peers[i].scene), SceneMap(ws[k].peers[j].scene);
            && a.Keys == b.Keys
            && (forall id :: id in a ==> a[id].version == b[id].version)
            && (NoConflict(ws[k].authored) ==> forall id :: id in a ==> ContentOf(a[id]) == ContentOf(b[id]))
            && (NoCollision(ws[k].authored) ==> a == b)
  {
    ReachableInv(crdt, ws, actions, k);
    QuietPeer(crdt, ws[k], i);
    QuietPeer(crdt, ws[k], j);
  }

  /** In any reachable state without conflicts, a restore that is published shows exactly the snapshot. */
  lemma RestoreIsExactInRuns(crdt: Crdt, ws: seq<World>, actions: seq<Action>, k: nat, i: nat,
                             snapshot: seq<ElementData>, stamps: seq<Stamp>)
    requires ShowsUpdates(crdt) && IsRun(crdt, ws, actions) && k < |ws| && NoConflict(ws[k].authored)
    requires i < |ws[k].peers| && UniqueIds(snapshot) && |snapshot| + |ws[k].peers[i].scene| <= |stamps|
    ensures var p := ws[k].peers[i];
            Visible(Publish(crdt(p.known), Merge(p.scene, snapshot, stamps))) == Visible(SceneMap(snapshot))
  {
    var w, p := ws[k], ws[k].peers[i];
    var shared, scene := crdt(p.known), SceneMap(p.scene);
    ReachableInv(crdt, ws, actions, k);
    assert PeerInv(crdt, p, w);
    SceneMapUnique(p.scene);
    forall id | id in shared && shared[id].version == scene[id].version
      ensures ContentOf(shared[id]) == ContentOf(scene[id])
    {
      var t :| t in p.known && shared[id] in t.updates;
      assert scene[id] in w.authored && shared[id] in w.authored;
    }
    RestoreIsExact(shared, p.scene, snapshot, stamps);
  }

  // ---- the assumptions on the document can be met -------------------------------------------------

  ghost predicate Latest(t: Txn, known: set<Txn>) {
    t in known && forall s :: s in known ==> s.tag <= t.tag
  }

  lemma {:induction false} SomeLatest(known: set<Txn>)
    requires known != {}
    ensures exists t :: Latest(t, known)
  {
    var t :| t in known;
    if known == {t} {
      assert Latest(t, known);
    } else {
      SomeLatest(known - {t});
      var rest :| Latest(rest, known - {t});
      assert Latest(if rest.tag > t.tag then rest else t, known);
    }
  }

  /** The document in which transactions apply in tag order. */
  ghost function InTagOrder(known: set<Txn>): ById {
    if known == {} then map[]
    else
      SomeLatest(known);
      var t :| Latest(t, known);
      WriteAll(InTagOrder(known - {t}), t.updates)
  }

  lemma {:induction false} InTagOrderShowsUpdates(known: set<Txn>)
    ensures forall id :: id in InTagOrder(known) ==>
              && InTagOrder(known)[id].id == id
              && exists t: Txn :: t in known && InTagOrder(known)[id] in t.updates
  {
    if known != {} {
      SomeLatest(known);
      var t :| Latest(t, known) && InTagOrder(known) == WriteAll(InTagOrder(known - {t}), t.updates);
      InTagOrderShowsUpdates(known - {t});
      WriteAllKeyed(InTagOrder(known - {t}), t.updates);
      WriteAllFrom(InTagOrder(known - {t}), t.updates);
    }
  }

  /** A write with the highest tag so far is visible at once, as Publishes asks. */
  lemma InTagOrderWritesLocally(known: set<Txn>, t: Txn)
    requires forall s :: s in known ==> s.tag < t.tag
    ensures InTagOrder(known + {t}) == WriteAll(InTagOrder(known), t.updates)
  {
    assert known + {t} - {t} == known;
    assert Latest(t, known + {t});
  }
}
