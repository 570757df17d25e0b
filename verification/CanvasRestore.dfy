/** restoreVersion.ts: the merge of a historical version into the live scene, and what publishing it does. */
module Restore {
  import opened Elements
  import opened SyncSpec

  /** What one call of bumpVersion draws: a random nonce and the current time. */
  datatype Stamp = Stamp(nonce: int, now: int)

  /** bumpVersion: one above `base`, with a fresh nonce and timestamp. */
  function Bump(e: ElementData, base: nat, s: Stamp): ElementData {
    e.(version := base + 1, versionNonce := s.nonce, updated := s.now)
  }

  /** A restored element: bumped past the live copy, or passed through when there is none. */
  function Adopt(e: ElementData, live: ById, s: Stamp): ElementData {
    if e.id in live then Bump(e, live[e.id].version, s) else e
  }

  /** A live-only element: a tombstone already, or made one. */
  function Retire(e: ElementData, s: Stamp): ElementData {
    if e.isDeleted then e else Bump(e, e.version, s).(isDeleted := true)
  }

  function AdoptAll(restored: seq<ElementData>, live: ById, stamps: seq<Stamp>): (r: seq<ElementData>)
    requires |restored| <= |stamps|
    ensures |r| == |restored|
  {
    seq(|restored|, i requires 0 <= i < |restored| => Adopt(restored[i], live, stamps[i]))
  }

  function RetireRest(current: seq<ElementData>, restored: ById, stamps: seq<Stamp>): seq<ElementData>
    requires |current| <= |stamps|
  {
    if current == [] then []
    else
      var n := |current| - 1;
      RetireRest(current[..n], restored, stamps)
      + (if current[n].id in restored then [] else [Retire(current[n], stamps[n])])
  }

  /** mergeRestoredElements. Each bump takes its own stamp: the restored elements' first, then the live ones'. */
  function Merge(current: seq<ElementData>, restored: seq<ElementData>, stamps: seq<Stamp>): seq<ElementData>
    requires |restored| + |current| <= |stamps|
  {
    AdoptAll(restored, SceneMap(current), stamps)
    + RetireRest(current, SceneMap(restored), stamps[|restored|..])
  }

  // ---- the merge itself --------------------------------------------------------------------

  lemma {:induction false} RetireRestMembers(current: seq<ElementData>, restored: ById, stamps: seq<Stamp>)
    requires |current| <= |stamps|
    ensures forall e :: e in RetireRest(current, restored, stamps) <==>
              exists i :: 0 <= i < |current| && current[i].id !in restored && e == Retire(current[i], stamps[i])
  {
    if current != [] {
      var n := |current| - 1;
      RetireRestMembers(current[..n], restored, stamps);
      forall e | e in RetireRest(current, restored, stamps)
        ensures exists i :: 0 <= i < |current| && current[i].id !in restored && e == Retire(current[i], stamps[i])
      {
        if e in RetireRest(current[..n], restored, stamps) {
          var i :| 0 <= i < n && current[..n][i].id !in restored && e == Retire(current[..n][i], stamps[i]);
          assert current[i] == current[..n][i];
        }
      }
      forall i | 0 <= i < |current| && current[i].id !in restored
        ensures Retire(current[i], stamps[i]) in RetireRest(current, restored, stamps)
      {
        if i < n {
          assert current[..n][i] == current[i];
        }
      }
    }
  }

  lemma {:induction false} RetireRestUnique(current: seq<ElementData>, restored: ById, stamps: seq<Stamp>)
    requires |current| <= |stamps| && UniqueIds(current)
    ensures UniqueIds(RetireRest(current, restored, stamps))
  {
    if current != [] {
      var n := |current| - 1;
      RetireRestUnique(current[..n], restored, stamps);
      RetireRestMembers(current[..n], restored, stamps);
      forall e | e in RetireRest(current[..n], restored, stamps) ensures e.id != current[n].id {
        var i :| 0 <= i < n && current[..n][i].id !in restored && e == Retire(current[..n][i], stamps[i]);
      }
    }
  }

  /** What the merge holds for one id, read off the two inputs alone. */
  ghost predicate MergedFrom(e: ElementData, live: ById, restored: ById) {
    if e.id in restored then
      && e.isDeleted == restored[e.id].isDeleted && e.body == restored[e.id].body
      && (e.id in live ==> e.version == live[e.id].version + 1)
      && (e.id !in live ==> e == restored[e.id])
    else
      && e.id in live
      && e.isDeleted && e.body == live[e.id].body
      && (live[e.id].isDeleted ==> e == live[e.id])
      && (!live[e.id].isDeleted ==> e.version == live[e.id].version + 1)
  }

  lemma AdoptedElements(restored: seq<ElementData>, live: ById, stamps: seq<Stamp>)
    requires |restored| <= |stamps| && UniqueIds(restored)
    ensures var adopted := AdoptAll(restored, live, stamps);
            && UniqueIds(adopted)
            && Ids(adopted) == Ids(restored)
            && forall e :: e in adopted ==> MergedFrom(e, live, SceneMap(restored))
  {
    var adopted := AdoptAll(restored, live, stamps);
    WriteAllUnique(map[], restored);
    forall e | e in adopted ensures e.id in Ids(restored) && MergedFrom(e, live, SceneMap(restored)) {
      var i :| 0 <= i < |adopted| && adopted[i] == e;
      assert restored[i] in restored;
    }
    forall e | e in restored ensures e.id in Ids(adopted) {
      var i :| 0 <= i < |restored| && restored[i] == e;
      assert adopted[i] in adopted;
    }
  }

  lemma RetiredElements(current: seq<ElementData>, past: ById, stamps: seq<Stamp>)
    requires |current| <= |stamps| && UniqueIds(current)
    ensures var retired := RetireRest(current, past, stamps);
            && UniqueIds(retired)
            && Ids(retired) == Ids(current) - past.Keys
            && forall e :: e in retired ==> MergedFrom(e, SceneMap(current), past)
  {
    var retired := RetireRest(current, past, stamps);
    WriteAllUnique(map[], current);
    RetireRestMembers(current, past, stamps);
    RetireRestUnique(current, past, stamps);
    forall e | e in retired ensures e.id in Ids(current) - past.Keys && MergedFrom(e, SceneMap(current), past) {
      var i :| 0 <= i < |current| && current[i].id !in past && e == Retire(current[i], stamps[i]);
      assert current[i] in current;
    }
    forall e | e in current && e.id !in past ensures e.id in Ids(retired) {
      var i :| 0 <= i < |current| && current[i] == e;
      assert Retire(current[i], stamps[i]) in retired;
    }
  }

  /** The merge yields each id of the union exactly once, and for each what MergedFrom says. */
  lemma MergeIsUnion(current: seq<ElementData>, restored: seq<ElementData>, stamps: seq<Stamp>)
    requires |restored| + |current| <= |stamps|
    requires UniqueIds(current) && UniqueIds(restored)
    ensures var merged := Merge(current, restored, stamps);
            && UniqueIds(merged)
            && Ids(merged) == Ids(current) + Ids(restored)
            && forall e :: e in merged ==> MergedFrom(e, SceneMap(current), SceneMap(restored))
  {
    SceneMapIds(restored);
    AdoptedElements(restored, SceneMap(current), stamps);
    RetiredElements(current, SceneMap(restored), stamps[|restored|..]);
    UniqueConcat(AdoptAll(restored, SceneMap(current), stamps),
                 RetireRest(current, SceneMap(restored), stamps[|restored|..]));
  }

  /** The same, read per id. */
  lemma MergeById(current: seq<ElementData>, restored: seq<ElementData>, stamps: seq<Stamp>)
    requires |restored| + |current| <= |stamps|
    requires UniqueIds(current) && UniqueIds(restored)
    ensures var merged := SceneMap(Merge(current, restored, stamps));
            && Keyed(merged)
            && merged.Keys == SceneMap(current).Keys + SceneMap(restored).Keys
            && forall id :: id in merged ==> MergedFrom(merged[id], SceneMap(current), SceneMap(restored))
  {
    var merged := Merge(current, restored, stamps);
    MergeIsUnion(current, restored, stamps);
    SceneMapIds(current);
    SceneMapIds(restored);
    SceneMapIds(merged);
    SceneMapUnique(merged);
  }

  /** Every live id moves strictly up, unless it was deleted already and stays out of the snapshot. */
  lemma MergeRaisesLiveIds(current: seq<ElementData>, restored: seq<ElementData>, stamps: seq<Stamp>, id: string)
    requires |restored| + |current| <= |stamps|
    requires UniqueIds(current) && UniqueIds(restored)
    requires id in SceneMap(current)
    ensures var live, merged := SceneMap(current), SceneMap(Merge(current, restored, stamps));
            && id in merged
            && (live[id].version < merged[id].version <==> !(live[id].isDeleted && id !in SceneMap(restored)))
            && (live[id].isDeleted && id !in SceneMap(restored) ==> merged[id] == live[id])
  {
    MergeById(current, restored, stamps);
    WriteAllKeyed(map[], current);
  }

  // ---- stamps and order --------------------------------------------------------------------

  lemma {:induction false} RetireDraws(current: seq<ElementData>, restored: ById, stamps: seq<Stamp>)
    returns (draw: seq<nat>)
    requires |current| <= |stamps|
    ensures |draw| == |RetireRest(current, restored, stamps)|
    ensures forall i :: 0 <= i < |draw| ==>
              && draw[i] < |current|
              && RetireRest(current, restored, stamps)[i] == Retire(current[draw[i]], stamps[draw[i]])
    ensures forall i, j :: 0 <= i < j < |draw| ==> draw[i] < draw[j]
  {
    draw := [];
    if current != [] {
      var n := |current| - 1;
      draw := RetireDraws(current[..n], restored, stamps);
      if current[n].id !in restored {
        draw := draw + [n];
      }
    }
  }

  /** The merged element is the drawn one, bumped with this stamp if it is live and its version moves, and else as it
      was: a new version carries a nonce and a time of its own, and only a new version does. */
  ghost predicate Stamped(e: ElementData, drawn: ElementData, live: ById, s: Stamp) {
    && e.id == drawn.id
    && if e.id in live && e.version != live[e.id].version then e.versionNonce == s.nonce && e.updated == s.now
       else e == drawn
  }

  lemma AdoptIsStamped(el: ElementData, live: ById, s: Stamp)
    ensures Stamped(Adopt(el, live, s), el, live, s)
  {
  }

  lemma RetireIsStamped(el: ElementData, live: ById, s: Stamp)
    requires el.id in live && live[el.id] == el
    ensures Stamped(Retire(el, s), el, live, s)
  {
  }

  lemma LiveIsStamped(current: seq<ElementData>, stamps: seq<Stamp>, i: nat)
    requires i < |current| <= |stamps| && UniqueIds(current)
    ensures Stamped(Retire(current[i], stamps[i]), current[i], SceneMap(current), stamps[i])
  {
    SceneMapUnique(current);
    assert current[i] in current;
    RetireIsStamped(current[i], SceneMap(current), stamps[i]);
  }

  /** The merge lists the restored elements in their order, then live ones in theirs. Each element whose version moves
      takes the nonce and time of the stamp at its own place, so no two take the same; every other is passed through
      whole. */
  lemma MergeDraws(current: seq<ElementData>, restored: seq<ElementData>, stamps: seq<Stamp>) returns (draw: seq<nat>)
    requires |restored| + |current| <= |stamps| && UniqueIds(current)
    ensures var merged, all := Merge(current, restored, stamps), restored + current;
            && |draw| == |merged| >= |restored|
            && (forall i, j :: 0 <= i < j < |draw| ==> draw[i] < draw[j])
            && (forall i :: 0 <= i < |restored| ==> draw[i] == i)
            && forall i :: 0 <= i < |draw| ==>
                 draw[i] < |all| && Stamped(merged[i], all[draw[i]], SceneMap(current), stamps[draw[i]])
  {
    var n := |restored|;
    var rest := RetireDraws(current, SceneMap(restored), stamps[n..]);
    draw := seq(n, i => i) + seq(|rest|, i requires 0 <= i < |rest| => n + rest[i]);
    forall i | 0 <= i < |draw|
      ensures draw[i] < n + |current|
      ensures Stamped(Merge(current, restored, stamps)[i], (restored + current)[draw[i]], SceneMap(current),
                      stamps[draw[i]])
    {
      if i < n {
        AdoptIsStamped(restored[i], SceneMap(current), stamps[i]);
      } else {
        LiveIsStamped(current, stamps[n..], rest[i - n]);
      }
    }
  }

  // ---- restoring, end to end -----------------------------------------------------------------

  /** Every shared id is in the scene at a version no lower, with equal elements at equal version. */
  ghost predicate Coherent(shared: ById, scene: ById) {
    forall id :: id in shared ==>
      && id in scene
      && shared[id].version <= scene[id].version
      && (shared[id].version == scene[id].version ==> ContentOf(shared[id]) == ContentOf(scene[id]))
  }

  /** The elements a user sees: not deleted, up to version, nonce and timestamp. */
  ghost function Visible(m: ById): map<string, Content> {
    map id | id in m && !m[id].isDeleted :: ContentOf(m[id])
  }

  /** Two maps show the same exactly when the same ids are there undeleted, with the same bodies. */
  lemma VisibleIsBodies(a: ById, b: ById)
    requires Keyed(a) && Keyed(b)
    ensures Visible(a) == Visible(b) <==>
              forall id :: && (id in a && !a[id].isDeleted <==> id in b && !b[id].isDeleted)
                           && (id in a && !a[id].isDeleted && id in b ==> a[id].body == b[id].body)
  {
    if Visible(a) == Visible(b) {
      forall id
        ensures id in a && !a[id].isDeleted <==> id in b && !b[id].isDeleted
        ensures id in a && !a[id].isDeleted && id in b ==> a[id].body == b[id].body
      {
        assert id in Visible(a) <==> id in a && !a[id].isDeleted;
        assert id in Visible(b) <==> id in b && !b[id].isDeleted;
        if id in Visible(a) { assert Visible(a)[id] == Visible(b)[id]; }
      }
    }
  }

  /** A published scene is coherent with the shared map, which it then covers. */
  lemma PublishIsCoherent(shared: ById, scene: seq<ElementData>)
    requires UniqueIds(scene) && Coherent(shared, SceneMap(scene))
    ensures Coherent(Publish(shared, scene), SceneMap(scene))
    ensures Publish(shared, scene).Keys == SceneMap(scene).Keys
    ensures forall id :: id in SceneMap(scene) ==>
              ContentOf(Publish(shared, scene)[id]) == ContentOf(SceneMap(scene)[id])
  {
    PublishIsNewest(shared, scene);
  }

  /** Merging keeps coherence: nothing falls behind the shared map. */
  lemma MergeIsCoherent(shared: ById, scene: seq<ElementData>, snapshot: seq<ElementData>, stamps: seq<Stamp>)
    requires |snapshot| + |scene| <= |stamps|
    requires UniqueIds(scene) && UniqueIds(snapshot) && Coherent(shared, SceneMap(scene))
    ensures Coherent(shared, SceneMap(Merge(scene, snapshot, stamps)))
  {
    forall id | id in shared
      ensures var m := SceneMap(Merge(scene, snapshot, stamps));
              && id in m && shared[id].version <= m[id].version
              && (shared[id].version == m[id].version ==> ContentOf(shared[id]) == ContentOf(m[id]))
    {
      MergeRaisesLiveIds(scene, snapshot, stamps, id);
    }
  }

  /** A restore that is published leaves the shared map showing exactly the snapshot. */
  lemma RestoreIsExact(shared: ById, scene: seq<ElementData>, snapshot: seq<ElementData>, stamps: seq<Stamp>)
    requires |snapshot| + |scene| <= |stamps|
    requires UniqueIds(scene) && UniqueIds(snapshot) && Coherent(shared, SceneMap(scene))
    ensures var merged := Merge(scene, snapshot, stamps);
            && Visible(Publish(shared, merged)) == Visible(SceneMap(snapshot))
            && Coherent(Publish(shared, merged), SceneMap(merged))
  {
    var merged := Merge(scene, snapshot, stamps);
    var after, past := Publish(shared, merged), SceneMap(snapshot);
    MergeById(scene, snapshot, stamps);
    MergeIsUnion(scene, snapshot, stamps);
    MergeIsCoherent(shared, scene, snapshot, stamps);
    PublishIsCoherent(shared, merged);
    WriteAllKeyed(map[], snapshot);
    forall id | id in after
      ensures id in past ==> ContentOf(after[id]) == ContentOf(past[id])
      ensures id !in past ==> after[id].isDeleted
    {
      assert MergedFrom(SceneMap(merged)[id], SceneMap(scene), past);
      assert ContentOf(after[id]) == ContentOf(SceneMap(merged)[id]);
    }
  }

  /** An endless supply of stamps. */
  type Stamps = nat -> Stamp

  /** One restore of a sequence: the snapshot and the stamps its merge draws. */
  datatype RestoreCall = RestoreCall(snapshot: seq<ElementData>, stamps: Stamps)

  function DrawStamps(stamps: Stamps, n: nat): (r: seq<Stamp>)
    ensures |r| == n
  {
    seq(n, i requires 0 <= i < n => stamps(i))
  }

  /** One client's shared map and scene. */
  datatype Board = Board(shared: ById, scene: seq<ElementData>)

  /** One published restore. */
  function RestoreStep(b: Board, call: RestoreCall): Board {
    var merged := Merge(b.scene, call.snapshot, DrawStamps(call.stamps, |call.snapshot| + |b.scene|));
    Board(Publish(b.shared, merged), merged)
  }

  function RestoreRun(b: Board, calls: seq<RestoreCall>): Board {
    if calls == [] then b else RestoreStep(RestoreRun(b, calls[..|calls| - 1]), calls[|calls| - 1])
  }

  ghost predicate CoherentBoard(b: Board) {
    UniqueIds(b.scene) && Coherent(b.shared, SceneMap(b.scene))
  }

  lemma RestoreStepIsExact(b: Board, call: RestoreCall)
    requires CoherentBoard(b) && UniqueIds(call.snapshot)
    ensures CoherentBoard(RestoreStep(b, call))
    ensures Visible(RestoreStep(b, call).shared) == Visible(SceneMap(call.snapshot))
  {
    var stamps := DrawStamps(call.stamps, |call.snapshot| + |b.scene|);
    RestoreIsExact(b.shared, b.scene, call.snapshot, stamps);
    MergeIsUnion(b.scene, call.snapshot, stamps);
  }

  /** After any sequence of restores the shared map shows the last snapshot. */
  lemma {:induction false} LastRestoreWins(b: Board, calls: seq<RestoreCall>)
    requires CoherentBoard(b)
    requires forall c :: c in calls ==> UniqueIds(c.snapshot)
    ensures CoherentBoard(RestoreRun(b, calls))
    ensures calls != [] ==> Visible(RestoreRun(b, calls).shared) == Visible(SceneMap(calls[|calls| - 1].snapshot))
  {
    if calls != [] {
      var n := |calls| - 1;
      LastRestoreWins(b, calls[..n]);
      assert calls[n] in calls;
      RestoreStepIsExact(RestoreRun(b, calls[..n]), calls[n]);
    }
  }

  // ---- the code ----------------------------------------------------------------------------

  method BumpVersion(e: Element, base: nat, s: Stamp)
    modifies e
    ensures e.Data() == Bump(old(e.Data()), base, s)
    ensures e.version == base + 1 && e.versionNonce == s.nonce && e.updated == s.now
  {
    e.version := base + 1;
    e.versionNonce := s.nonce;
    e.updated := s.now;
  }

  /** Index a list by id: the last element of an id wins. */
  method IndexById(els: seq<Element>) returns (byId: map<string, Element>)
    ensures DataById(byId) == SceneMap(DataOf(els))
    ensures forall id :: id in byId ==> byId[id] in els && byId[id].id == id
  {
    byId := map[];
    ghost var data := DataOf(els);
    for i := 0 to |els|
      invariant DataById(byId) == SceneMap(data[..i])
      invariant forall id :: id in byId ==> byId[id] in els && byId[id].id == id
    {
      WriteStep(map[], data, i);
      DataByIdUpdate(byId, els[i].id, els[i]);
      byId := byId[els[i].id := els[i]];
    }
    assert data[..|els|] == data;
  }

  /** The first loop: clone each restored element, bumped past its live copy if there is one. */
  method AdoptRestored(restored: seq<Element>, currentById: map<string, Element>, stamps: seq<Stamp>)
    returns (merged: seq<Element>)
    requires |restored| <= |stamps|
    ensures DataOf(merged) == AdoptAll(DataOf(restored), DataById(currentById), stamps)
    ensures Distinct(merged) && forall e :: e in merged ==> fresh(e)
  {
    ghost var res, live := DataOf(restored), DataById(currentById);
    merged := [];
    for i := 0 to |restored|
      invariant DataOf(merged) == AdoptAll(res, live, stamps)[..i]
      invariant Distinct(merged) && forall e :: e in merged ==> fresh(e)
    {
      var clone := StructuredClone(restored[i]);
      if restored[i].id in currentById {
        BumpVersion(clone, currentById[restored[i].id].version, stamps[i]);
      }
      assert clone.Data() == Adopt(res[i], live, stamps[i]);
      DataOfAppend(merged, clone);
      merged := merged + [clone];
    }
  }

  lemma RetireStep(cur: seq<ElementData>, past: ById, stamps: seq<Stamp>, i: nat)
    requires i < |cur| <= |stamps|
    ensures RetireRest(cur[..i + 1], past, stamps)
            == RetireRest(cur[..i], past, stamps) + if cur[i].id in past then [] else [Retire(cur[i], stamps[i])]
  {
    assert cur[..i + 1][..i] == cur[..i];
  }

  /** A live-only element: itself if it is a tombstone, else a tombstone made from its clone. */
  method RetireOne(el: Element, s: Stamp) returns (r: Element)
    ensures r.Data() == Retire(el.Data(), s)
    ensures fresh(r) || (r == el && el.isDeleted)
  {
    if el.isDeleted { return el; }
    r := StructuredClone(el);
    BumpVersion(r, r.version, s);
    r.isDeleted := true;
  }

  /** The second loop: every live element the snapshot does not have. */
  method RetireLive(current: seq<Element>, restoredById: map<string, Element>, stamps: seq<Stamp>)
    returns (merged: seq<Element>)
    requires |current| <= |stamps|
    ensures DataOf(merged) == old(RetireRest(DataOf(current), DataById(restoredById), stamps))
    ensures forall e :: e in merged ==> fresh(e) || (e in current && e.isDeleted)
    ensures Distinct(current) ==> Distinct(merged)
  {
    ghost var cur, past := DataOf(current), DataById(restoredById);
    merged := [];
    for i := 0 to |current|
      invariant DataOf(merged) == RetireRest(cur[..i], past, stamps)
      invariant forall e :: e in merged ==> fresh(e) || (e in current[..i] && e.isDeleted)
      invariant Distinct(current) ==> Distinct(merged)
    {
      RetireStep(cur, past, stamps, i);
      if current[i].id !in restoredById {
        var el := RetireOne(current[i], stamps[i]);
        DataOfAppend(merged, el);
        assert Distinct(current) ==> el !in merged;
        merged := merged + [el];
      }
    }
    assert cur[..|current|] == cur;
  }

  /** The complete element list for updateScene. Both inputs stay as they were: nothing but fresh clones is written. */
  method MergeRestoredElements(current: seq<Element>, restored: seq<Element>, stamps: seq<Stamp>)
    returns (merged: seq<Element>)
    requires |restored| + |current| <= |stamps|
    ensures DataOf(merged) == old(Merge(DataOf(current), DataOf(restored), stamps))
    ensures forall e :: e in merged ==> fresh(e) || (e in current && e.isDeleted)
    ensures Distinct(current) ==> Distinct(merged)
  {
    ghost var cur, res := DataOf(current), DataOf(restored);
    var currentById := IndexById(current);
    var restoredById := IndexById(restored);
    var adopted := AdoptRestored(restored, currentById, stamps);
    ghost var front := DataOf(adopted);
    assert DataOf(current) == cur && DataById(restoredById) == SceneMap(res);
    var retired := RetireLive(current, restoredById, stamps[|restored|..]);
    merged := adopted + retired;
    DataOfConcat(adopted, retired);
    assert DataOf(adopted) == front;
    forall e | e in merged && e !in adopted ensures fresh(e) || (e in current && e.isDeleted) {
      assert e in retired;
    }
    if Distinct(current) {
      assert forall e :: e in retired ==> e !in adopted;
      DistinctConcat(adopted, retired);
    }
  }
}
