/** What publishing a scene into the shared map computes, on values. */
module SyncSpec {
  import opened Elements

  /** The version gate: a new id, or a version strictly above the shared copy. */
  predicate GateOpen(el: ElementData, shared: ById) {
    el.id !in shared || el.version > shared[el.id].version
  }

  function Collect(els: seq<ElementData>, shared: ById): seq<ElementData> {
    if els == [] then []
    else
      var last := els[|els| - 1];
      Collect(els[..|els| - 1], shared) + (if GateOpen(last, shared) then [last] else [])
  }

  function WriteAll(shared: ById, updates: seq<ElementData>): ById {
    if updates == [] then shared
    else
      var last := updates[|updates| - 1];
      WriteAll(shared, updates[..|updates| - 1])[last.id := last]
  }

  /** handleChange: collect past the gate, then write. */
  function Publish(shared: ById, els: seq<ElementData>): ById {
    WriteAll(shared, Collect(els, shared))
  }

  /** A scene seen as a map. */
  function SceneMap(els: seq<ElementData>): ById {
    WriteAll(map[], els)
  }

  /** Per id the larger version, with that side's value; ties keep the shared copy. */
  ghost function Newest(shared: ById, scene: ById): ById {
    map id | id in shared.Keys + scene.Keys ::
      if id !in scene then shared[id]
      else if id !in shared || scene[id].version > shared[id].version then scene[id]
      else shared[id]
  }

  // ---- collecting and writing, for any list of elements -------------------------------

  lemma {:induction false} CollectMembers(els: seq<ElementData>, shared: ById)
    ensures forall e :: e in Collect(els, shared) <==> e in els && GateOpen(e, shared)
  {
    if els != [] {
      var n := |els| - 1;
      CollectMembers(els[..n], shared);
      assert els == els[..n] + [els[n]];
    }
  }

  /** Nothing is collected exactly when every gate is shut. */
  lemma {:induction false} CollectNothing(els: seq<ElementData>, shared: ById)
    ensures Collect(els, shared) == [] <==> forall e :: e in els ==> !GateOpen(e, shared)
  {
    if els != [] {
      var n := |els| - 1;
      CollectNothing(els[..n], shared);
      assert els == els[..n] + [els[n]];
    }
  }

  lemma CollectStep(els: seq<ElementData>, shared: ById, i: nat)
    requires i < |els|
    ensures Collect(els[..i + 1], shared)
            == if GateOpen(els[i], shared) then Collect(els[..i], shared) + [els[i]] else Collect(els[..i], shared)
  {
    assert els[..i + 1][..i] == els[..i];
  }

  lemma WriteStep(shared: ById, updates: seq<ElementData>, i: nat)
    requires i < |updates|
    ensures WriteAll(shared, updates[..i + 1]) == WriteAll(shared, updates[..i])[updates[i].id := updates[i]]
  {
    assert updates[..i + 1][..i] == updates[..i];
  }

  lemma {:induction false} CollectUnique(els: seq<ElementData>, shared: ById)
    requires UniqueIds(els)
    ensures UniqueIds(Collect(els, shared))
  {
    if els != [] {
      var n := |els| - 1;
      CollectUnique(els[..n], shared);
      CollectMembers(els[..n], shared);
      forall e | e in els[..n] ensures e.id != els[n].id {
        var i :| 0 <= i < n && els[..n][i] == e;
      }
    }
  }

  /** The last element of each id wins; an id never written keeps its entry; no key disappears. */
  lemma {:induction false} WriteAllLast(shared: ById, updates: seq<ElementData>)
    ensures forall id :: id in WriteAll(shared, updates) <==> id in shared || exists e :: e in updates && e.id == id
    ensures forall id :: id in shared && (forall e :: e in updates ==> e.id != id)
              ==> WriteAll(shared, updates)[id] == shared[id]
    ensures forall i :: 0 <= i < |updates| && (forall j :: i < j < |updates| ==> updates[j].id != updates[i].id)
              ==> updates[i].id in WriteAll(shared, updates)
                  && WriteAll(shared, updates)[updates[i].id] == updates[i]
  {
    if updates != [] {
      var n := |updates| - 1;
      WriteAllLast(shared, updates[..n]);
      var before := WriteAll(shared, updates[..n]);
      var after := WriteAll(shared, updates);
      assert after == before[updates[n].id := updates[n]];
      assert updates == updates[..n] + [updates[n]];
      forall i | 0 <= i < n && (forall j :: i < j < |updates| ==> updates[j].id != updates[i].id)
        ensures updates[i].id in after && after[updates[i].id] == updates[i]
      {
        assert updates[n].id != updates[i].id;
        assert updates[..n][i] == updates[i];
        forall j | i < j < n ensures updates[..n][j].id != updates[i].id {
          assert updates[..n][j] == updates[j];
        }
      }
    }
  }

  lemma {:induction false} WriteAllKeyed(shared: ById, updates: seq<ElementData>)
    requires Keyed(shared)
    ensures Keyed(WriteAll(shared, updates))
  {
    if updates != [] {
      WriteAllKeyed(shared, updates[..|updates| - 1]);
    }
  }

  /** Every entry is an old one or a written one. */
  lemma {:induction false} WriteAllFrom(shared: ById, updates: seq<ElementData>)
    ensures forall id :: id in WriteAll(shared, updates) ==>
              || WriteAll(shared, updates)[id] in updates
              || (id in shared && WriteAll(shared, updates)[id] == shared[id])
  {
    if updates != [] {
      WriteAllFrom(shared, updates[..|updates| - 1]);
    }
  }

  // ---- with unique ids -------------------------------------------------------------------

  lemma WriteAllUnique(shared: ById, updates: seq<ElementData>)
    requires UniqueIds(updates)
    ensures forall e :: e in updates ==> e.id in WriteAll(shared, updates) && WriteAll(shared, updates)[e.id] == e
  {
    WriteAllLast(shared, updates);
    forall e | e in updates
      ensures e.id in WriteAll(shared, updates) && WriteAll(shared, updates)[e.id] == e
    {
      var i :| 0 <= i < |updates| && updates[i] == e;
    }
  }

  /** A scene with unique ids and its map hold the same elements. */
  lemma SceneMapUnique(els: seq<ElementData>)
    requires UniqueIds(els)
    ensures Keyed(SceneMap(els))
    ensures forall e :: e in els <==> e.id in SceneMap(els) && SceneMap(els)[e.id] == e
    ensures forall id :: id in SceneMap(els) ==> SceneMap(els)[id] in els
  {
    WriteAllUnique(map[], els);
    WriteAllLast(map[], els);
    WriteAllKeyed(map[], els);
    forall id | id in SceneMap(els) ensures SceneMap(els)[id] in els {
      var e :| e in els && e.id == id;
    }
  }

  /** The ids of a list. */
  ghost function Ids(els: seq<ElementData>): set<string> {
    set e | e in els :: e.id
  }

  lemma SceneMapIds(els: seq<ElementData>)
    ensures SceneMap(els).Keys == Ids(els)
  {
    WriteAllLast(map[], els);
  }

  lemma UniqueConcat(a: seq<ElementData>, b: seq<ElementData>)
    requires UniqueIds(a) && UniqueIds(b) && Ids(a) !! Ids(b)
    ensures UniqueIds(a + b) && Ids(a + b) == Ids(a) + Ids(b)
  {
    forall i, j | 0 <= i < |a| <= j < |a + b| ensures (a + b)[i].id != (a + b)[j].id {
      assert a[i].id in Ids(a) && b[j - |a|].id in Ids(b);
    }
  }

  /** An id whose gates are all shut is not written. */
  lemma PublishShut(shared: ById, els: seq<ElementData>, id: string)
    requires forall e :: e in els && e.id == id ==> !GateOpen(e, shared)
    ensures id in Publish(shared, els) <==> id in shared
    ensures id in shared ==> Publish(shared, els)[id] == shared[id]
  {
    CollectMembers(els, shared);
    WriteAllLast(shared, Collect(els, shared));
  }

  /** With unique ids, an element whose gate is open is written. */
  lemma PublishOpen(shared: ById, els: seq<ElementData>, e: ElementData)
    requires UniqueIds(els) && e in els && GateOpen(e, shared)
    ensures e.id in Publish(shared, els) && Publish(shared, els)[e.id] == e
  {
    CollectMembers(els, shared);
    CollectUnique(els, shared);
    WriteAllUnique(shared, Collect(els, shared));
  }

  lemma PublishAt(shared: ById, els: seq<ElementData>, id: string)
    requires UniqueIds(els)
    ensures var p, scene := Publish(shared, els), SceneMap(els);
            && (id in p <==> id in shared || id in scene)
            && (id in scene && GateOpen(scene[id], shared) ==> p[id] == scene[id])
            && (id in shared && (id !in scene || !GateOpen(scene[id], shared)) ==> p[id] == shared[id])
    ensures id in SceneMap(els) ==> SceneMap(els)[id].id == id
  {
    SceneMapUnique(els);
    var scene := SceneMap(els);
    if id in scene && GateOpen(scene[id], shared) {
      PublishOpen(shared, els, scene[id]);
    } else {
      PublishShut(shared, els, id);
    }
  }

  /** Publishing is a per-id maximum of scene and shared map. */
  lemma PublishIsNewest(shared: ById, els: seq<ElementData>)
    requires UniqueIds(els)
    ensures Publish(shared, els) == Newest(shared, SceneMap(els))
  {
    forall id
      ensures id in Publish(shared, els) <==> id in Newest(shared, SceneMap(els))
      ensures id in Publish(shared, els) ==> Publish(shared, els)[id] == Newest(shared, SceneMap(els))[id]
    {
      PublishAt(shared, els, id);
    }
  }

  /** A second publish of the same scene finds every gate shut and writes nothing. */
  lemma PublishTwice(shared: ById, els: seq<ElementData>)
    requires UniqueIds(els)
    ensures Collect(els, Publish(shared, els)) == []
    ensures shared.Keys <= Publish(shared, els).Keys
  {
    PublishIsNewest(shared, els);
    SceneMapUnique(els);
    CollectMembers(els, Publish(shared, els));
    forall e | e in els ensures !GateOpen(e, Publish(shared, els)) {
      assert SceneMap(els)[e.id] == e;
    }
    CollectNothing(els, Publish(shared, els));
  }

  /** The seed is written without the gate. Into a new document that is the same as publishing it. */
  lemma {:induction false} SeedIsAPublish(seed: seq<ElementData>)
    ensures Collect(seed, map[]) == seed
    ensures Publish(map[], seed) == WriteAll(map[], seed) == SceneMap(seed)
  {
    if seed != [] {
      var n := |seed| - 1;
      SeedIsAPublish(seed[..n]);
      assert seed == seed[..n] + [seed[n]];
    }
  }

  // ---- with repeated ids ------------------------------------------------------------------

  /** The last element of its id that passes the gate. */
  ghost predicate LastOpen(els: seq<ElementData>, shared: ById, j: int) {
    && 0 <= j < |els|
    && GateOpen(els[j], shared)
    && forall k :: j < k < |els| && els[k].id == els[j].id ==> !GateOpen(els[k], shared)
  }

  /** No gated element has a later gated element of the same id, the last one, with a lower version. */
  ghost predicate LastIsHighest(els: seq<ElementData>, shared: ById) {
    forall i, j :: 0 <= i < |els| && LastOpen(els, shared, j) && els[i].id == els[j].id
      ==> els[i].version <= els[j].version
  }

  /** Publishing keeps the last gated element of each id, whatever the ids. */
  lemma {:induction false} PublishKeepsLastOpen(els: seq<ElementData>, shared: ById)
    ensures forall j :: LastOpen(els, shared, j)
              ==> els[j].id in Publish(shared, els) && Publish(shared, els)[els[j].id] == els[j]
    ensures forall id :: id in shared && (forall e :: e in els && e.id == id ==> !GateOpen(e, shared))
              ==> id in Publish(shared, els) && Publish(shared, els)[id] == shared[id]
  {
    if els != [] {
      var n := |els| - 1;
      var before := els[..n];
      PublishKeepsLastOpen(before, shared);
      assert els == before + [els[n]];
      var collected := Collect(before, shared);
      if GateOpen(els[n], shared) {
        assert (collected + [els[n]])[..|collected|] == collected;
        assert Publish(shared, els) == Publish(shared, before)[els[n].id := els[n]];
      } else {
        assert collected + [] == collected;
      }
      forall j | LastOpen(els, shared, j)
        ensures els[j].id in Publish(shared, els) && Publish(shared, els)[els[j].id] == els[j]
      {
        if j < n {
          assert LastOpen(before, shared, j);
        }
      }
    }
  }

  lemma {:induction false} SomeLastOpen(els: seq<ElementData>, shared: ById, i: nat) returns (j: nat)
    requires i < |els| && GateOpen(els[i], shared)
    ensures i <= j && LastOpen(els, shared, j) && els[j].id == els[i].id
    decreases |els| - i
  {
    if k :| i < k < |els| && els[k].id == els[i].id && GateOpen(els[k], shared) {
      j := SomeLastOpen(els, shared, k);
    } else {
      j := i;
    }
  }

  /** Without unique ids, a publish leaves every id at least as new as the scene exactly when the
      last gated element of each id is also its highest. */
  lemma PublishCoversSceneIff(els: seq<ElementData>, shared: ById)
    ensures (forall e :: e in els ==> e.id in Publish(shared, els) && e.version <= Publish(shared, els)[e.id].version)
            <==> LastIsHighest(els, shared)
  {
    PublishKeepsLastOpen(els, shared);
    var after := Publish(shared, els);
    if LastIsHighest(els, shared) {
      forall e | e in els ensures e.id in after && e.version <= after[e.id].version {
        if o :| o in els && o.id == e.id && GateOpen(o, shared) {
          var i :| 0 <= i < |els| && els[i] == o;
          var h :| 0 <= h < |els| && els[h] == e;
          var j := SomeLastOpen(els, shared, i);
          assert els[h].version <= els[j].version;
        } else {
          assert !GateOpen(e, shared);
        }
      }
    } else {
      var i, j :| 0 <= i < |els| && LastOpen(els, shared, j) && els[i].id == els[j].id
                  && els[i].version > els[j].version;
      assert els[i] in els;
    }
  }

  /** Two elements with one id: the shared copy ends below the scene, and the next publish writes again. */
  lemma RepeatedIdLosesAnEdit()
    ensures var five := ElementData("a", 5, 0, 0, false, "new");
            var three := ElementData("a", 3, 0, 0, false, "old");
            && Publish(map[], [five, three]) == map["a" := three]
            && Collect([five, three], Publish(map[], [five, three])) == [five]
  {
    var five := ElementData("a", 5, 0, 0, false, "new");
    var three := ElementData("a", 3, 0, 0, false, "old");
    var els := [five, three];
    forall shared: ById
      ensures Collect(els, shared) == (if GateOpen(five, shared) then [five] else [])
                                      + (if GateOpen(three, shared) then [three] else [])
    {
      assert els[..0] == [] && els[..2] == els;
      CollectStep(els, shared, 0);
      CollectStep(els, shared, 1);
    }
    assert els[..0] == [] && els[..2] == els;
    WriteStep(map[], els, 0);
    WriteStep(map[], els, 1);
  }
}
