/** Sorted lists of string ids: what slices.Sort returns for the keys of a map. */
module SortedIds {

  /** Lexicographic order, character by character. */
  predicate Before(a: string, b: string) {
    b != [] && (a == [] || a[0] < b[0] || (a[0] == b[0] && Before(a[1..], b[1..])))
  }

  /** The two are alike up to n, where the first ends or has the lower character. */
  ghost predicate DiffersAt(a: string, b: string, n: nat) {
    n <= |a| && n < |b| && (forall i :: 0 <= i < n ==> a[i] == b[i]) && (n == |a| || a[n] < b[n])
  }

  lemma DiffersNext(a: string, b: string, n: nat)
    requires a != [] && b != [] && a[0] == b[0]
    ensures DiffersAt(a[1..], b[1..], n) <==> DiffersAt(a, b, n + 1)
    ensures !DiffersAt(a, b, 0)
  {
    if DiffersAt(a[1..], b[1..], n) {
      forall i | 0 <= i < n + 1 ensures a[i] == b[i] {
        if i > 0 { assert a[1..][i - 1] == b[1..][i - 1]; }
      }
    }
  }

  /** The order is told by the first difference. */
  lemma {:induction false} BeforeByFirstDifference(a: string, b: string)
    ensures Before(a, b) <==> exists n: nat :: DiffersAt(a, b, n)
  {
    if a != [] && b != [] && a[0] == b[0] {
      BeforeByFirstDifference(a[1..], b[1..]);
      if Before(a, b) {
        var n: nat :| DiffersAt(a[1..], b[1..], n);
        DiffersNext(a, b, n);
      }
      if n: nat :| DiffersAt(a, b, n) {
        DiffersNext(a, b, if n > 0 then n - 1 else 0);
      }
    } else if Before(a, b) {
      assert DiffersAt(a, b, 0);
    }
  }

  ghost predicate Sorted(ids: seq<string>) {
    forall i, j :: 0 <= i < j < |ids| ==> Before(ids[i], ids[j])
  }

  lemma {:induction false} BeforeIsTotal(a: string, b: string)
    ensures a == b || Before(a, b) || Before(b, a)
  {
    if a != [] && b != [] && a[0] == b[0] {
      BeforeIsTotal(a[1..], b[1..]);
      assert a == [a[0]] + a[1..] && b == [b[0]] + b[1..];
    }
  }

  lemma {:induction false} BeforeIsStrict(a: string, b: string)
    ensures Before(a, b) ==> !Before(b, a) && a != b
  {
    if a != [] && b != [] && a[0] == b[0] {
      BeforeIsStrict(a[1..], b[1..]);
    }
  }

  lemma {:induction false} BeforeIsTransitive(a: string, b: string, c: string)
    requires Before(a, b) && Before(b, c)
    ensures Before(a, c)
  {
    if a != [] && a[0] == b[0] && b[0] == c[0] {
      BeforeIsTransitive(a[1..], b[1..], c[1..]);
    }
  }

  ghost function Members(ids: seq<string>): set<string> {
    set id | id in ids
  }

  lemma InMembers(ids: seq<string>)
    ensures forall id :: id in ids <==> id in Members(ids)
  {
  }

  /** Insert an id into a sorted list, unless it is there. */
  function Insert(ids: seq<string>, id: string): seq<string> {
    if ids == [] then [id]
    else if ids[0] == id then ids
    else if Before(id, ids[0]) then [id] + ids
    else [ids[0]] + Insert(ids[1..], id)
  }

  lemma {:induction false} InsertSorts(ids: seq<string>, id: string)
    requires Sorted(ids)
    ensures Sorted(Insert(ids, id)) && Members(Insert(ids, id)) == Members(ids) + {id}
  {
    if ids != [] {
      assert ids == [ids[0]] + ids[1..];
      BeforeIsTotal(id, ids[0]);
      if Before(id, ids[0]) {
        forall k | 0 <= k < |ids| ensures Before(id, ids[k]) {
          if k > 0 { BeforeIsTransitive(id, ids[0], ids[k]); }
        }
      } else if id != ids[0] {
        var rest := Insert(ids[1..], id);
        InsertSorts(ids[1..], id);
        assert Members([ids[0]] + rest) == {ids[0]} + Members(rest);
        assert Members(ids) == {ids[0]} + Members(ids[1..]);
        forall k | 0 <= k < |rest| ensures Before(ids[0], rest[k]) {
          assert rest[k] in Members(rest);
          if rest[k] != id { assert rest[k] in ids[1..]; }
        }
      }
    }
  }

  lemma {:induction false} SortedExists(of: set<string>)
    ensures exists ids :: Sorted(ids) && Members(ids) == of
  {
    if of == {} {
      assert Sorted([]) && Members([]) == of;
    } else {
      var id :| id in of;
      SortedExists(of - {id});
      var ids :| Sorted(ids) && Members(ids) == of - {id};
      InsertSorts(ids, id);
    }
  }

  /** The sorted list of a set of ids. */
  ghost function SortedList(of: set<string>): (ids: seq<string>)
    ensures Sorted(ids) && Members(ids) == of
  {
    SortedExists(of);
    var ids :| Sorted(ids) && Members(ids) == of;
    ids
  }

  lemma SortedHead(ids: seq<string>, id: string)
    requires Sorted(ids) && ids != [] && id in ids
    ensures id == ids[0] || Before(ids[0], id)
  {
  }

  lemma SortedTail(ids: seq<string>)
    requires Sorted(ids) && ids != []
    ensures Members(ids[1..]) == Members(ids) - {ids[0]}
  {
    assert ids == [ids[0]] + ids[1..];
    forall k | 1 <= k < |ids| ensures ids[k] != ids[0] {
      BeforeIsStrict(ids[0], ids[k]);
    }
  }

  lemma NoMembers(ids: seq<string>)
    ensures ids == [] <==> Members(ids) == {}
  {
    if ids != [] {
      assert ids[0] in Members(ids);
    }
  }

  lemma LastMember(ids: seq<string>)
    requires Sorted(ids) && ids != []
    ensures var last := |ids| - 1;
            && ids[last] !in Members(ids[..last])
            && Members(ids) == Members(ids[..last]) + {ids[last]}
  {
    var last := |ids| - 1;
    assert ids == ids[..last] + [ids[last]];
    forall k | 0 <= k < last ensures ids[k] != ids[last] {
      BeforeIsStrict(ids[k], ids[last]);
    }
  }

  /** Sorting has one result. */
  lemma {:induction false} SortedIsUnique(a: seq<string>, b: seq<string>)
    requires Sorted(a) && Sorted(b) && Members(a) == Members(b)
    ensures a == b
  {
    NoMembers(a);
    NoMembers(b);
    if a != [] {
      assert a[0] in Members(b);
      assert b[0] in Members(a);
      SortedHead(a, b[0]);
      SortedHead(b, a[0]);
      BeforeIsStrict(a[0], b[0]);
      SortedTail(a);
      SortedTail(b);
      SortedIsUnique(a[1..], b[1..]);
      assert a == [a[0]] + a[1..] && b == [b[0]] + b[1..];
    }
  }

  /** slices.Sort on a list without repeats. */
  method Sort(ids: seq<string>) returns (r: seq<string>)
    ensures r == SortedList(Members(ids))
  {
    r := [];
    for i := 0 to |ids|
      invariant Sorted(r) && Members(r) == Members(ids[..i])
    {
      InsertSorts(r, ids[i]);
      r := Insert(r, ids[i]);
      assert ids[..i + 1] == ids[..i] + [ids[i]];
    }
    assert ids[..|ids|] == ids;
    SortedIsUnique(r, SortedList(Members(ids)));
  }
}
