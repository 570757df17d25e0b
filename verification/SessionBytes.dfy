/** When overlapping uploads leave the bytes of every file alone: exactly when the canvases agree on them. */
module SessionBytes {
  import opened SessionSpec
  import opened SessionRaces
  import opened SortedIds

  type Files = map<string, Bytes>

  /** A canvas of these that an upload does not reject. */
  ghost predicate Accepted(files: Files, canvases: set<Files>) {
    files in canvases && ValidFiles(files)
  }

  /** Content addressing: among the canvases that are accepted, one id never stands for two contents. */
  ghost predicate Agree(canvases: set<Files>) {
    forall a, b, id :: Accepted(a, canvases) && Accepted(b, canvases) && id in a && id in b ==> a[id] == b[id]
  }

  /** Every upload of the run is of one of these canvases. */
  ghost predicate BeginsFrom(events: seq<Event>, canvases: set<Files>) {
    forall k :: 0 <= k < |events| && events[k].Begin? ==> events[k].files in canvases
  }

  /** A blob, once there, keeps its bytes. */
  ghost predicate Kept(u: Uploads, u': Uploads) {
    forall path :: path in u.blobs ==> path in u'.blobs && u'.blobs[path] == u.blobs[path]
  }

  ghost predicate NeverRewritten(us: seq<Uploads>) {
    forall j, k :: 0 <= j <= k < |us| ==> Kept(us[j], us[k])
  }

  // ---- agreement is enough ------------------------------------------------------------------------------

  ghost predicate Holds(canvases: set<Files>, path: string, blob: Blob) {
    exists files, id :: Accepted(files, canvases) && id in files && path == FilePath(id) && blob == File(files[id])
  }

  /** Every blob, and every job, has its bytes from the canvases. */
  ghost predicate FromCanvases(u: Uploads, canvases: set<Files>) {
    && (forall n :: n in u.jobs ==> Accepted(u.jobs[n].files, canvases))
    && (forall path :: path in u.blobs ==> Holds(canvases, path, u.blobs[path]))
  }

  lemma NextKeepsBytes(u: Uploads, e: Event, u': Uploads, canvases: set<Files>)
    requires Agree(canvases) && FromCanvases(u, canvases) && Next(u, e, u')
    requires e.Begin? ==> e.files in canvases
    ensures FromCanvases(u', canvases) && Kept(u, u')
  {
    if e.Store? {
      var j := u.jobs[e.job];
      var id := j.ids[j.next];
      FilePathsDiffer();
      assert Holds(canvases, FilePath(id), File(j.files[id]));
      forall path | path in u.blobs ensures u'.blobs[path] == u.blobs[path] {
        var files, other :| Accepted(files, canvases) && other in files && path == FilePath(other)
                            && u.blobs[path] == File(files[other]);
      }
    }
  }

  lemma {:induction false} AgreementKeepsBytes(us: seq<Uploads>, events: seq<Event>, canvases: set<Files>,
                                           j: nat, k: nat)
    requires IsRun(us, events) && Agree(canvases) && BeginsFrom(events, canvases) && j <= k < |us|
    ensures FromCanvases(us[k], canvases) && Kept(us[j], us[k])
  {
    if k > 0 {
      AgreementKeepsBytes(us, events, canvases, if j < k then j else k - 1, k - 1);
      assert Next(us[k - 1], events[k - 1], us[k]);
      NextKeepsBytes(us[k - 1], events[k - 1], us[k], canvases);
    }
  }

  // ---- and needed ------------------------------------------------------------------------------------------

  datatype History = History(us: seq<Uploads>, events: seq<Event>)
  {
    function Last(): Uploads
      requires us != []
    {
      us[|us| - 1]
    }
  }

  ghost predicate Valid(h: History, canvases: set<Files>) {
    IsRun(h.us, h.events) && BeginsFrom(h.events, canvases)
  }

  lemma Then(h: History, e: Event, u: Uploads, canvases: set<Files>) returns (h': History)
    requires Valid(h, canvases) && Next(h.Last(), e, u) && (e.Begin? ==> e.files in canvases)
    ensures Valid(h', canvases) && h'.us == h.us + [u] && h'.Last() == u
  {
    h' := History(h.us + [u], h.events + [e]);
  }

  /** The blobs there are, and those of some of a job's files. */
  ghost predicate OnlyBefore(blobs: map<string, Blob>, job: Job, end: nat, start: map<string, Blob>)
    requires end <= |job.ids|
  {
    forall path :: path in blobs ==> path in start || exists i :: 0 <= i < end && path == FilePath(job.ids[i])
  }

  /** A job can go through its files up to any of them. */
  lemma {:induction false} Advance(h: History, n: nat, end: nat, canvases: set<Files>) returns (h': History)
    requires Valid(h, canvases) && n in h.Last().jobs
    requires var j := h.Last().jobs[n]; !j.putting && j.next <= end <= |j.ids| && j.ids == SortedList(j.files.Keys)
    ensures Valid(h', canvases)
    ensures var j := h.Last().jobs[n];
            && h'.Last().jobs == h.Last().jobs[n := j.(next := end)]
            && OnlyBefore(h'.Last().blobs, j, end, h.Last().blobs)
    decreases end - h.Last().jobs[n].next
  {
    var u := h.Last();
    var j := u.jobs[n];
    if j.next == end {
      h' := h;
      assert u.jobs[n := j] == u.jobs;
    } else {
      var id := j.ids[j.next];
      assert id in Members(j.ids);
      var done := u.jobs[n := j.(next := j.next + 1)];
      if FilePath(id) in u.blobs {
        h' := Then(h, Check(n), u.(jobs := done), canvases);
      } else {
        var checked := u.(jobs := u.jobs[n := j.(putting := true)]);
        h' := Then(h, Check(n), checked, canvases);
        assert checked.jobs[n := j.(next := j.next + 1, putting := false)] == done;
        h' := Then(h', Store(n), u.(jobs := done, blobs := u.blobs[FilePath(id) := File(j.files[id])]), canvases);
      }
      h' := Advance(h', n, end, canvases);
      assert done[n := j.(next := end)] == u.jobs[n := j.(next := end)];
    }
  }

  lemma SomeIndex(files: Files, id: string) returns (i: nat)
    requires id in files
    ensures var ids := SortedList(files.Keys);
            i < |ids| && ids[i] == id && forall k :: 0 <= k < i ==> ids[k] != id
  {
    var ids := SortedList(files.Keys);
    assert id in Members(ids);
    i :| 0 <= i < |ids| && ids[i] == id;
    forall k | 0 <= k < i ensures ids[k] != id {
      BeforeIsStrict(ids[k], ids[i]);
    }
  }

  /** Two uploads, each about to look at the same file, which is not there yet. */
  lemma BothBefore(a: Files, b: Files, id: string, canvases: set<Files>) returns (h: History, i: nat, k: nat)
    requires Accepted(a, canvases) && Accepted(b, canvases) && id in a && id in b
    ensures Valid(h, canvases) && FilePath(id) !in h.Last().blobs
    ensures var ids, others := SortedList(a.Keys), SortedList(b.Keys);
            && i < |ids| && ids[i] == id && k < |others| && others[k] == id
            && h.Last().jobs == map[1 := Job(a, ids, i, false), 2 := Job(b, others, k, false)]
  {
    i := SomeIndex(a, id);
    k := SomeIndex(b, id);
    var one, two := Job(a, SortedList(a.Keys), 0, false), Job(b, SortedList(b.Keys), 0, false);
    var start := Uploads(map[], map[], {});
    h := History([start], []);
    h := Then(h, Begin(1, a), start.(jobs := map[1 := one]), canvases);
    h := Then(h, Begin(2, b), start.(jobs := map[1 := one, 2 := two]), canvases);
    h := Advance(h, 1, i, canvases);
    h := Advance(h, 2, k, canvases);
    FilePathsDiffer();
  }

  /** If two accepted canvases have different bytes under one id, uploading both can change a blob after it
      was written: each
      finds it missing, and each writes it. */
  lemma DisagreementRewrites(a: Files, b: Files, id: string, canvases: set<Files>) returns (h: History)
    requires Accepted(a, canvases) && Accepted(b, canvases) && id in a && id in b && a[id] != b[id]
    ensures Valid(h, canvases) && !NeverRewritten(h.us)
  {
    var i: nat, k: nat;
    h, i, k := BothBefore(a, b, id, canvases);
    var u := h.Last();
    var one, two, path := u.jobs[1], u.jobs[2], FilePath(id);
    var seen := map[1 := one.(putting := true), 2 := two];
    var both := map[1 := one.(putting := true), 2 := two.(putting := true)];
    var first, second := u.blobs[path := File(a[id])], u.blobs[path := File(b[id])];
    h := Then(h, Check(1), u.(jobs := seen), canvases);
    h := Then(h, Check(2), u.(jobs := both), canvases);
    var stored := u.(blobs := first, jobs := map[1 := one.(next := i + 1), 2 := two.(putting := true)]);
    h := Then(h, Store(1), stored, canvases);
    var last := u.(blobs := first[path := File(b[id])], jobs := map[1 := one.(next := i + 1),
      2 := two.(next := k + 1)]);
    h := Then(h, Store(2), last, canvases);
    var n := |h.us| - 1;
    assert h.us[n - 1] == stored && h.us[n] == last;
    assert path in h.us[n - 1].blobs && h.us[n - 1].blobs[path] == File(a[id]) && h.us[n].blobs[path] == File(b[id]);
    assert !Kept(h.us[n - 1], h.us[n]);
  }

  /** However uploads interleave, no file blob ever changes, if and only if the canvases that uploads accept agree on
      the bytes of every file id, as content-addressed ids do. */
  lemma BytesStayIffAgree(canvases: set<Files>)
    ensures Agree(canvases)
            <==> forall us, events :: IsRun(us, events) && BeginsFrom(events, canvases) ==> NeverRewritten(us)
  {
    if Agree(canvases) {
      forall us, events | IsRun(us, events) && BeginsFrom(events, canvases) ensures NeverRewritten(us) {
        forall j, k | 0 <= j <= k < |us| ensures Kept(us[j], us[k]) {
          AgreementKeepsBytes(us, events, canvases, j, k);
        }
      }
    } else {
      var a, b, id :| Accepted(a, canvases) && Accepted(b, canvases) && id in a && id in b && a[id] != b[id];
      var h := DisagreementRewrites(a, b, id, canvases);
      assert IsRun(h.us, h.events);
    }
  }
}
