/** Overlapping uploads, which are harmless to availability; SessionBytes says when they are to the bytes too. */
module SessionRaces {
  import opened SessionSpec
  import opened SortedIds

  // ---- overlapping uploads ---------------------------------------------------------------------------

  /** One save or publish in progress: the files with indices below `next` are done; `putting` says the blob of
      the next one was found missing. */
  datatype Job = Job(files: map<string, Bytes>, ids: seq<string>, next: nat, putting: bool)

  /** `recorded` holds the file ids of every version stored and scene published so far. */
  datatype Uploads = Uploads(blobs: map<string, Blob>, jobs: map<nat, Job>, recorded: set<seq<string>>)

  datatype Event =
    | Begin(job: nat, files: map<string, Bytes>)   // only if every id is valid: else nothing is stored
    | Check(job: nat)    // Exists
    | Store(job: nat)    // Put
    | Finish(job: nat)   // the version or the published scene is written

  ghost predicate Next(u: Uploads, e: Event, u': Uploads) {
    match e
    case Begin(n, files) =>
      n !in u.jobs && ValidFiles(files) && u' == u.(jobs := u.jobs[n := Job(files, SortedList(files.Keys), 0, false)])
    case Check(n) =>
      n in u.jobs && var j := u.jobs[n];
      && !j.putting && j.next < |j.ids|
      && u' == u.(jobs := u.jobs[n :=
          if FilePath(j.ids[j.next]) in u.blobs then j.(next := j.next + 1) else j.(putting := true)])
    case Store(n) =>
      n in u.jobs && var j := u.jobs[n];
      && j.putting && j.next < |j.ids| && j.ids[j.next] in j.files
      && u' == u.(blobs := u.blobs[FilePath(j.ids[j.next]) := File(j.files[j.ids[j.next]])],
                  jobs := u.jobs[n := j.(next := j.next + 1, putting := false)])
    case Finish(n) =>
      n in u.jobs && var j := u.jobs[n];
      && j.next == |j.ids|
      && u' == u.(jobs := u.jobs - {n}, recorded := u.recorded + {j.ids})
  }

  ghost predicate IsRun(us: seq<Uploads>, events: seq<Event>) {
    && |us| == |events| + 1
    && us[0] == Uploads(map[], map[], {})
    && forall k :: 0 <= k < |events| ==> Next(us[k], events[k], us[k + 1])
  }

  ghost predicate Available(blobs: map<string, Blob>, ids: seq<string>, count: nat)
    requires count <= |ids|
  {
    forall i :: 0 <= i < count ==> FilePath(ids[i]) in blobs
  }

  ghost predicate Inv(u: Uploads) {
    && (forall n :: n in u.jobs ==>
          u.jobs[n].next <= |u.jobs[n].ids| && Available(u.blobs, u.jobs[n].ids, u.jobs[n].next))
    && (forall ids :: ids in u.recorded ==> Available(u.blobs, ids, |ids|))
  }

  lemma NextKeepsInv(u: Uploads, e: Event, u': Uploads)
    requires Inv(u) && Next(u, e, u')
    ensures Inv(u') && u.blobs.Keys <= u'.blobs.Keys
  {
    forall n | n in u'.jobs
      ensures u'.jobs[n].next <= |u'.jobs[n].ids| && Available(u'.blobs, u'.jobs[n].ids, u'.jobs[n].next)
    {
      if n in u.jobs {
        assert Available(u.blobs, u.jobs[n].ids, u.jobs[n].next);
      }
    }
    forall ids | ids in u'.recorded ensures Available(u'.blobs, ids, |ids|) {
      if ids in u.recorded {
        assert Available(u.blobs, ids, |ids|);
      }
    }
  }

  /** However the uploads of any number of saves and publishes interleave, every file id ever recorded has a blob,
      from then on. */
  lemma {:induction false} RecordedFilesAreAvailable(us: seq<Uploads>, events: seq<Event>, j: nat, k: nat)
    requires IsRun(us, events) && j <= k < |us|
    ensures Inv(us[k]) && us[j].blobs.Keys <= us[k].blobs.Keys
    ensures forall ids, id :: ids in us[j].recorded && id in ids ==> FilePath(id) in us[k].blobs
  {
    if k > 0 {
      RecordedFilesAreAvailable(us, events, if j < k then j else k - 1, k - 1);
      assert Next(us[k - 1], events[k - 1], us[k]);
      NextKeepsInv(us[k - 1], events[k - 1], us[k]);
    }
    forall ids, id | ids in us[j].recorded && id in ids ensures FilePath(id) in us[k].blobs {
      if j == k {
        assert Available(us[k].blobs, ids, |ids|);
      }
    }
  }

  lemma NextKeepsJob(u: Uploads, e: Event, u': Uploads, n: nat)
    requires Next(u, e, u') && n in u.jobs && e != Finish(n)
    ensures n in u'.jobs && u'.jobs[n].files == u.jobs[n].files && u'.jobs[n].ids == u.jobs[n].ids
  {
  }

  lemma {:induction false} JobStays(us: seq<Uploads>, events: seq<Event>, b: nat, k: nat, n: nat)
    requires IsRun(us, events) && b < k < |us| && events[b].Begin? && events[b].job == n
    requires forall i :: b < i < k ==> events[i] != Finish(n)
    ensures n in us[k].jobs && us[k].jobs[n].files == events[b].files
    ensures us[k].jobs[n].ids == SortedList(events[b].files.Keys)
  {
    assert Next(us[k - 1], events[k - 1], us[k]);
    if b < k - 1 {
      JobStays(us, events, b, k - 1, n);
      NextKeepsJob(us[k - 1], events[k - 1], us[k], n);
    }
  }

  /** So once an upload has finished, whatever was going on beside it, its ids are recorded, and every file it brought
      is there, and stays. */
  lemma FinishedUploadsAreAvailable(us: seq<Uploads>, events: seq<Event>, b: nat, e: nat, k: nat, n: nat, id: string)
    requires IsRun(us, events) && b < e < k < |us| && events[b].Begin? && events[b].job == n && events[e] == Finish(n)
    requires (forall i :: b < i < e ==> events[i] != Finish(n)) && id in events[b].files
    ensures SortedList(events[b].files.Keys) in us[e + 1].recorded && "public/files/" + id in us[k].blobs
  {
    JobStays(us, events, b, e, n);
    RecordedFilesAreAvailable(us, events, e, e);
    RecordedFilesAreAvailable(us, events, e, k);
    assert Next(us[e], events[e], us[e + 1]);
    var j := us[e].jobs[n];
    assert Available(us[e].blobs, j.ids, |j.ids|);
    InMembers(j.ids);
    assert id in j.ids && FilePath(id) == "public/files/" + id;
  }
}
