/** Uploading files one after another, and what it comes to. */
module SessionUploads {
  import opened SessionSpec
  import opened SortedIds

  /** The files with these ids. */
  ghost function Only(files: map<string, Bytes>, ids: set<string>): map<string, Bytes> {
    map id | id in files && id in ids :: files[id]
  }

  lemma FilesAt(blobs: map<string, Blob>, files: map<string, Bytes>, path: string)
    ensures var id := if |path| >= |FILES_PREFIX| then path[|FILES_PREFIX|..] else "";
            && (path in WithFiles(blobs, files) <==> path in blobs || (id in files && path == FilePath(id)))
            && (path in blobs ==> WithFiles(blobs, files)[path] == blobs[path])
            && (path !in blobs && id in files && path == FilePath(id) ==>
                WithFiles(blobs, files)[path] == File(files[id]))
  {
    FilePathsDiffer();
    forall id | path == FilePath(id) ensures path[|FILES_PREFIX|..] == id {}
  }

  lemma OneFileMore(blobs: map<string, Blob>, files: map<string, Bytes>, id: string, data: Bytes)
    requires id !in files
    ensures WithFiles(blobs, files[id := data]) == PutNew(WithFiles(blobs, files), id, data)
  {
    var after, expected := WithFiles(blobs, files[id := data]), PutNew(WithFiles(blobs, files), id, data);
    forall path ensures path in after <==> path in expected
                ensures path in after ==> after[path] == expected[path]
    {
      FilesAt(blobs, files, path);
      FilesAt(blobs, files[id := data], path);
      assert FilePath(id)[|FILES_PREFIX|..] == id;
    }
  }

  lemma NoFiles(blobs: map<string, Blob>, files: map<string, Bytes>)
    requires files == map[]
    ensures WithFiles(blobs, files) == blobs
  {
  }

  lemma OneMore(blobs: map<string, Blob>, files: map<string, Bytes>, done: set<string>, id: string)
    requires id in files && id !in done
    ensures WithFiles(blobs, Only(files, done + {id})) == PutNew(WithFiles(blobs, Only(files, done)), id, files[id])
  {
    var before := Only(files, done);
    assert Only(files, done + {id}) == before[id := files[id]];
    OneFileMore(blobs, before, id, files[id]);
  }

  /** One file after another is the whole upload. */
  lemma {:induction false} PutAllIsWithFiles(blobs: map<string, Blob>, files: map<string, Bytes>, ids: seq<string>)
    requires Sorted(ids) && forall id :: id in ids ==> id in files
    ensures PutAll(blobs, files, ids) == WithFiles(blobs, Only(files, Members(ids)))
  {
    if ids == [] {
      NoFiles(blobs, Only(files, Members(ids)));
    } else {
      var last := |ids| - 1;
      PutAllIsWithFiles(blobs, files, ids[..last]);
      LastMember(ids);
      OneMore(blobs, files, Members(ids[..last]), ids[last]);
    }
  }

  /** The loop in the order of the ids adds exactly the files that were missing. */
  lemma UploadIsWithFiles(blobs: map<string, Blob>, files: map<string, Bytes>)
    ensures Upload(blobs, files) == WithFiles(blobs, files)
  {
    InMembers(SortedList(files.Keys));
    PutAllIsWithFiles(blobs, files, SortedList(files.Keys));
    assert Only(files, files.Keys) == files;
  }

  /** Nothing is lost or overwritten, every file is there, and nothing but files is added. */
  lemma UploadAdds(blobs: map<string, Blob>, files: map<string, Bytes>)
    ensures forall path :: path in blobs ==> path in Upload(blobs, files) && Upload(blobs, files)[path] == blobs[path]
    ensures forall id :: id in files ==> FilePath(id) in Upload(blobs, files)
    ensures forall path :: path in Upload(blobs, files) && path !in blobs ==>
              Upload(blobs, files)[path].File? && path != PUBLISHED_PATH
  {
    UploadIsWithFiles(blobs, files);
    FilePathsDiffer();
  }
}
