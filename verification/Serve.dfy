/**
 The serving side: reads of the table and of the disk, between which the fetcher may store other
 bundles, and whose last read may fall in the middle of a put.
 */
module Serve {
  import opened Basics
  import opened Manifests
  import opened Disk
  import opened Recovery
  import opened Store

  datatype Served = NotFound | ServerError | Content(body: Bytes)

  function FindEntry(files: seq<FileEntry>, path: string): (r: Option<FileEntry>)
    ensures r.Some? ==> r.value in files && r.value.path == path
    ensures r.None? ==> forall f | f in files :: f.path != path
  {
    if files == [] then None
    else if files[0].path == path then Some(files[0])
    else FindEntry(files[1..], path)
  }

  method FindFile(m: Manifest, path: string) returns (r: Option<FileEntry>)
    ensures r == FindEntry(m.files, path)
  {
    for i := 0 to |m.files|
      invariant FindEntry(m.files, path) == FindEntry(m.files[i..], path)
    {
      assert m.files[i..][1..] == m.files[i + 1..];
      if m.files[i].path == path {
        return Some(m.files[i]);
      }
    }
    return None;
  }

  // Empty and directory-like paths mean their index page.
  function Resolve(path: string): string {
    var p := if path != "" && path[0] == '/' then path[1..] else path;
    if p == "" then "index.html"
    else if p[|p| - 1] == '/' then p + "index.html"
    else p
  }

  // The entry a visitor's path leads to.
  function EntryFor(m: Manifest, path: string): (r: Option<FileEntry>)
    ensures r.Some? ==> r.value in m.files
  {
    var direct := FindEntry(m.files, Resolve(path));
    if direct.Some? then direct else FindEntry(m.files, Resolve(path) + "/index.html")
  }

  // Every file is served at its path, an index page also at its directory, with or without a slash at
  // the end, and at the directory's name unless a file has that name; a leading slash never matters.
  lemma {:induction false} PathsServed(m: Manifest, f: FileEntry)
    requires DistinctPaths(m.files) && f in m.files && LegalPath(f.path)
    ensures EntryFor(m, f.path) == EntryFor(m, "/" + f.path) == Some(f)
    ensures f.path == "index.html" ==> EntryFor(m, "") == EntryFor(m, "/") == Some(f)
  {
    FoundByPath(m.files, f);
    PathEnds(f.path);
    SlashIsDropped(f.path);
  }

  lemma {:induction false} IndexServed(m: Manifest, f: FileEntry, d: string)
    requires DistinctPaths(m.files) && f in m.files && LegalPath(f.path) && f.path == d + "/index.html"
    ensures EntryFor(m, d + "/") == EntryFor(m, "/" + (d + "/")) == Some(f)
    ensures (forall g | g in m.files :: g.path != d) ==> EntryFor(m, d) == EntryFor(m, "/" + d) == Some(f)
  {
    FoundByPath(m.files, f);
    DirectoryOf(f.path, d);
    SlashIsDropped(d);
    SlashIsDropped(d + "/");
    assert d + "/" + "index.html" == f.path;
  }

  lemma {:induction false} SlashIsDropped(path: string)
    requires path != "" && path[0] != '/'
    ensures Resolve("/" + path) == Resolve(path)
  {
    assert ("/" + path)[1..] == path;
  }

  lemma {:induction false} FoundByPath(files: seq<FileEntry>, f: FileEntry)
    requires DistinctPaths(files) && f in files
    ensures FindEntry(files, f.path) == Some(f)
  {
    if files[0].path == f.path {
      var i :| 0 <= i < |files| && files[i] == f;
      assert i == 0;
    } else {
      FoundByPath(files[1..], f);
    }
  }

  // A legal path has no empty segment.
  lemma {:induction false} NoEmptySegment(p: string, i: nat)
    requires LegalPath(p)
    ensures !SegmentAt(p, i, i)
  {
    PathIsLegal(p);
  }

  lemma {:induction false} PathEnds(p: string)
    requires LegalPath(p)
    ensures p[0] != '/' && p[|p| - 1] != '/'
  {
    NoEmptySegment(p, 0);
    NoEmptySegment(p, |p|);
  }

  lemma {:induction false} IndexBelow(p: string, d: string)
    requires p == d + "/index.html"
    ensures |d| < |p| && p[|d|] == '/'
    ensures d != "" ==> d[0] == p[0] && d[|d| - 1] == p[|d| - 1]
  {
  }

  lemma {:induction false} DirectoryOf(p: string, d: string)
    requires LegalPath(p) && p == d + "/index.html"
    ensures d != "" && d[0] != '/' && d[|d| - 1] != '/'
  {
    IndexBelow(p, d);
    PathEnds(p);
    NoEmptySegment(p, |d|);
  }

  // And nothing else is served: a path leads to the file of that path, up to a leading slash, or to an
  // index page below it.
  lemma {:induction false} OnlyPathsServed(m: Manifest, path: string, f: FileEntry)
    requires EntryFor(m, path) == Some(f)
    ensures exists p :: LeadsTo(p, f.path) && (p == path || "/" + p == path)
  {
    var p := if path != "" && path[0] == '/' then path[1..] else path;
    assert p == path || "/" + p == path;
    ResolveLeads(p, path, f.path);
  }

  lemma {:induction false} ResolveLeads(p: string, path: string, file: string)
    requires p == if path != "" && path[0] == '/' then path[1..] else path
    requires file == Resolve(path) || file == Resolve(path) + "/index.html"
    ensures LeadsTo(p, file)
  {
    assert p == "" ==> p + "index.html" == "index.html";
  }

  // The page meant is the index page for a directory; if there is no such file, the index page below.
  predicate LeadsTo(p: string, file: string) {
    var page := if p == "" || p[|p| - 1] == '/' then p + "index.html" else p;
    file == page || file == page + "/index.html"
  }

  // The file's own path, or the root for the index page.
  predicate Addresses(path: string, file: string) {
    path == file || path == "/" + file || (file == "index.html" && (path == "" || path == "/"))
  }

  lemma {:induction false} AddressesServed(m: Manifest, path: string)
    ensures DistinctPaths(m.files) ==>
      forall f | f in m.files && LegalPath(f.path) && Addresses(path, f.path) :: EntryFor(m, path) == Some(f)
  {
    if DistinctPaths(m.files) {
      forall f | f in m.files && LegalPath(f.path) && Addresses(path, f.path) ensures EntryFor(m, path) == Some(f) {
        PathsServed(m, f);
      }
    }
  }

  class Handler {
    const store: Store

    constructor (store: Store)
      ensures this.store == store
    {
      this.store := store;
    }

    // The member's directory is one that crash-only histories leave. Other members' may be anything.
    ghost predicate Clean(id: string)
      reads store, store.disk
    {
      Recovery.Clean(store.codec, id, store.disk.At(id))
    }

    // What the table says of the member is what is on disk, as it is for every member that loaded.
    ghost predicate Knows(id: string)
      reads store, store.disk
    {
      Known(store.codec, id, store.disk.At(id), store.Mem(id))
    }

    lemma {:induction false} LoadedIsKnown(id: string)
      requires store.Valid()
      ensures id !in store.skipped ==> Knows(id)
    {
      assert store.MemberValid(id);
    }

    // Whatever the fetcher and the prober do meanwhile, for any member. If the last of it is cut short,
    // what is on disk is what a reader sees in the middle of a put.
    method Meanwhile(ghost id: string, quiet: bool) returns (midway: bool)
      requires store.Valid() && Clean(id) && Knows(id)
      modifies store, store.disk
      ensures Clean(id)
      ensures !midway ==> store.Valid() && Knows(id)
      ensures quiet ==> !midway && unchanged(store) && unchanged(store.disk)
    {
      midway := false;
      if quiet {
        return;
      }
      var steps: nat := *;
      while steps > 0
        invariant store.Valid() && Clean(id) && Knows(id)
      {
        steps := steps - 1;
        var sighting: bool := *;
        if sighting {
          var seen, v := SomeSighting();
          midway := See(id, seen, v);
        } else {
          var put, bytes, blobs := SomeBundle();
          midway := Put(id, put, bytes, blobs);
        }
        if midway {
          return;
        }
      }
    }

    method SomeSighting() returns (id: string, v: nat) {
      id, v := *, *;
    }

    method SomeBundle() returns (id: string, bytes: Bytes, blobs: map<string, Bytes>) {
      id, bytes, blobs := *, *, *;
    }

    method See(ghost served: string, id: string, v: nat) returns (midway: bool)
      requires store.Valid() && Clean(served) && Knows(served)
      modifies store, store.disk
      ensures Clean(served) && (!midway ==> store.Valid() && Knows(served))
    {
      midway := false;
      if v < UINT64_LIMIT {
        ghost var e0, mem0 := store.disk.At(id), store.Mem(id);
        var o := store.NoteSeen(id, v);
        NotedView(store.codec, id, v, e0, mem0, store.disk.At(id), store.Mem(id), o);
        midway := o.Crashed?;
      }
    }

    // A put as the fetcher makes it: a decoded envelope with blobs that match their hashes.
    method Put(ghost served: string, id: string, bytes: Bytes, blobs: map<string, Bytes>) returns (midway: bool)
      requires store.Valid() && Clean(served) && Knows(served)
      modifies store, store.disk
      ensures Clean(served) && (!midway ==> store.Valid() && Knows(served))
    {
      midway := false;
      var m := store.codec.decode(bytes);
      if m.Some? && forall h | h in blobs :: store.codec.hash(blobs[h]) == h {
        ghost var e0, mem0 := store.disk.At(id), store.Mem(id);
        var r := store.Put(id, bytes, m.value, blobs);
        if id == served {
          PutStaysClean(store.codec, id, m.value, bytes, blobs, e0, mem0, store.disk.At(id), store.Mem(id), r);
        }
        midway := r == Crash;
      }
    }

    // Opens the file BlobPath named; it may have been pruned since.
    method OpenBlob(id: string, file: (string, string)) returns (r: Option<Bytes>)
      requires Clean(id) && file.0 != "" && file.0[0] == 'v'
      ensures r == BlobIn(store.disk.At(id), file.0, file.1)
      ensures r.Some? ==> store.codec.hash(r.value) == file.1
    {
      r := BlobIn(store.disk.At(id), file.0, file.1);
    }

    // What the table lists is on disk.
    lemma {:induction false} ListedIsThere(id: string, f: FileEntry)
      requires store.Valid() && Clean(id) && Knows(id)
      requires store.Manifest(id).Some? && f in store.Manifest(id).value.1.files
      ensures store.BlobPath(id, f.sha256).Some?
      ensures
        var file := store.BlobPath(id, f.sha256).value;
        var held := Recovery.Held(store.codec, id, store.disk.At(id));
        && BlobIn(store.disk.At(id), file.0, file.1).Some?
        && held.Some? && f.sha256 in Hashes(held.value.manifest) && f.sha256 in held.value.blobs
        && BlobIn(store.disk.At(id), file.0, file.1) == Some(held.value.blobs[f.sha256])
    {
      assert store.MemberValid(id);
      HeldIsKnown(
        store.codec, id, store.disk.At(id), store.Mem(id), id in store.skipped, store.durable);
      var b := Recovery.Held(store.codec, id, store.disk.At(id)).value;
      assert f.sha256 in Hashes(b.manifest);
      assert f.sha256 in b.blobs;
    }

    // Serves one file of a held bundle. A body that is sent has the hash listed for the path in the
    // manifest that was held when the request came in, whatever was stored in between; and when
    // nothing is, every path of the bundle is served.
    method ServeBundleFile(id: string, path: string, quiet: bool) returns (r: Served)
      requires store.Valid() && Clean(id) && Knows(id)
      modifies store, store.disk
      ensures r.Content? ==>
        && old(store.Manifest(id)).Some?
        && EntryFor(old(store.Manifest(id)).value.1, path).Some?
        && store.codec.hash(r.body) == EntryFor(old(store.Manifest(id)).value.1, path).value.sha256
      ensures r == NotFound <==>
        !(ValidMemberID(id) && old(store.Manifest(id)).Some? && EntryFor(old(store.Manifest(id)).value.1, path).Some?)
      ensures quiet ==> r != ServerError
      ensures quiet && ValidMemberID(id) && old(store.Manifest(id)).Some? ==>
        var files := old(store.Manifest(id)).value.1.files;
        DistinctPaths(files) ==> forall f | f in files && LegalPath(f.path) && Addresses(path, f.path) ::
          r.Content? && store.codec.hash(r.body) == f.sha256
    {
      if store.Manifest(id).Some? {
        AddressesServed(store.Manifest(id).value.1, path);
      }
      if !ValidMemberID(id) {
        return NotFound;
      }
      var held := store.Manifest(id);
      if held.None? {
        return NotFound;
      }
      var m := held.value.1;
      var entry := FindFile(m, Resolve(path));
      if entry.None? {
        entry := FindFile(m, Resolve(path) + "/index.html");
      }
      if entry.None? {
        return NotFound;
      }
      ListedIsThere(id, entry.value);
      var midway := Meanwhile(id, quiet);
      if midway {
        return ServerError;
      }
      var file := store.BlobPath(id, entry.value.sha256);
      if file.None? {
        return ServerError;
      }
      midway := Meanwhile(id, quiet);
      var body := OpenBlob(id, file.value);
      if body.None? {
        return ServerError;
      }
      return Content(body.value);
    }

    // The relay's manifest answer is the envelope that is on disk, byte for byte.
    method ServeManifest(id: string) returns (r: Served)
      requires store.Valid()
      ensures r.Content? ==>
        && Held(store.codec, id, store.disk.At(id)).Some?
        && r == Content(Held(store.codec, id, store.disk.At(id)).value.bytes)
      ensures Knows(id) && ValidMemberID(id) ==> (r.Content? <==> Held(store.codec, id, store.disk.At(id)).Some?)
      ensures r != ServerError
    {
      assert store.MemberValid(id);
      HeldIsKnown(
        store.codec, id, store.disk.At(id), store.Mem(id), id in store.skipped, store.durable);
      if !ValidMemberID(id) {
        return NotFound;
      }
      var held := store.Manifest(id);
      if held.None? {
        return NotFound;
      }
      return Content(held.value.0);
    }

    // The relay's blob answer hashes to what was asked for; while nothing is stored, exactly the blobs
    // of the current manifest are answered.
    method ServeBlob(id: string, hash: string, quiet: bool) returns (r: Served)
      requires store.Valid() && Clean(id) && Knows(id)
      modifies store, store.disk
      ensures r.Content? ==> store.codec.hash(r.body) == hash && old(store.BlobPath(id, hash)).Some?
      ensures r != ServerError
      ensures quiet ==>
        (r.Content? <==> ValidMemberID(id) && ValidSHA256Hex(hash) && old(store.BlobPath(id, hash)).Some?)
      ensures quiet && r.Content? ==>
        var held := Held(store.codec, id, old(store.disk.At(id)));
        held.Some? && hash in held.value.blobs && r.body == held.value.blobs[hash]
      ensures old(store.BlobPath(id, hash)).Some? <==>
        old(store.Manifest(id)).Some? && exists f :: f in old(store.Manifest(id)).value.1.files && f.sha256 == hash
    {
      if !ValidMemberID(id) || !ValidSHA256Hex(hash) {
        return NotFound;
      }
      var file := store.BlobPath(id, hash);
      if file.None? {
        return NotFound;
      }
      ghost var f :| f in store.Manifest(id).value.1.files && f.sha256 == hash;
      ListedIsThere(id, f);
      var _ := Meanwhile(id, quiet);
      var body := OpenBlob(id, file.value);
      if body.None? {
        return NotFound;
      }
      return Content(body.value);
    }
  }

  lemma {:induction false} PutStaysClean(
    c: Codec, id: string, m: Manifest, bytes: Bytes, blobs: map<string, Bytes>,
    e0: Entries, mem0: Option<MemberState>, e1: Entries, mem1: Option<MemberState>, r: PutResult)
    requires PutEffect(c, id, m, bytes, blobs, e0, mem0, e1, mem1, r)
    requires Known(c, id, e0, mem0) && Recovery.Clean(c, id, e0)
    ensures Recovery.Clean(c, id, e1)
    ensures r != Crash ==> Known(c, id, e1, mem1)
  {
  }
}
