/**
 The publisher's side: building a bundle from a site, writing it so that the manifest is the commit
 point, and verifying a written directory.
 */
module Bundles {
  import opened Basics
  import opened Manifests
  import opened Signing

  // Failing is an entry for which the walk itself reports an error, Unreadable a regular file that
  // cannot be read.
  datatype Kind = Regular | Unreadable | Directory | Other | Failing

  // One entry of the walk over a site, by its slash-separated path below the root.
  datatype SiteEntry = SiteEntry(path: string, kind: Kind, data: Bytes)

  predicate IsHidden(segment: string) {
    segment != "" && segment[0] == '.'
  }

  // The walk does not descend into hidden directories.
  predicate Visited(path: string) {
    var segments := Segments(path);
    forall s | s in segments[..|segments| - 1] :: !IsHidden(s)
  }

  // Hidden files are passed over as well.
  predicate Shown(path: string) {
    forall s | s in Segments(path) :: !IsHidden(s)
  }

  predicate Published(e: SiteEntry) {
    e.kind == Regular && Shown(e.path)
  }

  // Nothing that the walk comes to stops it.
  predicate Walkable(e: SiteEntry) {
    && (e.kind == Failing ==> !Visited(e.path))
    && (e.kind == Unreadable ==> !Shown(e.path))
  }

  // A name on the path begins with a dot at i.
  predicate DotAt(path: string, i: nat) {
    StartsAt(path, i) && i < |path| && path[i] == '.'
  }

  // Read off the characters: a file is passed over if any name on its path begins with a dot, and the
  // walk does not come to it if the name of a directory does.
  lemma {:induction false} HiddenByDot(path: string)
    ensures Shown(path) <==> !exists i: nat :: DotAt(path, i)
    ensures Visited(path) <==> !exists i: nat, j: nat :: DotAt(path, i) && i < j < |path| && path[j] == '/'
  {
    var at := SegmentsAre(path);
    var segments := Segments(path);
    forall k | 0 <= k < |at|
      ensures IsHidden(segments[k]) <==> DotAt(path, at[k])
      ensures k < |at| - 1 <==> exists j: nat :: at[k] <= j < |path| && path[j] == '/'
    {
      HiddenAt(path, at, k);
    }
    forall i: nat | DotAt(path, i) ensures exists k :: 0 <= k < |at| && at[k] == i {
      assert i in at;
    }
    VisitedAt(path, at);
    assert Shown(path) <==> forall k | 0 <= k < |at| :: !IsHidden(segments[k]);
  }

  lemma {:induction false} VisitedAt(path: string, at: seq<nat>)
    requires |at| == |Segments(path)|
    ensures Visited(path) <==> forall k | 0 <= k < |at| - 1 :: !IsHidden(Segments(path)[k])
  {
    var segments := Segments(path);
    var dirs := segments[..|segments| - 1];
    assert forall k | 0 <= k < |at| - 1 :: dirs[k] == segments[k];
    assert forall s | s in dirs :: exists k :: 0 <= k < |dirs| && dirs[k] == s;
  }

  lemma {:induction false} HiddenAt(path: string, at: seq<nat>, k: nat)
    requires Places(path, at, Segments(path)) && k < |at|
    ensures IsHidden(Segments(path)[k]) <==> DotAt(path, at[k])
    ensures k < |at| - 1 <==> exists j: nat :: at[k] <= j < |path| && path[j] == '/'
  {
    assert PlaceOf(path, at, Segments(path), k);
    if k < |at| - 1 {
      assert PlaceOf(path, at, Segments(path), k + 1);
      assert path[EndOf(path, at, k)] == '/';
    }
  }

  function EntryOf(p: Primitives, e: SiteEntry): FileEntry {
    FileEntry(e.path, p.sha256(e.data), |e.data|)
  }

  function FilesOf(p: Primitives, site: seq<SiteEntry>): seq<FileEntry> {
    if site == [] then []
    else
      var e := site[|site| - 1];
      FilesOf(p, site[..|site| - 1]) + if Published(e) then [EntryOf(p, e)] else []
  }

  // A regular file, and no name on its path begins with a dot.
  ghost predicate IsListed(e: SiteEntry) {
    e.kind == Regular && forall i: nat :: !DotAt(e.path, i)
  }

  // The manifest's entry k is the file at position i of the walk.
  ghost predicate ListsAt(p: Primitives, site: seq<SiteEntry>, k: nat, i: nat) {
    && i < |site| && IsListed(site[i]) && k < |FilesOf(p, site)|
    && FilesOf(p, site)[k] == FileEntry(site[i].path, p.sha256(site[i].data), |site[i].data|)
  }

  lemma {:induction false} FilesSnoc(p: Primitives, front: seq<SiteEntry>, e: SiteEntry)
    ensures FilesOf(p, front + [e]) ==
      FilesOf(p, front) + if IsListed(e) then [FileEntry(e.path, p.sha256(e.data), |e.data|)] else []
  {
    assert (front + [e])[..|front|] == front;
    HiddenByDot(e.path);
  }

  lemma {:induction false} ListsStill(p: Primitives, front: seq<SiteEntry>, e: SiteEntry, k: nat, i: nat)
    requires ListsAt(p, front, k, i)
    ensures ListsAt(p, front + [e], k, i)
  {
    FilesSnoc(p, front, e);
  }

  // The manifest lists the regular files that are not hidden, each once and in the order of the walk,
  // with the hash and the length of what is in it.
  lemma {:induction false} FilesAre(p: Primitives, site: seq<SiteEntry>) returns (at: seq<nat>)
    ensures |at| == |FilesOf(p, site)|
    ensures forall k | 0 <= k < |at| :: ListsAt(p, site, k, at[k])
    ensures forall k, l | 0 <= k < l < |at| :: at[k] < at[l]
    ensures forall i: nat | i < |site| && IsListed(site[i]) :: i in at
  {
    if site == [] {
      at := [];
    } else {
      var n := |site| - 1;
      var front := FilesAre(p, site[..n]);
      at := front + if IsListed(site[n]) then [n] else [];
      assert site == site[..n] + [site[n]];
      FilesSnoc(p, site[..n], site[n]);
      forall k | 0 <= k < |front| ensures ListsAt(p, site, k, front[k]) {
        ListsStill(p, site[..n], site[n], k, front[k]);
      }
      forall i: nat | i < |site| && IsListed(site[i]) ensures i in at {
        assert i < n ==> site[..n][i] == site[i];
      }
    }
  }

  // The published contents of a site do not collide.
  ghost predicate NoCollision(p: Primitives, site: seq<SiteEntry>) {
    forall d, e | d in site && e in site && p.sha256(d.data) == p.sha256(e.data) :: d.data == e.data
  }

  datatype BuildError =
    | WalkFailed(path: string)
    | NoLegalPath(path: string)
    | CannotRead(path: string)
    | FileTooLarge(path: string)
    | SiteTooLarge
    | TooMany
    | NotValid(e: Invalid)

  datatype Draft = Draft(manifest: Manifest, blobs: map<string, Bytes>)

  predicate FileMatches(p: Primitives, blobs: map<string, Bytes>, f: FileEntry) {
    f.sha256 in blobs && |blobs[f.sha256]| == f.size && p.sha256(blobs[f.sha256]) == f.sha256
  }

  // Every blob is the content of some file of the site and is kept under its hash.
  ghost predicate FromSite(p: Primitives, site: seq<SiteEntry>, blobs: map<string, Bytes>) {
    forall h | h in blobs :: p.sha256(blobs[h]) == h && exists e :: e in site && e.data == blobs[h]
  }

  lemma {:induction false} FilesComeFromSite(p: Primitives, site: seq<SiteEntry>)
    ensures forall f | f in FilesOf(p, site) :: exists e :: e in site && Published(e) && f == EntryOf(p, e)
  {
    if site != [] {
      FilesComeFromSite(p, site[..|site| - 1]);
    }
  }

  lemma {:induction false} TotalSizeSnoc(files: seq<FileEntry>, f: FileEntry)
    ensures TotalSize(files + [f]) == TotalSize(files) + f.size
  {
    assert (files + [f])[..|files|] == files;
  }

  lemma {:induction false} FilesStep(p: Primitives, site: seq<SiteEntry>, i: nat)
    requires i < |site|
    ensures FilesOf(p, site[..i + 1]) ==
      if Published(site[i]) then FilesOf(p, site[..i]) + [EntryOf(p, site[i])] else FilesOf(p, site[..i])
    ensures TotalSize(FilesOf(p, site[..i + 1])) ==
      TotalSize(FilesOf(p, site[..i])) + if Published(site[i]) then |site[i].data| else 0
  {
    assert site[..i + 1][..i] == site[..i];
    TotalSizeSnoc(FilesOf(p, site[..i]), EntryOf(p, site[i]));
  }

  // What the walk has found by some point stays in the list and in the total.
  lemma {:induction false} FilesGrow(p: Primitives, site: seq<SiteEntry>, i: nat, j: nat)
    requires i <= j <= |site|
    ensures forall f | f in FilesOf(p, site[..i]) :: f in FilesOf(p, site[..j])
    ensures TotalSize(FilesOf(p, site[..i])) <= TotalSize(FilesOf(p, site[..j]))
  {
    if i < j {
      FilesGrow(p, site, i, j - 1);
      FilesStep(p, site, j - 1);
    }
  }

  lemma {:induction false} FoundStays(p: Primitives, site: seq<SiteEntry>, i: nat)
    requires i < |site| && Published(site[i])
    ensures EntryOf(p, site[i]) in FilesOf(p, site)
    ensures TotalSize(FilesOf(p, site[..i])) + |site[i].data| <= TotalSize(FilesOf(p, site))
  {
    FilesStep(p, site, i);
    FilesGrow(p, site, i + 1, |site|);
    assert site[..|site|] == site;
  }

  // A published file that is within bounds.
  predicate Acceptable(e: SiteEntry) {
    LegalPath(e.path) && |e.data| <= MAX_BLOB_BYTES
  }

  // What the walk does with one entry: pass over it, take it, or give up.
  method Inspect(e: SiteEntry) returns (take: bool, err: Option<BuildError>)
    ensures err.None? <==> Passes(e)
    ensures take <==> err.None? && Published(e)
    ensures err == Some(WalkFailed(e.path)) <==> e.kind == Failing && Visited(e.path)
    ensures err == Some(NoLegalPath(e.path)) <==>
      (e.kind == Regular || e.kind == Unreadable) && Shown(e.path) && !LegalPath(e.path)
    ensures err == Some(CannotRead(e.path)) <==> e.kind == Unreadable && Shown(e.path) && LegalPath(e.path)
    ensures err == Some(FileTooLarge(e.path)) <==>
      e.kind == Regular && Shown(e.path) && LegalPath(e.path) && |e.data| > 33554432
    ensures err.Some? ==>
      err.value in {WalkFailed(e.path), NoLegalPath(e.path), CannotRead(e.path), FileTooLarge(e.path)}
  {
    assert Shown(e.path) ==> Visited(e.path);
    if !Visited(e.path) {
      return false, None;
    }
    if e.kind == Failing {
      return false, Some(WalkFailed(e.path));
    }
    if !Shown(e.path) || e.kind == Directory || e.kind == Other {
      return false, None;
    }
    var legal := ValidBundlePath(e.path);
    if !legal {
      return false, Some(NoLegalPath(e.path));
    }
    if e.kind == Unreadable {
      return false, Some(CannotRead(e.path));
    }
    if |e.data| > MAX_BLOB_BYTES {
      return false, Some(FileTooLarge(e.path));
    }
    return true, None;
  }

  predicate AllWalkable(site: seq<SiteEntry>) {
    forall i | 0 <= i < |site| :: Walkable(site[i])
  }

  // The site has a bundle within bounds.
  predicate Bundled(p: Primitives, site: seq<SiteEntry>) {
    AllWalkable(site) && ValidFiles(FilesOf(p, site)) && TotalSize(FilesOf(p, site)) <= MAX_BUNDLE_BYTES
  }

  predicate Passes(e: SiteEntry) {
    Walkable(e) && (Published(e) ==> Acceptable(e))
  }

  predicate PassesTo(site: seq<SiteEntry>, n: nat)
    requires n <= |site|
  {
    n == 0 || (PassesTo(site, n - 1) && Passes(site[n - 1]))
  }

  lemma {:induction false} PassedIsWalkable(site: seq<SiteEntry>, n: nat)
    requires n <= |site| && PassesTo(site, n)
    ensures AllWalkable(site[..n])
  {
    if n > 0 {
      PassedIsWalkable(site, n - 1);
      assert site[..n] == site[..n - 1] + [site[n - 1]];
    }
  }

  // An entry the walk gives up on leaves the site without one.
  lemma {:induction false} GaveUp(p: Primitives, site: seq<SiteEntry>, i: nat)
    requires i < |site| && !Passes(site[i])
    ensures !Bundled(p, site)
  {
    if Walkable(site[i]) {
      FoundStays(p, site, i);
      var k :| 0 <= k < |FilesOf(p, site)| && FilesOf(p, site)[k] == EntryOf(p, site[i]);
      assert !ValidFile(FilesOf(p, site)[k]);
    }
  }

  lemma {:induction false} TooMuch(p: Primitives, site: seq<SiteEntry>, i: nat)
    requires i < |site| && Published(site[i])
    requires TotalSize(FilesOf(p, site[..i])) + |site[i].data| > MAX_BUNDLE_BYTES
    ensures !Bundled(p, site)
  {
    FoundStays(p, site, i);
  }

  lemma {:induction false} KeptFromSite(p: Primitives, site: seq<SiteEntry>, i: nat, blobs: map<string, Bytes>)
    requires i < |site| && FromSite(p, site, blobs)
    ensures FromSite(p, site, blobs[p.sha256(site[i].data) := site[i].data])
  {
    assert site[i] in site;
  }

  // Walks the site and collects its files and blobs.
  method Collect(p: Primitives, site: seq<SiteEntry>)
    returns (files: seq<FileEntry>, blobs: map<string, Bytes>, err: Option<BuildError>)
    ensures err.None? ==> files == FilesOf(p, site) && AllWalkable(site)
    ensures err.Some? ==> !Bundled(p, site) && !err.value.TooMany? && !err.value.NotValid?
    ensures FromSite(p, site, blobs)
    ensures err.None? && NoCollision(p, site) ==> forall f | f in files :: FileMatches(p, blobs, f)
  {
    files, blobs, err := [], map[], None;
    var total := 0;
    for i := 0 to |site|
      invariant files == FilesOf(p, site[..i]) && total == TotalSize(files)
      invariant FromSite(p, site, blobs)
      invariant forall f | f in files :: f.sha256 in blobs
      invariant PassesTo(site, i) && err.None?
    {
      FilesStep(p, site, i);
      var take;
      take, err := Inspect(site[i]);
      if err.Some? {
        GaveUp(p, site, i);
        return;
      }
      if take {
        total := total + |site[i].data|;
        if total > MAX_BUNDLE_BYTES {
          TooMuch(p, site, i);
          err := Some(SiteTooLarge);
          return;
        }
        KeptFromSite(p, site, i, blobs);
        files := files + [EntryOf(p, site[i])];
        blobs := blobs[p.sha256(site[i].data) := site[i].data];
      }
    }
    assert site[..|site|] == site;
    PassedIsWalkable(site, |site|);
    if NoCollision(p, site) {
      CollectedMatch(p, site, blobs);
    }
  }

  lemma {:induction false} CollectedMatch(p: Primitives, site: seq<SiteEntry>, blobs: map<string, Bytes>)
    requires NoCollision(p, site)
    requires FromSite(p, site, blobs)
    requires forall f | f in FilesOf(p, site) :: f.sha256 in blobs
    ensures forall f | f in FilesOf(p, site) :: FileMatches(p, blobs, f)
  {
    FilesComeFromSite(p, site);
    forall f | f in FilesOf(p, site) ensures FileMatches(p, blobs, f) {
      var d :| d in site && Published(d) && f == EntryOf(p, d);
      var e :| e in site && e.data == blobs[f.sha256];
    }
  }

  // The walk comes to its end and what it found makes a valid manifest.
  predicate Buildable(p: Primitives, site: seq<SiteEntry>, m: Manifest) {
    AllWalkable(site) && ValidManifest(p, m)
  }

  // Which entries stop the walk: one it cannot list, unless a directory above it is hidden, and a file it
  // cannot read, unless it or a directory above it is hidden.
  lemma {:induction false} BuildableMeans(p: Primitives, site: seq<SiteEntry>, m: Manifest)
    ensures Buildable(p, site, m) <==>
      && ValidManifest(p, m)
      && (forall e | e in site && e.kind == Failing ::
            exists i: nat, j: nat :: DotAt(e.path, i) && i < j < |e.path| && e.path[j] == '/')
      && (forall e | e in site && e.kind == Unreadable :: exists i: nat :: DotAt(e.path, i))
  {
    forall i | 0 <= i < |site|
      ensures Walkable(site[i]) <==>
        && (site[i].kind == Failing ==>
              exists k: nat, j: nat :: DotAt(site[i].path, k) && k < j < |site[i].path| && site[i].path[j] == '/')
        && (site[i].kind == Unreadable ==> exists k: nat :: DotAt(site[i].path, k))
    {
      HiddenByDot(site[i].path);
    }
    assert forall i | 0 <= i < |site| :: site[i] in site;
    assert AllWalkable(site) <==> forall e | e in site :: Walkable(e);
  }

  method Build(
    p: Primitives, site: seq<SiteEntry>, memberId: string, version: nat, timestamp: string, metadata: map<string,
    string>)
    returns (r: Result<Draft, BuildError>)
    ensures r.Ok? <==> Buildable(p, site, Manifest(memberId, version, timestamp, FilesOf(p, site), metadata))
    ensures r.Ok? ==>
      && r.value.manifest == Manifest(memberId, version, timestamp, FilesOf(p, site), metadata)
      && FromSite(p, site, r.value.blobs)
      && (NoCollision(p, site) ==> forall f | f in r.value.manifest.files :: FileMatches(p, r.value.blobs, f))
    ensures r.Err? && r.error.TooMany? ==> |FilesOf(p, site)| > 1024
    ensures r.Err? && r.error.NotValid? ==>
      Justified(p, Manifest(memberId, version, timestamp, FilesOf(p, site), metadata), r.error.e)
  {
    var files, blobs, err := Collect(p, site);
    if err.Some? {
      return Err(err.value);
    }
    if |files| > MAX_FILE_COUNT {
      return Err(TooMany);
    }
    var m := Manifest(memberId, version, timestamp, files, metadata);
    var invalid := Validate(p, m);
    if invalid.Some? {
      return Err(NotValid(invalid.value));
    }
    return Ok(Draft(m, blobs));
  }

  /* Verification of a directory */

  datatype DirError = NoManifest | ManifestTooLarge | BadManifest(e: Rejection) | HashMismatch(path: string)

  // The signature covers the manifest and every file is there as the manifest says.
  ghost predicate Verifies(p: Primitives, manifest: Option<Bytes>, blobs: map<string, Bytes>, pub: Key, m: Manifest) {
    && manifest.Some? && |manifest.value| <= MAX_MANIFEST_BYTES
    && VerifyManifestBytes(p, manifest.value, pub) == Ok(m)
    && forall f | f in m.files :: FileMatches(p, blobs, f)
  }

  // The first file in the manifest's order that is missing or differs has this path.
  ghost predicate FirstMismatch(p: Primitives, blobs: map<string, Bytes>, files: seq<FileEntry>, path: string) {
    exists i | 0 <= i < |files| ::
      && !FileMatches(p, blobs, files[i]) && files[i].path == path
      && forall j | 0 <= j < i :: FileMatches(p, blobs, files[j])
  }

  method FindMismatch(p: Primitives, blobs: map<string, Bytes>, files: seq<FileEntry>) returns (r: Option<string>)
    ensures r.None? ==> forall f | f in files :: FileMatches(p, blobs, f)
    ensures r.Some? ==> FirstMismatch(p, blobs, files, r.value)
  {
    for i := 0 to |files|
      invariant forall j | 0 <= j < i :: FileMatches(p, blobs, files[j])
    {
      var f := files[i];
      if f.sha256 !in blobs || |blobs[f.sha256]| != f.size || p.sha256(blobs[f.sha256]) != f.sha256 {
        assert !FileMatches(p, blobs, files[i]);
        return Some(f.path);
      }
    }
    return None;
  }

  /* The directory */

  datatype WriteResult = Written | BadBlobName | Stopped

  // A manifest that is there can be served: every blob it names is there and matches.
  ghost predicate Servable(p: Primitives, manifest: Option<Bytes>, blobs: map<string, Bytes>) {
    manifest.Some? && DecodeStored(p, manifest.value).Some? ==>
      forall f | f in DecodeStored(p, manifest.value).value.files :: FileMatches(p, blobs, f)
  }

  // The hashes of the bundle that is being served.
  ghost function Served(p: Primitives, manifest: Option<Bytes>): set<string> {
    if manifest.Some? && DecodeStored(p, manifest.value).Some?
    then set f | f in DecodeStored(p, manifest.value).value.files :: f.sha256
    else {}
  }

  // No new blob has a name that is being served.
  ghost predicate Spares(p: Primitives, manifest: Option<Bytes>, newBlobs: map<string, Bytes>) {
    forall h | h in newBlobs :: h !in Served(p, manifest)
  }

  // Where the directory has sound content under the name of a new blob, it is that blob's.
  ghost predicate Agree(p: Primitives, newBlobs: map<string, Bytes>, blobs: map<string, Bytes>) {
    forall h | h in newBlobs && h in blobs && p.sha256(blobs[h]) == h :: newBlobs[h] == blobs[h]
  }

  class BundleDir {
    var manifest: Option<Bytes>
    var blobs: map<string, Bytes>

    // How many writes have not succeeded.
    ghost var mishaps: nat

    // Stopping comes from a write that did not succeed.
    twostate predicate Reported(done: bool)
      reads this
    {
      old(mishaps) <= mishaps && (done <==> mishaps == old(mishaps))
    }

    // A file write can stop; unless file writes are atomic it then leaves some of the data.
    method WriteBlob(hash: string, data: Bytes, atomic: bool) returns (done: bool)
      modifies this`blobs, this`mishaps
      ensures Reported(done)
      ensures done ==> blobs == old(blobs)[hash := data]
      ensures !done && atomic ==> blobs == old(blobs)
      ensures !done ==> blobs == old(blobs) || (hash in blobs && blobs == old(blobs)[hash := blobs[hash]])
    {
      done := *;
      if done {
        blobs := blobs[hash := data];
        return;
      }
      mishaps := mishaps + 1;
      if !atomic {
        var torn: Bytes := *;
        blobs := blobs[hash := torn];
      }
    }

    // Written beside the old manifest and renamed over it.
    method ReplaceManifest(envelope: Bytes) returns (done: bool)
      modifies this`manifest, this`mishaps
      ensures Reported(done)
      ensures done ==> manifest == Some(envelope)
      ensures !done ==> manifest == old(manifest) || manifest == Some(envelope)
    {
      done := *;
      var renamed: bool := *;
      if done || renamed {
        manifest := Some(envelope);
      }
      if !done {
        mishaps := mishaps + 1;
      }
    }

    // With atomic file writes, or when the new blobs share no name with what is served, the old
    // bundle can still be served wherever this stops.
    method WriteBlobs(p: Primitives, newBlobs: map<string, Bytes>, atomic: bool) returns (r: WriteResult)
      requires Agree(p, newBlobs, blobs)
      modifies this`blobs, this`mishaps
      ensures Reported(r != Stopped)
      ensures r == Written ==> blobs == old(blobs) + newBlobs
      ensures r == BadBlobName ==> exists h :: h in newBlobs && !ValidSHA256Hex(h)
      ensures r == Stopped ==> CanStopAt(old(blobs), newBlobs, atomic, blobs)
      ensures Servable(p, manifest, old(blobs)) && (atomic || Spares(p, manifest, newBlobs))
        ==> Servable(p, manifest, blobs)
    {
      var left := newBlobs.Keys;
      while left != {}
        invariant left <= newBlobs.Keys && Partway(old(blobs), newBlobs, left, blobs) && Reported(true)
        decreases |left|
      {
        var hash :| hash in left;
        ghost var now := blobs;
        if !ValidSHA256Hex(hash) {
          PartwayIsServable(p, manifest, old(blobs), newBlobs, left, now);
          return BadBlobName;
        }
        var done := WriteBlob(hash, newBlobs[hash], atomic);
        if !done {
          assert StopsAt(old(blobs), newBlobs, left, hash, atomic, blobs);
          if Servable(p, manifest, old(blobs)) && (atomic || Spares(p, manifest, newBlobs)) {
            StopIsServable(p, manifest, old(blobs), newBlobs, atomic, blobs);
          }
          return Stopped;
        }
        PartwayStep(old(blobs), newBlobs, left, now, hash);
        left := left - {hash};
      }
      PartwayIsServable(p, manifest, old(blobs), newBlobs, left, blobs);
      PartwayEnd(old(blobs), newBlobs, blobs);
      return Written;
    }

    // Blobs first, the manifest last.
    method WriteDir(p: Primitives, envelope: Bytes, newBlobs: map<string, Bytes>, atomic: bool) returns (r: WriteResult)
      requires Agree(p, newBlobs, blobs)
      modifies this
      ensures Reported(r != Stopped)
      ensures r == Written ==> manifest == Some(envelope) && blobs == old(blobs) + newBlobs
      ensures r == BadBlobName ==> manifest == old(manifest) && exists h :: h in newBlobs && !ValidSHA256Hex(h)
      ensures
        && Servable(p, old(manifest), old(blobs)) && Servable(p, Some(envelope), newBlobs)
        && (atomic || Spares(p, old(manifest), newBlobs))
        ==> Servable(p, manifest, blobs)
    {
      r := WriteBlobs(p, newBlobs, atomic);
      if r != Written {
        return;
      }
      ghost var was := manifest;
      var done := ReplaceManifest(envelope);
      ReplacedIsServable(p, was, manifest, envelope, newBlobs, blobs);
      return if done then Written else Stopped;
    }

    method VerifyDir(p: Primitives, pub: Key) returns (r: Result<Manifest, DirError>)
      ensures r.Ok? ==> Verifies(p, manifest, blobs, pub, r.value)
      ensures forall m | Verifies(p, manifest, blobs, pub, m) :: r == Ok(m)
      ensures r == Err(NoManifest) <==> manifest.None?
      ensures r == Err(ManifestTooLarge) <==> manifest.Some? && |manifest.value| > MAX_MANIFEST_BYTES
      ensures r.Err? && r.error.BadManifest? ==> VerifyManifestBytes(p, manifest.value, pub) == Err(r.error.e)
      ensures r.Err? && r.error.HashMismatch? ==>
        && VerifyManifestBytes(p, manifest.value, pub).Ok?
        && FirstMismatch(p, blobs, VerifyManifestBytes(p, manifest.value, pub).value.files, r.error.path)
    {
      if manifest.None? {
        return Err(NoManifest);
      }
      if |manifest.value| > MAX_MANIFEST_BYTES {
        return Err(ManifestTooLarge);
      }
      var verified := VerifyManifestBytes(p, manifest.value, pub);
      if verified.Err? {
        return Err(BadManifest(verified.error));
      }
      var files := verified.value.files;
      var bad := FindMismatch(p, blobs, files);
      if bad.Some? {
        return Err(HashMismatch(bad.value));
      }
      return Ok(verified.value);
    }

    // Build, sign, encode, write: what was published verifies as what was built.
    method Publish(
      p: Primitives, site: seq<SiteEntry>, memberId: string, version: nat, timestamp: string,
      metadata: map<string, string>, priv: Key, atomic: bool, order: seq<string>)
      returns (r: Option<Manifest>, stopped: bool)
      requires Lawful(p) && Lists(order, metadata)
      requires NoCollision(p, site) && NoClash(p, site, blobs)
      modifies this
      ensures Reported(!stopped)
      ensures
        var m := Manifest(memberId, version, timestamp, FilesOf(p, site), metadata);
        && (!stopped ==> (r == if Buildable(p, site, m) then Some(m) else None))
        && (r.Some? && manifest.Some? && |manifest.value| <= MAX_MANIFEST_BYTES ==>
              Verifies(p, manifest, blobs, p.publicKey(priv), m))
      ensures r.Some? ==> !stopped && manifest.Some?
      ensures r.None? && !stopped ==> manifest == old(manifest) && blobs == old(blobs)
      ensures Servable(p, old(manifest), old(blobs)) && atomic ==> Servable(p, manifest, blobs)
    {
      var built := Build(p, site, memberId, version, timestamp, metadata);
      if built.Err? {
        return None, false;
      }
      var m := built.value.manifest;
      var newBlobs := built.value.blobs;
      PublishedVerifies(p, m, priv, order, newBlobs);
      AgreeWithDirectory(p, site, newBlobs, blobs);
      var sm := SignManifest(p, m, priv, order);
      var envelope := EncodeSignedManifest(sm.value, order);
      var written := WriteDir(p, envelope, newBlobs, atomic);
      if written != Written {
        assert written == Stopped;
        return None, true;
      }
      MatchAfterWrite(p, m.files, newBlobs, blobs);
      return Some(m), false;
    }

    // The round trip: a site that can be built, published on a disk that does not fail, verifies under
    // the publisher's key as exactly the manifest of its files.
    method PublishAndVerify(
      p: Primitives, site: seq<SiteEntry>, memberId: string, version: nat, timestamp: string,
      metadata: map<string, string>, priv: Key, atomic: bool, order: seq<string>)
      returns (r: Option<Result<Manifest, DirError>>)
      requires Lawful(p) && Lists(order, metadata)
      requires NoCollision(p, site) && NoClash(p, site, blobs)
      requires Buildable(p, site, Manifest(memberId, version, timestamp, FilesOf(p, site), metadata))
      modifies this
      ensures r.None? <==> mishaps != old(mishaps)
      ensures r.Some? ==> manifest.Some?
      ensures r.Some? && |manifest.value| <= MAX_MANIFEST_BYTES ==>
        r.value == Ok(Manifest(memberId, version, timestamp, FilesOf(p, site), metadata))
      ensures r.Some? && |manifest.value| > MAX_MANIFEST_BYTES ==> r.value == Err(ManifestTooLarge)
    {
      var published, stopped := Publish(p, site, memberId, version, timestamp, metadata, priv, atomic, order);
      if stopped {
        return None;
      }
      var verified := VerifyDir(p, p.publicKey(priv));
      return Some(verified);
    }
  }

  // No file of the site collides with a sound blob that is in the directory.
  ghost predicate NoClash(p: Primitives, site: seq<SiteEntry>, blobs: map<string, Bytes>) {
    forall h, e | h in blobs && e in site && p.sha256(blobs[h]) == h == p.sha256(e.data) :: e.data == blobs[h]
  }

  lemma {:induction false} AgreeWithDirectory(
    p: Primitives, site: seq<SiteEntry>, newBlobs: map<string, Bytes>, blobs: map<string, Bytes>)
    requires NoClash(p, site, blobs) && FromSite(p, site, newBlobs)
    ensures Agree(p, newBlobs, blobs)
  {
    forall h | h in newBlobs && h in blobs && p.sha256(blobs[h]) == h ensures newBlobs[h] == blobs[h] {
      var e :| e in site && e.data == newBlobs[h];
    }
  }

  lemma {:induction false} MatchAfterWrite(
    p: Primitives, files: seq<FileEntry>, newBlobs: map<string, Bytes>, blobs: map<string, Bytes>)
    requires forall f | f in files :: FileMatches(p, newBlobs, f)
    requires newBlobs.Keys <= blobs.Keys && forall h | h in newBlobs :: blobs[h] == newBlobs[h]
    ensures forall f | f in files :: FileMatches(p, blobs, f)
  {
    forall f | f in files ensures FileMatches(p, blobs, f) {
      assert FileMatches(p, newBlobs, f);
    }
  }

  // The envelope just made is one a reader accepts, and its files are those of the new blobs.
  lemma {:induction false} PublishedVerifies(
    p: Primitives, m: Manifest, priv: Key, order: seq<string>, blobs: map<string, Bytes>)
    requires Lawful(p) && ValidManifest(p, m) && Lists(order, m.metadata)
    requires forall f | f in m.files :: FileMatches(p, blobs, f)
    ensures SignManifest(p, m, priv, order).Some?
    ensures
      var envelope := EncodeSignedManifest(SignManifest(p, m, priv, order).value, order);
      && Servable(p, Some(envelope), blobs)
      && (|envelope| <= MAX_MANIFEST_BYTES ==> Verifies(p, Some(envelope), blobs, p.publicKey(priv), m))
  {
    SignEncodeVerify(p, m, priv, order, order);
    EncodedIsStored(p, m, SignManifest(p, m, priv, order).value.signature, order);
  }

  // All new blobs are written but those that are left.
  function Written(before: map<string, Bytes>, newBlobs: map<string, Bytes>, left: set<string>): map<string, Bytes> {
    before + map h | h in newBlobs && h !in left :: newBlobs[h]
  }

  ghost predicate Partway(
    before: map<string, Bytes>, newBlobs: map<string, Bytes>, left: set<string>, now: map<string, Bytes>) {
    now == Written(before, newBlobs, left)
  }

  lemma {:induction false} PartwayStep(
    before: map<string, Bytes>, newBlobs: map<string, Bytes>, left: set<string>, now: map<string, Bytes>, hash: string)
    requires Partway(before, newBlobs, left, now) && hash in left && left <= newBlobs.Keys
    ensures Partway(before, newBlobs, left - {hash}, now[hash := newBlobs[hash]])
  {
  }

  lemma {:induction false} PartwayEnd(before: map<string, Bytes>, newBlobs: map<string, Bytes>, now: map<string, Bytes>)
    requires Partway(before, newBlobs, {}, now)
    ensures now == before + newBlobs
  {
    assert newBlobs == map h | h in newBlobs && h !in {} :: newBlobs[h];
  }

  lemma {:induction false} PartwayIsServable(
    p: Primitives, manifest: Option<Bytes>, before: map<string, Bytes>,
    newBlobs: map<string, Bytes>, left: set<string>, now: map<string, Bytes>)
    requires Agree(p, newBlobs, before) && Partway(before, newBlobs, left, now)
    ensures Servable(p, manifest, before) ==> Servable(p, manifest, now)
  {
    if Servable(p, manifest, before) && manifest.Some? && DecodeStored(p, manifest.value).Some? {
      forall f | f in DecodeStored(p, manifest.value).value.files ensures FileMatches(p, now, f) {
        assert FileMatches(p, before, f);
      }
    }
  }

  lemma {:induction false} TornIsServable(
    p: Primitives, manifest: Option<Bytes>, now: map<string, Bytes>, after: map<string, Bytes>, hash: string)
    requires after == now || (hash in after && after == now[hash := after[hash]])
    ensures Servable(p, manifest, now) && (after == now || hash !in Served(p, manifest))
      ==> Servable(p, manifest, after)
  {
    if Servable(p, manifest, now) && hash !in Served(p, manifest)
      && manifest.Some? && DecodeStored(p, manifest.value).Some?
    {
      forall f | f in DecodeStored(p, manifest.value).value.files ensures FileMatches(p, after, f) {
        assert FileMatches(p, now, f) && f.sha256 in Served(p, manifest);
      }
    }
  }

  lemma {:induction false} ReplacedIsServable(
    p: Primitives, was: Option<Bytes>, now: Option<Bytes>, envelope: Bytes,
    newBlobs: map<string, Bytes>, blobs: map<string, Bytes>)
    requires newBlobs.Keys <= blobs.Keys && forall h | h in newBlobs :: blobs[h] == newBlobs[h]
    requires now == was || now == Some(envelope)
    ensures Servable(p, was, blobs) && Servable(p, Some(envelope), newBlobs) ==> Servable(p, now, blobs)
  {
    if Servable(p, Some(envelope), newBlobs) && DecodeStored(p, envelope).Some? {
      MatchAfterWrite(p, DecodeStored(p, envelope).value.files, newBlobs, blobs);
    }
  }

  ghost predicate TornServable(
    p: Primitives, manifest: Option<Bytes>, blobs: map<string, Bytes>, hash: string, torn: Bytes)
  {
    Servable(p, manifest, blobs[hash := torn])
  }

  // A write that can be torn is safe, whatever it may leave, exactly when the manifest that is served
  // does not name the blob.
  lemma {:induction false} TornWrite(p: Primitives, manifest: Option<Bytes>, blobs: map<string, Bytes>, hash: string)
    requires Servable(p, manifest, blobs)
    ensures (forall torn: Bytes :: TornServable(p, manifest, blobs, hash, torn)) <==> hash !in Served(p, manifest)
  {
    if hash in Served(p, manifest) {
      var torn := TornBlob(p, manifest, blobs, hash);
    } else {
      forall torn: Bytes ensures TornServable(p, manifest, blobs, hash, torn) {
        TornIsServable(p, manifest, blobs, blobs[hash := torn], hash);
      }
    }
  }

  // What is left may be empty, or a single byte where an empty file is listed.
  lemma {:induction false} TornBlob(p: Primitives, manifest: Option<Bytes>, blobs: map<string, Bytes>, hash: string)
    returns (torn: Bytes)
    requires hash in Served(p, manifest)
    ensures !TornServable(p, manifest, blobs, hash, torn)
  {
    var f :| f in DecodeStored(p, manifest.value).value.files && f.sha256 == hash;
    torn := if f.size == 0 then [0] else [];
    assert !FileMatches(p, blobs[hash := torn], f);
  }

  // Where writing the new blobs, in any order, can stop with a write that does not succeed.
  ghost predicate CanStopAt(
    before: map<string, Bytes>, newBlobs: map<string, Bytes>, atomic: bool, now: map<string, Bytes>)
  {
    exists left, hash :: StopsAt(before, newBlobs, left, hash, atomic, now)
  }

  ghost predicate StopsAt(
    before: map<string, Bytes>, newBlobs: map<string, Bytes>, left: set<string>, hash: string, atomic: bool,
    now: map<string, Bytes>)
  {
    var written := Written(before, newBlobs, left);
    && hash in left && left <= newBlobs.Keys
    && (now == written || (!atomic && hash in now && now == written[hash := now[hash]]))
  }

  lemma {:induction false} NothingWritten(before: map<string, Bytes>, newBlobs: map<string, Bytes>)
    ensures Written(before, newBlobs, newBlobs.Keys) == before
  {
  }

  lemma {:induction false} StopIsServable(
    p: Primitives, manifest: Option<Bytes>, before: map<string, Bytes>, newBlobs: map<string, Bytes>, atomic: bool,
    now: map<string, Bytes>)
    requires Servable(p, manifest, before) && Agree(p, newBlobs, before)
    requires atomic || Spares(p, manifest, newBlobs)
    requires CanStopAt(before, newBlobs, atomic, now)
    ensures Servable(p, manifest, now)
  {
    var left, hash :| StopsAt(before, newBlobs, left, hash, atomic, now);
    var written := Written(before, newBlobs, left);
    PartwayIsServable(p, manifest, before, newBlobs, left, written);
    TornIsServable(p, manifest, written, now, hash);
  }

  // The first write may be that of a blob that is being served.
  lemma {:induction false} StopCanHurt(
    p: Primitives, manifest: Option<Bytes>, before: map<string, Bytes>, newBlobs: map<string, Bytes>, hash: string)
    returns (now: map<string, Bytes>)
    requires hash in Served(p, manifest) && hash in newBlobs
    ensures CanStopAt(before, newBlobs, false, now) && !Servable(p, manifest, now)
  {
    var torn := TornBlob(p, manifest, before, hash);
    now := before[hash := torn];
    NothingWritten(before, newBlobs);
    assert StopsAt(before, newBlobs, newBlobs.Keys, hash, false, now);
  }

  // The publisher can tell before it writes: the bundle that is served survives any stop exactly if
  // writes are atomic or no new blob has a name that is being served.
  lemma {:induction false} StopsAreServable(
    p: Primitives, manifest: Option<Bytes>, before: map<string, Bytes>, newBlobs: map<string, Bytes>, atomic: bool)
    requires Servable(p, manifest, before) && Agree(p, newBlobs, before)
    ensures (forall now | CanStopAt(before, newBlobs, atomic, now) :: Servable(p, manifest, now))
      <==> atomic || Spares(p, manifest, newBlobs)
  {
    if atomic || Spares(p, manifest, newBlobs) {
      forall now | CanStopAt(before, newBlobs, atomic, now) ensures Servable(p, manifest, now) {
        StopIsServable(p, manifest, before, newBlobs, atomic, now);
      }
    } else {
      var hash :| hash in newBlobs && hash in Served(p, manifest);
      var now := StopCanHurt(p, manifest, before, newBlobs, hash);
    }
  }
}
