/**
 The bundle cache: an in-memory table over the members directory, with the update order of
 internal/store/store.go. Each disk operation may fail or be the last before a crash, so the
 contracts speak of every point at which Put can stop.
 */
module Store {
  import opened Basics
  import opened Decimal
  import opened Manifests
  import opened Disk
  import opened Recovery
  import Utf8

  datatype PutResult = Stored | AlreadyHeld | WrongMember | Rollback | MissingBlob | DiskError | Crash

  function SeenOf(l: Loaded): nat {
    if l.Present? then l.state.seen else 0
  }

  function VersionOf(l: Loaded): nat {
    if l.Present? then l.state.version else 0
  }

  /* The effect of each operation on one member: the directory before and after, the table entry
     before and after. */

  // Recovery sees what it saw before.
  ghost predicate Kept(c: Codec, id: string, e0: Entries, e1: Entries) {
    Load(c, id, e1) == Load(c, id, e0) && Held(c, id, e1) == Held(c, id, e0)
  }

  // Recovery sees the new bundle.
  ghost predicate Installed(
    c: Codec, id: string, e: Entries, m: Manifest, bytes: Bytes, blobs: map<string, Bytes>, seen: nat) {
    && Load(c, id, e) == Present(MemberState(m.version, bytes, Some(m), Max(seen, m.version)))
    && Held(c, id, e) == Some(NewBundle(m, bytes, blobs))
  }

  ghost predicate HoldsManifest(mem: Option<MemberState>) {
    mem.Some? && mem.value.manifest.Some?
  }

  function MemSeen(mem: Option<MemberState>): nat {
    if mem.Some? then mem.value.seen else 0
  }

  // The new bundle is in place and the mark is either the old one or the new version.
  ghost predicate InstalledOver(
    c: Codec, id: string, e0: Entries, mem0: Option<MemberState>, e1: Entries,
    m: Manifest, bytes: Bytes, blobs: map<string, Bytes>)
  {
    || Installed(c, id, e1, m, bytes, blobs, LoadSeen(e0))
    || (MemSeen(mem0) < m.version && Installed(c, id, e1, m, bytes, blobs, m.version))
  }

  // The current file names the directory that a put of version v writes.
  predicate Names(e: Entries, v: nat) {
    Pointer(e).Some? && Pointer(e).value.0 == VersionName(v)
  }

  // A directory that did not load and names the very version being written loads as the new bundle as
  // soon as that is in place, before the swap.
  ghost predicate Early(
    c: Codec, id: string, e0: Entries, e1: Entries, m: Manifest, bytes: Bytes, blobs: map<string, Bytes>)
  {
    && Load(c, id, e0).Corrupt? && Names(e0, m.version) && Names(e1, m.version)
    && Installed(c, id, e1, m, bytes, blobs, LoadSeen(e0))
  }

  // There is a bundle on disk, under the name the store would give it, that the table does not know of.
  ghost predicate Stray(c: Codec, id: string, e: Entries, mem: Option<MemberState>) {
    && !HoldsManifest(mem)
    && Load(c, id, e).Present? && Load(c, id, e).state.manifest.Some? && Names(e, Load(c, id, e).state.version)
  }

  // The two states in which the store ever leaves the directory of a member.
  ghost predicate Accounted(c: Codec, id: string, e: Entries, mem: Option<MemberState>) {
    Known(c, id, e, mem) || Stray(c, id, e, mem)
  }

  // What a put that stops may make of a stray bundle: nothing that loads, part of it, or the new one.
  ghost predicate StrayBecomes(
    c: Codec, id: string, e0: Entries, e1: Entries, m: Manifest, bytes: Bytes, blobs: map<string, Bytes>)
    requires Held(c, id, e0).Some?
  {
    || Held(c, id, e1).None?
    || TornFrom(Held(c, id, e0).value, Held(c, id, e1).value)
    || Held(c, id, e1) == Some(NewBundle(m, bytes, blobs))
  }

  ghost predicate CommitEffect(
    c: Codec, id: string, m: Manifest, bytes: Bytes, blobs: map<string, Bytes>,
    e0: Entries, mem0: Option<MemberState>, e1: Entries, mem1: Option<MemberState>, r: PutResult)
  {
    && (Known(c, id, e0, mem0) && Clean(c, id, e0) ==> Clean(c, id, e1))
    && match r
       case Stored =>
         && mem1 == Some(MemberState(m.version, bytes, Some(m), Max(MemSeen(mem0), m.version)))
         && InstalledOver(c, id, e0, mem0, e1, m, bytes, blobs)
       case DiskError =>
         && mem1 == mem0
         && (Known(c, id, e0, mem0) ==> Kept(c, id, e0, e1) || Early(c, id, e0, e1, m, bytes, blobs))
         && (Stray(c, id, e0, mem0) ==>
             StrayBecomes(c, id, e0, e1, m, bytes, blobs) && Accounted(c, id, e1, mem0))
       case Crash =>
         && (Known(c, id, e0, mem0) ==>
             Kept(c, id, e0, e1) || InstalledOver(c, id, e0, mem0, e1, m, bytes, blobs))
         && (Stray(c, id, e0, mem0) ==> StrayBecomes(c, id, e0, e1, m, bytes, blobs))
       case _ => false
  }

  // What Put answers before it writes anything.
  function Refusal(id: string, m: Manifest, blobs: map<string, Bytes>, mem: Option<MemberState>): Option<PutResult> {
    var holds := mem.Some? && mem.value.manifest.Some?;
    if id != m.memberId then Some(WrongMember)
    else if holds && m.version < mem.value.version then Some(Rollback)
    else if holds && m.version == mem.value.version then Some(AlreadyHeld)
    else if exists h :: h in Hashes(m) && h !in blobs then Some(MissingBlob)
    else None
  }

  ghost predicate PutEffect(
    c: Codec, id: string, m: Manifest, bytes: Bytes, blobs: map<string, Bytes>,
    e0: Entries, mem0: Option<MemberState>, e1: Entries, mem1: Option<MemberState>, r: PutResult)
  {
    if Refusal(id, m, blobs, mem0).Some? then r == Refusal(id, m, blobs, mem0).value && mem1 == mem0 && e1 == e0
    else CommitEffect(c, id, m, bytes, blobs, e0, mem0, e1, mem1, r)
  }

  // The entry and what recovery would find are the same but for the mark.
  ghost predicate SameHeld(c: Codec, id: string, e: Entries, st: MemberState) {
    var l := Load(c, id, e);
    && st.manifest.Some? && st.manifest.value.version == st.version <= st.seen
    && l.Present? && l.state.(seen := st.seen) == st
  }

  // The table knows of every bundle that recovery would find.
  ghost predicate Known(c: Codec, id: string, e: Entries, mem: Option<MemberState>) {
    if HoldsManifest(mem) then SameHeld(c, id, e, mem.value)
    else Load(c, id, e).Present? ==> Load(c, id, e).state.manifest.None?
  }

  // A missing entry counts as an empty one.
  function StateOf(mem: Option<MemberState>): MemberState {
    if mem.Some? then mem.value else MemberState(0, [], None, 0)
  }

  // The persisted high-water mark is s, and recovery sees no other change.
  ghost predicate SeenIs(c: Codec, id: string, e0: Entries, e1: Entries, s: nat) {
    && LoadSeen(e1) == s
    && (Load(c, id, e1).Corrupt? <==> Load(c, id, e0).Corrupt?)
    && Held(c, id, e1) == Held(c, id, e0)
    && VersionOf(Load(c, id, e1)) == VersionOf(Load(c, id, e0))
    && Pointer(e1) == Pointer(e0)
    && (!Load(c, id, e0).Corrupt? ==> SeenOf(Load(c, id, e1)) == Max(s, VersionOf(Load(c, id, e0))))
  }

  ghost predicate NoteEffect(
    c: Codec, id: string, v: nat,
    e0: Entries, mem0: Option<MemberState>, e1: Entries, mem1: Option<MemberState>, o: Outcome)
  {
    var st := StateOf(mem0);
    && (!o.Crashed? ==> mem1 == Some(st.(seen := Max(st.seen, v))))
    && (SeenIs(c, id, e0, e1, LoadSeen(e0)) || (v > st.seen && SeenIs(c, id, e0, e1, v)))
    && (o.Done? && v > st.seen ==> SeenIs(c, id, e0, e1, v))
    && (Clean(c, id, e0) ==> Clean(c, id, e1))
  }

  // What an attempt to persist the mark v does to the directory.
  ghost predicate MarkWritten(c: Codec, e0: Entries, e1: Entries, v: nat, o: Outcome) {
    && SameExcept(e0, e1, {".seen.tmp", "seen"})
    && (LoadSeen(e1) == LoadSeen(e0) || LoadSeen(e1) == v)
    && (o.Done? ==> LoadSeen(e1) == v)
    && (o.Failed? ==> LoadSeen(e1) == LoadSeen(e0))
    && (Intact(c, e0) ==> Intact(c, e1))
  }

  ghost predicate SeenRaised(c: Codec, e0: Entries, e1: Entries, seen: nat, v: nat, o: Outcome) {
    if seen < v then MarkWritten(c, e0, e1, v, o) else e1 == e0 && o.Done?
  }

  // What the disk side of Put does: recovery sees the old state until it sees the new bundle.
  ghost predicate InstallEffect(
    c: Codec, id: string, m: Manifest, bytes: Bytes, blobs: map<string, Bytes>,
    e0: Entries, mem0: Option<MemberState>, e1: Entries, o: Outcome)
  {
    && (o.Done? ==> Installed(c, id, e1, m, bytes, blobs, LoadSeen(e0)) && LoadSeen(e1) == LoadSeen(e0))
    && (Intact(c, e0) ==> Intact(c, e1))
    && (Known(c, id, e0, mem0) ==>
        && (o.Failed? ==> Kept(c, id, e0, e1) || Early(c, id, e0, e1, m, bytes, blobs))
        && (o.Crashed? ==> Kept(c, id, e0, e1) || Installed(c, id, e1, m, bytes, blobs, LoadSeen(e0)))
        && (Clean(c, id, e0) ==> Clean(c, id, e1)))
    && (Stray(c, id, e0, mem0) && !o.Done? ==>
        && StrayBecomes(c, id, e0, e1, m, bytes, blobs)
        && (o.Failed? ==> Accounted(c, id, e1, mem0)))
  }

  /* Names */

  lemma {:induction false} NamesApart(v: nat)
    ensures TempName(v) !in {"current", "seen", ".current.tmp", ".seen.tmp"}
    ensures VersionName(v) !in {"current", "seen", ".current.tmp", ".seen.tmp"} && VersionName(v) != TempName(v)
  {
  }

  // The version in force is untouched by the preparation of another one.
  lemma {:induction false} PointerApart(e: Entries, v: nat)
    requires Pointer(e).Some? ==> Pointer(e).value.1 != v
    requires v < UINT64_LIMIT
    ensures Irrelevant({TempName(v), VersionName(v), ".current.tmp"}, Pointer(e))
    ensures Irrelevant({".seen.tmp", "seen", ".current.tmp"}, Pointer(e))
  {
    NamesApart(v);
    ReadVersionLine(v);
    if Pointer(e).Some? {
      var (name, w) := Pointer(e).value;
      assert name[0] == 'v' && VersionName(w)[0] == 'v';
      if VersionName(w) == VersionName(v) {
        VersionNameInjective(v, w);
      }
    }
  }

  // A change of the seen file alone shows in nothing but the mark.
  lemma {:induction false} SeenChange(c: Codec, id: string, e: Entries, f: Entries)
    requires SameExcept(e, f, {".seen.tmp", "seen"})
    ensures SeenIs(c, id, e, f, LoadSeen(f))
    ensures Load(c, id, e).Present? && Load(c, id, e).state.manifest.Some? ==>
      Load(c, id, f) == Present(Load(c, id, e).state.(seen := Max(LoadSeen(f), Load(c, id, e).state.version)))
  {
    var names := {".seen.tmp", "seen"};
    if Pointer(e).Some? {
      assert Pointer(e).value.0[0] == 'v' && VersionName(Pointer(e).value.1)[0] == 'v';
    }
    SamePointer(e, f, names);
    if Load(c, id, e).Present? && Load(c, id, e).state.manifest.Some? {
      var name := VersionName(Load(c, id, e).state.version);
      assert forall h :: BlobIn(f, name, h) == BlobIn(e, name, h);
      assert Held(c, id, f).value.blobs == Held(c, id, e).value.blobs;
    }
  }

  // The table entry and the directory tell the same story; only the mark may lag on disk.
  ghost predicate Agrees(c: Codec, id: string, e: Entries, mem: Option<MemberState>) {
    var l := Load(c, id, e);
    && !l.Corrupt?
    && Known(c, id, e, mem)
    && SeenOf(l) <= MemSeen(mem)
    && (mem.None? ==> l.Absent?)
  }

  // The invariant of one member. A directory that did not load counts only once Put has replaced it.
  ghost predicate EntryValid(c: Codec, id: string, e: Entries, mem: Option<MemberState>, skipped: bool, durable: bool) {
    && (HoldsManifest(mem) ==> SameHeld(c, id, e, mem.value))
    && (mem.Some? && mem.value.manifest.None? ==> mem.value.version == 0)
    && (!skipped ==> Agrees(c, id, e, mem) && (durable ==> SeenOf(Load(c, id, e)) == MemSeen(mem)))
  }

  /* Put, phase by phase */

  // What may be under the version's name while it is being prepared: the new directory, or what is
  // left of whatever had the name.
  ghost predicate FinalIs(e0: Entries, e1: Entries, v: nat, bytes: Bytes, blobs: map<string, Bytes>) {
    var name := VersionName(v);
    name in e1 ==> e1[name] == Built(bytes, blobs) || (name in e0 && PartOf(e1[name], e0[name]))
  }

  // Until the pointer is swapped, recovery sees the old state.
  lemma {:induction false} PreparationIsKept(
    c: Codec, id: string, e0: Entries, mem0: Option<MemberState>, e1: Entries, v: nat)
    requires Known(c, id, e0, mem0) && (HoldsManifest(mem0) ==> mem0.value.version != v) && v < UINT64_LIMIT
    requires !Load(c, id, e0).Corrupt?
    requires SameExcept(e0, e1, {TempName(v), VersionName(v), ".current.tmp"})
    ensures Kept(c, id, e0, e1)
  {
    assert Pointer(e0).Some? ==> Pointer(e0).value.1 != v;
    PointerApart(e0, v);
    NamesApart(v);
    LoadIgnores(c, id, e0, e1, {TempName(v), VersionName(v), ".current.tmp"});
  }

  // A state of the directory in which a put of m can stop before the swap.
  ghost predicate Prepared(e0: Entries, e1: Entries, v: nat, bytes: Bytes, blobs: map<string, Bytes>) {
    SameExcept(e0, e1, {TempName(v), VersionName(v), ".current.tmp"}) && FinalIs(e0, e1, v, bytes, blobs)
  }

  // Where the current file names the version being written, only that version can make it load.
  lemma {:induction false} NamedStops(
    c: Codec, id: string, e0: Entries, e1: Entries, m: Manifest, bytes: Bytes, blobs: map<string, Bytes>)
    requires Load(c, id, e0).Corrupt? && Names(e0, m.version)
    requires Prepared(e0, e1, m.version, bytes, blobs) && m.version < UINT64_LIMIT
    requires c.decode(bytes) == Some(m) && m.memberId == id
    ensures Load(c, id, e1).Corrupt? || (Names(e1, m.version) && Installed(c, id, e1, m, bytes, blobs, LoadSeen(e0)))
  {
    var name := VersionName(m.version);
    NamesApart(m.version);
    SameSeen(e0, e1, {TempName(m.version), name, ".current.tmp"});
    ReadVersionLine(m.version);
    assert Pointer(e1) == Pointer(e0);
    if name in e1 && e1[name] == Built(bytes, blobs) {
      LoadNamed(c, id, e1, m, bytes, blobs);
    } else {
      PartKeepsFile(e0, e1, name, "manifest.json");
    }
  }

  // A directory that does not load still does not, or it names the version being written and loads as
  // the new bundle.
  lemma {:induction false} CorruptStays(
    c: Codec, id: string, e0: Entries, e1: Entries, m: Manifest, bytes: Bytes, blobs: map<string, Bytes>)
    requires Load(c, id, e0).Corrupt?
    requires Prepared(e0, e1, m.version, bytes, blobs) && m.version < UINT64_LIMIT
    requires c.decode(bytes) == Some(m) && m.memberId == id
    ensures Kept(c, id, e0, e1) || Early(c, id, e0, e1, m, bytes, blobs)
  {
    if Names(e0, m.version) {
      NamedStops(c, id, e0, e1, m, bytes, blobs);
    } else {
      NamesApart(m.version);
    }
  }

  // The directory as the store leaves it when the new version is in place and the swap has failed.
  function InPlace(e: Entries, v: nat, bytes: Bytes, blobs: map<string, Bytes>): Entries {
    e[VersionName(v) := Built(bytes, blobs)]
  }

  lemma {:induction false} InPlaceLoads(
    c: Codec, id: string, e: Entries, m: Manifest, bytes: Bytes, blobs: map<string, Bytes>)
    requires Names(e, m.version) && m.version < UINT64_LIMIT
    requires c.decode(bytes) == Some(m) && m.memberId == id
    ensures Prepared(e, InPlace(e, m.version, bytes, blobs), m.version, bytes, blobs)
    ensures Names(InPlace(e, m.version, bytes, blobs), m.version)
    ensures Installed(c, id, InPlace(e, m.version, bytes, blobs), m, bytes, blobs, LoadSeen(e))
  {
    var f := InPlace(e, m.version, bytes, blobs);
    NamesApart(m.version);
    ReadVersionLine(m.version);
    SameSeen(e, f, {VersionName(m.version)});
    assert Pointer(f) == Pointer(e);
    LoadNamed(c, id, f, m, bytes, blobs);
  }

  // A put that stops before the swap leaves a directory that did not load as it was, wherever it stops,
  // exactly if the current file there does not name the version being written.
  lemma {:induction false} ErrorKeepsExactly(
    c: Codec, id: string, e0: Entries, m: Manifest, bytes: Bytes, blobs: map<string, Bytes>)
    requires Load(c, id, e0).Corrupt? && m.version < UINT64_LIMIT
    requires c.decode(bytes) == Some(m) && m.memberId == id
    ensures (forall e1 | Prepared(e0, e1, m.version, bytes, blobs) :: Kept(c, id, e0, e1)) <==> !Names(e0, m.version)
  {
    if Names(e0, m.version) {
      InPlaceLoads(c, id, e0, m, bytes, blobs);
      assert !Kept(c, id, e0, InPlace(e0, m.version, bytes, blobs));
    } else {
      forall e1 | Prepared(e0, e1, m.version, bytes, blobs) ensures Kept(c, id, e0, e1) {
        CorruptStays(c, id, e0, e1, m, bytes, blobs);
      }
    }
  }

  // It does happen: a directory of which only the current file is left, a put of the version named
  // there, and a swap that fails.
  function Lost(v: nat): Entries {
    map["current" := File(Line(VersionName(v)))]
  }

  lemma {:induction false} ErrorInstalls(
    c: Codec, id: string, m: Manifest, bytes: Bytes, blobs: map<string, Bytes>)
    requires m.version < UINT64_LIMIT && c.decode(bytes) == Some(m) && m.memberId == id && Covers(m, blobs)
    ensures
      var (e0, e1) := (Lost(m.version), InPlace(Lost(m.version), m.version, bytes, blobs));
      && Load(c, id, e0).Corrupt? && Prepared(e0, e1, m.version, bytes, blobs)
      && PutEffect(c, id, m, bytes, blobs, e0, None, e1, None, DiskError)
      && !Kept(c, id, e0, e1) && Held(c, id, e1) == Some(NewBundle(m, bytes, blobs))
      && !Known(c, id, e1, None) && Stray(c, id, e1, None)
  {
    var e0 := Lost(m.version);
    ReadVersionLine(m.version);
    NamesApart(m.version);
    assert Pointer(e0) == Some((VersionName(m.version), m.version));
    InPlaceLoads(c, id, e0, m, bytes, blobs);
    assert Refusal(id, m, blobs, None).None?;
  }

  lemma {:induction false} PartKeepsFile(e0: Entries, e1: Entries, name: string, file: string)
    requires name in e1 ==> name in e0 && PartOf(e1[name], e0[name])
    ensures FileIn(e1, name, file).Some? ==> FileIn(e1, name, file) == FileIn(e0, name, file)
  {
    if FileIn(e1, name, file).Some? {
      assert PartOf(e1[name].entries[file], e0[name].entries[file]);
    }
  }

  lemma {:induction false} PartKeepsBlob(e0: Entries, e1: Entries, name: string, hash: string)
    requires name in e1 ==> name in e0 && PartOf(e1[name], e0[name])
    ensures BlobIn(e1, name, hash).Some? ==> BlobIn(e1, name, hash) == BlobIn(e0, name, hash)
  {
    if BlobIn(e1, name, hash).Some? {
      var d0, d1 := e0[name].entries, e1[name].entries;
      assert PartOf(d1["blobs"], d0["blobs"]);
      assert PartOf(d1["blobs"].entries[hash], d0["blobs"].entries[hash]);
    }
  }

  // A stray bundle of another version stays. One of the version being written is removed, or part of it
  // is, or it is replaced.
  lemma {:induction false} StrayStops(
    c: Codec, id: string, e0: Entries, mem: Option<MemberState>, e1: Entries,
    m: Manifest, bytes: Bytes, blobs: map<string, Bytes>)
    requires Stray(c, id, e0, mem) && Prepared(e0, e1, m.version, bytes, blobs) && m.version < UINT64_LIMIT
    requires c.decode(bytes) == Some(m) && m.memberId == id
    ensures StrayBecomes(c, id, e0, e1, m, bytes, blobs) && Accounted(c, id, e1, mem)
    ensures Load(c, id, e0).state.version != m.version ==> Kept(c, id, e0, e1)
  {
    var touched := {TempName(m.version), VersionName(m.version), ".current.tmp"};
    var name := VersionName(m.version);
    NamesApart(m.version);
    if Load(c, id, e0).state.version != m.version {
      PointerApart(e0, m.version);
      LoadIgnores(c, id, e0, e1, touched);
    } else {
      ReadVersionLine(m.version);
      assert Pointer(e1) == Pointer(e0);
      if name in e1 && e1[name] == Built(bytes, blobs) {
        LoadNamed(c, id, e1, m, bytes, blobs);
      } else {
        PartIsTorn(c, id, e0, e1, touched, m.version);
      }
    }
  }

  // What is left of the version in force loads as part of the bundle, or not at all.
  lemma {:induction false} PartIsTorn(
    c: Codec, id: string, e0: Entries, e1: Entries, touched: set<string>, v: nat)
    requires Load(c, id, e0).Present? && Load(c, id, e0).state.manifest.Some? && Load(c, id, e0).state.version == v
    requires Names(e0, v) && Pointer(e1) == Pointer(e0)
    requires VersionName(v) in e1 ==> VersionName(v) in e0 && PartOf(e1[VersionName(v)], e0[VersionName(v)])
    requires "current" in e1
    ensures Load(c, id, e1).Corrupt? ||
      (&& Load(c, id, e1).Present? && Load(c, id, e1).state.manifest.Some? && Load(c, id, e1).state.version == v
       && Held(c, id, e1).Some? && TornFrom(Held(c, id, e0).value, Held(c, id, e1).value))
  {
    var name := VersionName(v);
    PartKeepsFile(e0, e1, name, "manifest.json");
    forall h ensures BlobIn(e1, name, h).Some? ==> BlobIn(e1, name, h) == BlobIn(e0, name, h) {
      PartKeepsBlob(e0, e1, name, h);
    }
  }

  lemma {:induction false} StoppedEarly(
    c: Codec, id: string, m: Manifest, bytes: Bytes, blobs: map<string, Bytes>,
    e0: Entries, mem0: Option<MemberState>, e1: Entries, o: Outcome)
    requires HoldsManifest(mem0) ==> mem0.value.version != m.version
    requires Prepared(e0, e1, m.version, bytes, blobs) && m.version < UINT64_LIMIT
    requires c.decode(bytes) == Some(m) && m.memberId == id
    requires !o.Done? && (Intact(c, e0) ==> Intact(c, e1))
    ensures InstallEffect(c, id, m, bytes, blobs, e0, mem0, e1, o)
  {
    if Load(c, id, e0).Corrupt? {
      CorruptStays(c, id, e0, e1, m, bytes, blobs);
    } else if Known(c, id, e0, mem0) {
      PreparationIsKept(c, id, e0, mem0, e1, m.version);
    }
    if Stray(c, id, e0, mem0) {
      StrayStops(c, id, e0, mem0, e1, m, bytes, blobs);
    }
  }

  // Once it is swapped, recovery sees the new bundle whatever becomes of the other entries.
  lemma {:induction false} SwapInstalls(
    c: Codec, id: string, e0: Entries, e1: Entries, e2: Entries,
    m: Manifest, bytes: Bytes, blobs: map<string, Bytes>)
    requires SameExcept(e0, e1, {TempName(m.version), VersionName(m.version)}) && Swapped(e1, e2, m.version)
    requires VersionName(m.version) in e1 && e1[VersionName(m.version)] == Built(bytes, blobs)
    requires c.decode(bytes) == Some(m) && m.memberId == id && m.version < UINT64_LIMIT
    requires Intact(c, e0) ==> Intact(c, e1)
    ensures Installed(c, id, e2, m, bytes, blobs, LoadSeen(e0)) && LoadSeen(e2) == LoadSeen(e0)
    ensures Intact(c, e0) ==> Intact(c, e2)
  {
    NamesApart(m.version);
    SameSeen(e0, e1, {TempName(m.version), VersionName(m.version)});
    SameSeen(e1, e2, {".current.tmp", "current"});
    LoadCommitted(c, id, e2, m, bytes, blobs);
    HiddenNamesStayIntact(c, e1, e2);
  }

  lemma {:induction false} InstalledEffect(
    c: Codec, id: string, m: Manifest, bytes: Bytes, blobs: map<string, Bytes>,
    e0: Entries, mem0: Option<MemberState>, e: Entries, o: Outcome)
    requires Installed(c, id, e, m, bytes, blobs, LoadSeen(e0)) && LoadSeen(e) == LoadSeen(e0) && !o.Failed?
    requires Covers(m, blobs) && forall h | h in blobs :: c.hash(blobs[h]) == h
    requires Intact(c, e0) ==> Intact(c, e)
    ensures InstallEffect(c, id, m, bytes, blobs, e0, mem0, e, o)
  {
    if Intact(c, e0) {
      InstalledIsClean(c, id, e, m, bytes, blobs, LoadSeen(e0));
    }
  }

  // The swap did not finish, but a crash may have come after it.
  lemma {:induction false} SwapStopped(
    c: Codec, id: string, m: Manifest, bytes: Bytes, blobs: map<string, Bytes>,
    e0: Entries, mem0: Option<MemberState>, e1: Entries, e2: Entries, o: Outcome)
    requires HoldsManifest(mem0) ==> mem0.value.version != m.version
    requires SameExcept(e0, e1, {TempName(m.version), VersionName(m.version)})
    requires VersionName(m.version) in e1 && e1[VersionName(m.version)] == Built(bytes, blobs)
    requires c.decode(bytes) == Some(m) && m.memberId == id && m.version < UINT64_LIMIT
    requires Covers(m, blobs) && forall h | h in blobs :: c.hash(blobs[h]) == h
    requires Intact(c, e0) ==> Intact(c, e1)
    requires FinalIs(e0, e1, m.version, bytes, blobs)
    requires !o.Done? && (SameExcept(e1, e2, {".current.tmp"}) || (o.Crashed? && Swapped(e1, e2, m.version)))
    ensures InstallEffect(c, id, m, bytes, blobs, e0, mem0, e2, o)
  {
    if SameExcept(e1, e2, {".current.tmp"}) {
      HiddenNamesStayIntact(c, e1, e2);
      NamesApart(m.version);
      StoppedEarly(c, id, m, bytes, blobs, e0, mem0, e2, o);
    } else {
      SwapInstalls(c, id, e0, e1, e2, m, bytes, blobs);
      InstalledEffect(c, id, m, bytes, blobs, e0, mem0, e2, o);
    }
  }

  lemma {:induction false} PruneKeepsInstalled(
    c: Codec, id: string, e: Entries, f: Entries, names: set<string>,
    m: Manifest, bytes: Bytes, blobs: map<string, Bytes>, seen: nat)
    requires Installed(c, id, e, m, bytes, blobs, seen) && SameExcept(e, f, names) && m.version < UINT64_LIMIT
    requires "current" in e && e["current"] == File(Line(VersionName(m.version)))
    requires VersionName(m.version) !in names && forall n | n in names :: n != "" && n[0] == 'v'
    ensures Installed(c, id, f, m, bytes, blobs, seen) && LoadSeen(f) == LoadSeen(e)
  {
    ReadVersionLine(m.version);
    LoadIgnores(c, id, e, f, names);
    SameSeen(e, f, names);
  }

  lemma {:induction false} SeenKeepsInstalled(
    c: Codec, id: string, e: Entries, f: Entries,
    m: Manifest, bytes: Bytes, blobs: map<string, Bytes>, seen: nat)
    requires Installed(c, id, e, m, bytes, blobs, seen) && SameExcept(e, f, {".seen.tmp", "seen"})
    ensures Installed(c, id, f, m, bytes, blobs, LoadSeen(f))
  {
    SeenChange(c, id, e, f);
  }

  lemma {:induction false} InstalledIsClean(
    c: Codec, id: string, e: Entries, m: Manifest, bytes: Bytes, blobs: map<string, Bytes>, seen: nat)
    requires Installed(c, id, e, m, bytes, blobs, seen) && Intact(c, e)
    requires Covers(m, blobs) && forall h | h in blobs :: c.hash(blobs[h]) == h
    ensures Clean(c, id, e)
  {
    NewBundleComplete(c, m, bytes, blobs);
  }

  lemma {:induction false} StoppedEffect(
    c: Codec, id: string, m: Manifest, bytes: Bytes, blobs: map<string, Bytes>,
    e0: Entries, mem0: Option<MemberState>, e1: Entries, o: Outcome)
    requires !o.Done? && InstallEffect(c, id, m, bytes, blobs, e0, mem0, e1, o)
    ensures CommitEffect(c, id, m, bytes, blobs, e0, mem0, e1, mem0, if o.Crashed? then Crash else DiskError)
  {
  }

  lemma {:induction false} StoredEffect(
    c: Codec, id: string, m: Manifest, bytes: Bytes, blobs: map<string, Bytes>,
    e0: Entries, mem0: Option<MemberState>, e1: Entries, e2: Entries, o: Outcome, skipped: bool, durable: bool)
    requires EntryValid(c, id, e0, mem0, skipped, durable) && (HoldsManifest(mem0) ==> mem0.value.version < m.version)
    requires Covers(m, blobs) && forall h | h in blobs :: c.hash(blobs[h]) == h
    requires InstallEffect(c, id, m, bytes, blobs, e0, mem0, e1, Done)
    requires SeenRaised(c, e1, e2, MemSeen(mem0), m.version, o)
    ensures
      var mem1 := Some(MemberState(m.version, bytes, Some(m), Max(MemSeen(mem0), m.version)));
      && CommitEffect(c, id, m, bytes, blobs, e0, mem0, e2, mem1, if o.Crashed? then Crash else Stored)
      && EntryValid(c, id, e2, mem1, skipped, durable)
  {
    SeenKeepsInstalled(c, id, e1, e2, m, bytes, blobs, LoadSeen(e1));
    StoredIsValid(c, id, e0, mem0, e2, m, bytes, blobs, skipped, durable);
    if Intact(c, e0) {
      InstalledIsClean(c, id, e2, m, bytes, blobs, LoadSeen(e2));
    }
  }

  lemma {:induction false} KeptIsValid(
    c: Codec, id: string, e0: Entries, e1: Entries, mem: Option<MemberState>, skipped: bool, durable: bool)
    requires EntryValid(c, id, e0, mem, skipped, durable)
    ensures (Known(c, id, e0, mem) ==> Kept(c, id, e0, e1) || Load(c, id, e0).Corrupt?)
      ==> EntryValid(c, id, e1, mem, skipped, durable)
  {
  }

  lemma {:induction false} StoredIsValid(
    c: Codec, id: string, e0: Entries, mem0: Option<MemberState>, e1: Entries,
    m: Manifest, bytes: Bytes, blobs: map<string, Bytes>, skipped: bool, durable: bool)
    requires EntryValid(c, id, e0, mem0, skipped, durable)
    requires InstalledOver(c, id, e0, mem0, e1, m, bytes, blobs)
    requires HoldsManifest(mem0) ==> mem0.value.version < m.version
    ensures EntryValid(
      c, id, e1, Some(MemberState(m.version, bytes, Some(m), Max(MemSeen(mem0), m.version))), skipped, durable)
  {
  }

  lemma {:induction false} NotedEffect(
    c: Codec, id: string, v: nat, e0: Entries, mem0: Option<MemberState>, e1: Entries, o: Outcome,
    skipped: bool, durable: bool)
    requires EntryValid(c, id, e0, mem0, skipped, durable)
    requires SeenRaised(c, e0, e1, MemSeen(mem0), v, o)
    ensures
      var st := StateOf(mem0);
      var mem1 := Some(st.(seen := Max(st.seen, v)));
      && NoteEffect(c, id, v, e0, mem0, e1, mem1, o)
      && (!o.Crashed? ==> EntryValid(c, id, e1, mem1, skipped, durable && !o.Failed?))
  {
    SeenChange(c, id, e0, e1);
    SeenChange(c, id, e0, e0);
  }

  lemma {:induction false} MarkDrafted(c: Codec, e0: Entries, e1: Entries, v: nat, o: Outcome)
    requires SameExcept(e0, e1, {".seen.tmp"}) && !o.Done?
    ensures MarkWritten(c, e0, e1, v, o)
  {
    HiddenNamesStayIntact(c, e0, e1);
  }

  lemma {:induction false} MarkSwapped(c: Codec, e0: Entries, e1: Entries, e2: Entries, v: nat, o: Outcome)
    requires e1 == e0[".seen.tmp" := File(Line(FormatNat(v)))] && v < UINT64_LIMIT
    requires (!o.Done? && e2 == e1) || (!o.Failed? && Renamed(e1, e2, ".seen.tmp", "seen"))
    ensures MarkWritten(c, e0, e2, v, o)
  {
    ReadNumberLine(v);
    HiddenNamesStayIntact(c, e0, e2);
  }

  // Seen from outside, a sighting moves the mark and nothing else.
  lemma {:induction false} NotedView(
    c: Codec, id: string, v: nat,
    e0: Entries, mem0: Option<MemberState>, e1: Entries, mem1: Option<MemberState>, o: Outcome)
    requires NoteEffect(c, id, v, e0, mem0, e1, mem1, o)
    ensures Held(c, id, e1) == Held(c, id, e0) && (Load(c, id, e1).Corrupt? <==> Load(c, id, e0).Corrupt?)
    ensures !o.Crashed? ==> StateOf(mem1) == StateOf(mem0).(seen := Max(MemSeen(mem0), v))
    ensures !o.Crashed? && Known(c, id, e0, mem0) ==> Known(c, id, e1, mem1)
    ensures !o.Crashed? && Stray(c, id, e0, mem0) ==> Stray(c, id, e1, mem1)
  {
  }

  // Where the table knows of every bundle on disk, what the store answers is what recovery would
  // find. It does for every member that loaded, and for a directory that still does not load.
  lemma {:induction false} HeldIsKnown(
    c: Codec, id: string, e: Entries, mem: Option<MemberState>, skipped: bool, durable: bool)
    requires EntryValid(c, id, e, mem, skipped, durable)
    ensures !HoldsManifest(mem) ==> StateOf(mem).version == 0
    ensures HoldsManifest(mem) ==> mem.value.manifest.value.version == mem.value.version
    ensures !skipped ==> !Load(c, id, e).Corrupt? && Known(c, id, e, mem)
    ensures HoldsManifest(mem) || Load(c, id, e).Corrupt? ==> Known(c, id, e, mem)
    ensures Known(c, id, e, mem) ==>
      && (Held(c, id, e).Some? <==> HoldsManifest(mem))
      && (Held(c, id, e).Some? ==>
          && Held(c, id, e).value.manifest == mem.value.manifest.value
          && Held(c, id, e).value.bytes == mem.value.bytes
          && Held(c, id, e).value.manifest.version == mem.value.version)
  {
  }

  // Seen from outside, a put that was not refused either installs the bundle or changes nothing. Only
  // over a directory that did not load can an error leave the new bundle behind.
  lemma {:induction false} PutView(
    c: Codec, id: string, m: Manifest, bytes: Bytes, blobs: map<string, Bytes>,
    e0: Entries, mem0: Option<MemberState>, e1: Entries, mem1: Option<MemberState>, r: PutResult)
    requires PutEffect(c, id, m, bytes, blobs, e0, mem0, e1, mem1, r) && Refusal(id, m, blobs, mem0).None?
    ensures r in {Stored, DiskError, Crash}
    ensures r == Stored ==>
      && mem1 == Some(MemberState(m.version, bytes, Some(m), Max(MemSeen(mem0), m.version)))
      && Held(c, id, e1) == Some(NewBundle(m, bytes, blobs))
      && Known(c, id, e1, mem1)
    ensures r == DiskError ==> mem1 == mem0
    ensures Known(c, id, e0, mem0) && !Load(c, id, e0).Corrupt? && r == DiskError ==>
      Held(c, id, e1) == Held(c, id, e0) && Known(c, id, e1, mem1)
    ensures Known(c, id, e0, mem0) && r in {DiskError, Crash} ==>
      Held(c, id, e1) == Held(c, id, e0) || Held(c, id, e1) == Some(NewBundle(m, bytes, blobs))
    ensures Known(c, id, e0, mem0) && r == DiskError && Held(c, id, e1) != Held(c, id, e0) ==>
      Load(c, id, e0).Corrupt? && Names(e0, m.version)
    ensures Stray(c, id, e0, mem0) && r in {DiskError, Crash} ==> StrayBecomes(c, id, e0, e1, m, bytes, blobs)
    ensures Accounted(c, id, e0, mem0) && r in {Stored, DiskError} ==> Accounted(c, id, e1, mem1)
  {
  }

  // The table entry Open makes of a directory.
  function Reopened(c: Codec, id: string, e: Entries): Option<MemberState> {
    if ValidMemberID(id) && Load(c, id, e).Present? then Some(Load(c, id, e).state) else None
  }

  // Open skips what does not load and what cannot be a member.
  predicate Skips(c: Codec, id: string, e: Entries) {
    !ValidMemberID(id) || Load(c, id, e).Corrupt?
  }

  lemma {:induction false} ReopenedAgrees(c: Codec, id: string, e: Entries)
    requires e == map[] || !Skips(c, id, e)
    ensures Agrees(c, id, e, Reopened(c, id, e)) && SeenOf(Load(c, id, e)) == MemSeen(Reopened(c, id, e))
  {
  }

  lemma {:induction false} ReopenedIsValid(c: Codec, id: string, e: Entries, skipped: bool)
    requires e == map[] || skipped == Skips(c, id, e)
    requires forall b :: c.decode(b).Some? ==> 1 <= c.decode(b).value.version
    ensures EntryValid(c, id, e, Reopened(c, id, e), skipped, true)
    ensures ValidMemberID(id) ==> Known(c, id, e, Reopened(c, id, e))
  {
    if !skipped {
      ReopenedAgrees(c, id, e);
    }
  }

  // What an opened store answers, told from the files.
  lemma {:induction false} ReopenedExactly(c: Codec, id: string, e: Entries, bytes: Bytes, m: Manifest)
    ensures
      var mem := Reopened(c, id, e);
      && (HoldsManifest(mem) && mem.value.manifest == Some(m) && mem.value.bytes == bytes <==>
           ValidMemberID(id) && Finds(c, id, e, m.version, bytes, m))
  {
    LoadsExactly(c, id, e);
  }

  lemma {:induction false} ReopenedNumbers(c: Codec, id: string, e: Entries)
    ensures
      var mem := Reopened(c, id, e);
      && (HoldsManifest(mem) ==> mem.value.version == mem.value.manifest.value.version)
      && (!HoldsManifest(mem) ==> StateOf(mem).version == 0)
      && (ValidMemberID(id) && !Load(c, id, e).Corrupt? ==>
           MemSeen(mem) == Max(LoadSeen(e), StateOf(mem).version))
  {
  }

  // The directory while a put of version v is removing what had the version's name: the new version is
  // complete under the temporary name, and some part of the old is left.
  ghost predicate Removing(e0: Entries, e1: Entries, v: nat, bytes: Bytes, blobs: map<string, Bytes>) {
    Shrunk(e0[TempName(v) := Built(bytes, blobs)], e1, VersionName(v))
  }

  lemma {:induction false} RemovingIsPrepared(
    e0: Entries, e1: Entries, v: nat, bytes: Bytes, blobs: map<string, Bytes>)
    requires Removing(e0, e1, v, bytes, blobs)
    ensures Prepared(e0, e1, v, bytes, blobs)
  {
    NamesApart(v);
  }

  // A stop of a put leaves a stray bundle whole, wherever it comes, exactly if the put is of another
  // version.
  lemma {:induction false} StrayIsKeptExactly(
    c: Codec, id: string, e0: Entries, mem: Option<MemberState>, m: Manifest, bytes: Bytes, blobs: map<string, Bytes>)
    requires Stray(c, id, e0, mem) && m.version < UINT64_LIMIT && c.decode(bytes) == Some(m) && m.memberId == id
    ensures (forall e1 | Prepared(e0, e1, m.version, bytes, blobs) :: Kept(c, id, e0, e1))
      <==> Load(c, id, e0).state.version != m.version
  {
    if Load(c, id, e0).state.version == m.version {
      var name := VersionName(m.version);
      NamesApart(m.version);
      var e1 := e0[TempName(m.version) := Built(bytes, blobs)] - {name};
      assert Removing(e0, e1, m.version, bytes, blobs);
      RemovingIsPrepared(e0, e1, m.version, bytes, blobs);
      assert Pointer(e1) == Pointer(e0) && FileIn(e1, name, "manifest.json").None?;
    } else {
      forall e1 | Prepared(e0, e1, m.version, bytes, blobs) ensures Kept(c, id, e0, e1) {
        StrayStops(c, id, e0, mem, e1, m, bytes, blobs);
      }
    }
  }

  // What is left may be the manifest alone. Recovery finds it, and from then on every manifest of that
  // version is taken for held already.
  lemma {:induction false} StrayCanTear(
    c: Codec, id: string, e: Entries, m: Manifest, bytes: Bytes, blobs: map<string, Bytes>)
    returns (f: Entries)
    requires Names(e, m.version) && m.version < UINT64_LIMIT && ValidMemberID(id)
    requires VersionName(m.version) in e && e[VersionName(m.version)] == Built(bytes, blobs)
    requires c.decode(bytes) == Some(m) && m.memberId == id && Hashes(m) != {}
    ensures Stray(c, id, e, None) && Removing(e, f, m.version, bytes, blobs)
    ensures Held(c, id, f).Some? && Held(c, id, f).value == Bundle(bytes, m, map[])
    ensures !Complete(c, Held(c, id, f).value)
    ensures forall m': Manifest, blobs': map<string, Bytes> | m'.memberId == id && m'.version == m.version ::
      Refusal(id, m', blobs', Reopened(c, id, f)) == Some(AlreadyHeld)
  {
    var name, temp := VersionName(m.version), TempName(m.version);
    NamesApart(m.version);
    ReadVersionLine(m.version);
    LoadNamed(c, id, e, m, bytes, blobs);
    var e' := e[temp := Built(bytes, blobs)];
    f := e'[name := Dir(map["manifest.json" := File(bytes)])];
    PartOfSelf(File(bytes));
    assert PartOf(f[name], e'[name]);
    assert Pointer(f) == Pointer(e) && FileIn(f, name, "manifest.json") == Some(bytes);
    var h :| h in Hashes(m);
    assert forall h :: BlobIn(f, name, h).None?;
    assert Held(c, id, f).value.blobs == map[];
  }

  // The table and the skipped directories once the scan has only left to go.
  ghost function Table(c: Codec, dirs: map<string, Entries>, left: set<string>): map<string, MemberState> {
    map id | id in dirs && id !in left && Reopened(c, id, dirs[id]).Some? :: Reopened(c, id, dirs[id]).value
  }

  ghost function SkippedBy(c: Codec, dirs: map<string, Entries>, left: set<string>): set<string> {
    set id | id in dirs && id !in left && Skips(c, id, dirs[id])
  }

  lemma {:induction false} ScanStep(c: Codec, dirs: map<string, Entries>, left: set<string>, id: string)
    requires id in left && left <= dirs.Keys
    ensures
      var found := Reopened(c, id, dirs[id]);
      var table := Table(c, dirs, left);
      Table(c, dirs, left - {id}) == if found.Some? then table[id := found.value] else table
    ensures SkippedBy(c, dirs, left - {id}) == SkippedBy(c, dirs, left) + if Skips(c, id, dirs[id]) then {id} else {}
  {
  }

  class Store {
    const codec: Codec
    const disk: Members
    var members: map<string, MemberState>

    // Directories that Open skipped.
    ghost var skipped: set<string>
    // No write of a seen file has failed since Open.
    ghost var durable: bool

    function Mem(id: string): Option<MemberState>
      reads this
    {
      if id in members then Some(members[id]) else None
    }

    function Version(id: string): nat
      reads this
    {
      if id in members then members[id].version else 0
    }

    function SeenVersion(id: string): nat
      reads this
    {
      if id in members then members[id].seen else 0
    }

    function Manifest(id: string): Option<(Bytes, Manifest)>
      reads this
    {
      if id in members && members[id].manifest.Some?
      then Some((members[id].bytes, members[id].manifest.value)) else None
    }

    ghost predicate MemberValid(id: string)
      reads this, disk
    {
      EntryValid(codec, id, disk.At(id), Mem(id), id in skipped, durable)
    }

    // decode accepts only versions that fit the wire format.
    ghost predicate CodecBounds() {
      forall b :: codec.decode(b).Some? ==> 1 <= codec.decode(b).value.version < UINT64_LIMIT
    }

    ghost predicate Valid()
      reads this, disk
    {
      CodecBounds() && forall id :: MemberValid(id)
    }

    // Nothing but the entry and the directory of id differs from what it was.
    twostate predicate OnlyMember(id: string)
      reads this, disk
    {
      forall j | j != id :: Mem(j) == old(Mem(j)) && disk.At(j) == old(disk.At(j))
    }

    // Scans the directory. What does not load is skipped, and its mark with it.
    constructor Open(disk: Members, codec: Codec)
      requires forall b :: codec.decode(b).Some? ==> 1 <= codec.decode(b).value.version < UINT64_LIMIT
      ensures this.disk == disk && this.codec == codec && durable
      ensures Valid()
      ensures forall id :: Mem(id) == Reopened(codec, id, disk.At(id))
      ensures forall id, bytes, m: Manifest :: Manifest(id) == Some((bytes, m)) <==>
        ValidMemberID(id) && Finds(codec, id, disk.At(id), m.version, bytes, m)
      ensures forall id :: Version(id) == if Manifest(id).Some? then Manifest(id).value.1.version else 0
      ensures forall id | ValidMemberID(id) && id !in skipped ::
        SeenVersion(id) == Max(LoadSeen(disk.At(id)), Version(id))
      ensures forall id | ValidMemberID(id) :: Known(codec, id, disk.At(id), Mem(id))
      ensures forall id :: id in skipped <==> id in disk.dirs && Skips(codec, id, disk.At(id))
    {
      this.disk := disk;
      this.codec := codec;
      members := map[];
      skipped := {};
      durable := true;
      new;
      var left := disk.dirs.Keys;
      while left != {}
        invariant left <= disk.dirs.Keys && durable
        invariant members == Table(codec, disk.dirs, left) && skipped == SkippedBy(codec, disk.dirs, left)
        decreases |left|
      {
        var id :| id in left;
        ScanStep(codec, disk.dirs, left, id);
        left := left - {id};
        if !ValidMemberID(id) {
          skipped := skipped + {id};
        } else {
          var l := Load(codec, id, disk.dirs[id]);
          if l.Corrupt? {
            skipped := skipped + {id};
          } else if l.Present? {
            members := members[id := l.state];
          }
        }
      }
      forall id
        ensures Mem(id) == Reopened(codec, id, disk.At(id)) && MemberValid(id)
        ensures ValidMemberID(id) ==> Known(codec, id, disk.At(id), Mem(id))
      {
        ReopenedIsValid(codec, id, disk.At(id), id in skipped);
      }
      AsOpened();
    }

    lemma {:induction false} AsOpened()
      requires forall id :: Mem(id) == Reopened(codec, id, disk.At(id))
      ensures forall id, bytes, m: Manifest :: Manifest(id) == Some((bytes, m)) <==>
        ValidMemberID(id) && Finds(codec, id, disk.At(id), m.version, bytes, m)
      ensures forall id :: Version(id) == if Manifest(id).Some? then Manifest(id).value.1.version else 0
      ensures forall id | ValidMemberID(id) && !Load(codec, id, disk.At(id)).Corrupt? ::
        SeenVersion(id) == Max(LoadSeen(disk.At(id)), Version(id))
    {
      forall id, bytes, m: Manifest
        ensures Manifest(id) == Some((bytes, m)) <==>
          ValidMemberID(id) && Finds(codec, id, disk.At(id), m.version, bytes, m)
      {
        assert Mem(id) == Reopened(codec, id, disk.At(id));
        ReopenedExactly(codec, id, disk.At(id), bytes, m);
      }
      forall id
        ensures Version(id) == if Manifest(id).Some? then Manifest(id).value.1.version else 0
        ensures ValidMemberID(id) && !Load(codec, id, disk.At(id)).Corrupt? ==>
          SeenVersion(id) == Max(LoadSeen(disk.At(id)), Version(id))
      {
        assert Mem(id) == Reopened(codec, id, disk.At(id));
        ReopenedNumbers(codec, id, disk.At(id));
      }
    }

    // Writes the whole bundle under a temporary name.
    method FillTemp(id: string, tmp: string, bytes: Bytes, blobs: map<string, Bytes>) returns (o: Outcome)
      modifies disk
      ensures disk.OnlyAt(id) && disk.Reported(o)
      ensures SameExcept(old(disk.At(id)), disk.At(id), {tmp})
      ensures o.Done? ==> tmp in disk.At(id) && disk.At(id)[tmp] == Built(bytes, blobs)
    {
      o := disk.RemoveAll(id, tmp);
      if !o.Done? { return; }
      o := disk.MakeBlobDir(id, tmp);
      if !o.Done? { return; }
      var left := blobs.Keys;
      while left != {}
        invariant left <= blobs.Keys
        invariant disk.OnlyAt(id) && SameExcept(old(disk.At(id)), disk.At(id), {tmp})
        invariant disk.mishaps == old(disk.mishaps)
        invariant tmp in disk.At(id) && disk.At(id)[tmp] == PartlyBuilt(blobs, left)
        decreases |left|
      {
        var hash :| hash in left;
        o := disk.WriteBlob(id, tmp, hash, blobs[hash]);
        if !o.Done? { return; }
        OneMoreBlob(blobs, left, hash);
        left := left - {hash};
      }
      o := disk.WriteIn(id, tmp, "manifest.json", bytes);
      if !o.Done? { return; }
      AllBlobs(bytes, blobs);
    }

    // Prepares the version's directory and renames it into place.
    method WriteVersionDir(id: string, v: nat, bytes: Bytes, blobs: map<string, Bytes>) returns (o: Outcome)
      requires forall h | h in blobs :: codec.hash(blobs[h]) == h
      modifies disk
      ensures disk.OnlyAt(id) && disk.Reported(o)
      ensures SameExcept(old(disk.At(id)), disk.At(id), {TempName(v), VersionName(v)})
      ensures FinalIs(old(disk.At(id)), disk.At(id), v, bytes, blobs)
      ensures o.Done? ==> VersionName(v) in disk.At(id) && disk.At(id)[VersionName(v)] == Built(bytes, blobs)
      ensures Intact(codec, old(disk.At(id))) ==> Intact(codec, disk.At(id))
    {
      var tmp, final := TempName(v), VersionName(v);
      ghost var e0 := disk.At(id);
      NamesApart(v);
      if final in e0 { PartOfSelf(e0[final]); }
      o := FillTemp(id, tmp, bytes, blobs);
      ghost var e1 := disk.At(id);
      if Intact(codec, e0) { HiddenStaysIntact(codec, e0, e1, {tmp}); }
      if !o.Done? { return; }
      o := disk.RemoveAll(id, final);
      ghost var e2 := disk.At(id);
      if Intact(codec, e0) { ShrunkStaysIntact(codec, e1, e2, final); }
      if !o.Done? { return; }
      o := disk.Rename(id, tmp, final);
      if Intact(codec, e0) && disk.At(id) != e2 {
        BuiltStaysIntact(codec, e0, disk.At(id), v, bytes, blobs);
      }
    }

    method SwapPointer(id: string, v: nat) returns (o: Outcome)
      modifies disk
      ensures disk.OnlyAt(id) && disk.Reported(o)
      ensures o.Done? ==> Swapped(old(disk.At(id)), disk.At(id), v)
      ensures o.Failed? ==> SameExcept(old(disk.At(id)), disk.At(id), {".current.tmp"})
      ensures o.Crashed? ==>
        SameExcept(old(disk.At(id)), disk.At(id), {".current.tmp"}) || Swapped(old(disk.At(id)), disk.At(id), v)
    {
      o := disk.WriteFile(id, ".current.tmp", Line(VersionName(v)));
      if !o.Done? { return; }
      o := disk.Rename(id, ".current.tmp", "current");
    }

    // Removes superseded version directories, as far as that works.
    method Prune(id: string, v: nat) returns (o: Outcome)
      modifies disk
      ensures disk.OnlyAt(id) && disk.Excused(o)
      ensures SameExcept(old(disk.At(id)), disk.At(id), Superseded(old(disk.At(id)), v)) && !o.Failed?
      ensures disk.mishaps == old(disk.mishaps) ==> disk.At(id) == old(disk.At(id)) - Superseded(old(disk.At(id)), v)
      ensures Intact(codec, old(disk.At(id))) ==> Intact(codec, disk.At(id))
    {
      o := Done;
      var left := disk.At(id).Keys;
      ghost var e0 := disk.At(id);
      PruneStart(codec, e0, v);
      while left != {}
        invariant disk.OnlyAt(id) && old(disk.mishaps) <= disk.mishaps && left <= e0.Keys
        invariant Pruning(codec, e0, disk.At(id), v, left, disk.mishaps == old(disk.mishaps))
        decreases |left|
      {
        var name :| name in left;
        ghost var e, smooth := disk.At(id), disk.mishaps == old(disk.mishaps);
        if name != "" && name[0] == 'v' && name != VersionName(v) && disk.At(id)[name].Dir? {
          o := disk.RemoveAll(id, name);
          if o.Crashed? {
            PruneStep(codec, e0, e, disk.At(id), v, left, name, smooth, false);
            return;
          }
          PruneStep(codec, e0, e, disk.At(id), v, left, name, smooth, disk.mishaps == old(disk.mishaps));
        } else {
          PruneStep(codec, e0, e, e, v, left, name, smooth, smooth);
        }
        left := left - {name};
      }
      PruneEnd(codec, e0, disk.At(id), v, left, disk.mishaps == old(disk.mishaps));
      o := Done;
    }

    method PersistSeen(id: string, v: nat) returns (o: Outcome)
      requires v < UINT64_LIMIT
      modifies disk
      ensures disk.OnlyAt(id) && disk.Reported(o)
      ensures MarkWritten(codec, old(disk.At(id)), disk.At(id), v, o)
    {
      ghost var e0 := disk.At(id);
      o := disk.WriteFile(id, ".seen.tmp", Line(FormatNat(v)));
      ghost var e1 := disk.At(id);
      if !o.Done? {
        MarkDrafted(codec, e0, e1, v, o);
        return;
      }
      o := disk.Rename(id, ".seen.tmp", "seen");
      MarkSwapped(codec, e0, e1, disk.At(id), v, o);
    }

    // Persists the mark v if it is higher than the one there is.
    method RaiseSeen(id: string, seen: nat, v: nat) returns (o: Outcome)
      requires v < UINT64_LIMIT
      modifies disk
      ensures disk.OnlyAt(id) && disk.Reported(o)
      ensures SeenRaised(codec, old(disk.At(id)), disk.At(id), seen, v, o)
    {
      o := Done;
      if seen < v {
        o := PersistSeen(id, v);
      }
    }

    // Stores a verified bundle, or says why not. At every point where it can stop, recovery finds
    // exactly the old bundle or exactly the new one.
    method Put(id: string, bytes: Bytes, m: Manifest, blobs: map<string, Bytes>) returns (r: PutResult)
      requires Valid() && codec.decode(bytes) == Some(m)
      requires forall h | h in blobs :: codec.hash(blobs[h]) == h
      modifies this, disk
      ensures OnlyMember(id) && skipped == old(skipped) && durable == old(durable)
      ensures r == WrongMember <==> id != m.memberId
      ensures r == Rollback <==>
        id == m.memberId && HoldsManifest(old(Mem(id))) && m.version < old(Mem(id)).value.version
      ensures r == AlreadyHeld <==>
        id == m.memberId && HoldsManifest(old(Mem(id))) && m.version == old(Mem(id)).value.version
      ensures r == MissingBlob <==>
        && id == m.memberId && (HoldsManifest(old(Mem(id))) ==> m.version > old(Mem(id)).value.version)
        && exists f :: f in m.files && f.sha256 !in blobs
      ensures r in {WrongMember, Rollback, AlreadyHeld, MissingBlob} ==>
        members == old(members) && disk.dirs == old(disk.dirs)
      ensures r == Stored ==>
        && Manifest(id) == Some((bytes, m)) && Version(id) == m.version
        && SeenVersion(id) == Max(old(SeenVersion(id)), m.version)
      ensures r == DiskError ==> Mem(id) == old(Mem(id))
      ensures PutEffect(codec, id, m, bytes, blobs, old(disk.At(id)), old(Mem(id)), disk.At(id), Mem(id), r)
      ensures old(disk.mishaps) <= disk.mishaps && (disk.mishaps == old(disk.mishaps) ==> r !in {DiskError, Crash})
      ensures disk.mishaps == old(disk.mishaps) && r == Stored ==>
        && AllDone(old(disk.At(id)), disk.At(id), MemSeen(old(Mem(id))), m.version, bytes, blobs)
        && LaidOut(disk.At(id), "v" + FormatNat(m.version), bytes, blobs)
      ensures r != Crash ==> Valid()
    {
      if id != m.memberId {
        return WrongMember;
      }
      var st := Mem(id);
      if st.Some? && st.value.manifest.Some? {
        if m.version < st.value.version {
          return Rollback;
        }
        if m.version == st.value.version {
          return AlreadyHeld;
        }
      }
      for i := 0 to |m.files|
        invariant forall j | 0 <= j < i :: m.files[j].sha256 in blobs
      {
        if m.files[i].sha256 !in blobs {
          assert m.files[i].sha256 in Hashes(m);
          return MissingBlob;
        }
      }
      assert forall j | 0 <= j < |m.files| :: m.files[j].sha256 in blobs;
      r := Commit(id, bytes, m, blobs);
      TidyIsLaidOut(disk.At(id), m.version, bytes, blobs);
    }

    method Commit(id: string, bytes: Bytes, m: Manifest, blobs: map<string, Bytes>) returns (r: PutResult)
      requires Valid() && codec.decode(bytes) == Some(m) && m.memberId == id
      requires Covers(m, blobs) && forall h | h in blobs :: codec.hash(blobs[h]) == h
      requires HoldsManifest(Mem(id)) ==> Mem(id).value.version < m.version
      modifies this, disk
      ensures OnlyMember(id) && skipped == old(skipped) && durable == old(durable)
      ensures CommitEffect(codec, id, m, bytes, blobs, old(disk.At(id)), old(Mem(id)), disk.At(id), Mem(id), r)
      ensures old(disk.mishaps) <= disk.mishaps && (disk.mishaps == old(disk.mishaps) ==> r !in {DiskError, Crash})
      ensures disk.mishaps == old(disk.mishaps) && r == Stored ==>
        AllDone(old(disk.At(id)), disk.At(id), MemSeen(old(Mem(id))), m.version, bytes, blobs)
      ensures r != Crash ==> Valid()
    {
      ghost var e0, mem := disk.At(id), Mem(id);
      assert MemberValid(id);
      var o := Install(id, bytes, m, blobs);
      if o.Done? {
        OthersStay(id);
        r := Settle(id, bytes, m, blobs, e0);
        return;
      }
      StoppedEffect(codec, id, m, bytes, blobs, e0, mem, disk.At(id), o);
      if o.Failed? {
        KeptIsValid(codec, id, e0, disk.At(id), mem, id in skipped, durable);
        OthersStay(id);
      }
      return if o.Crashed? then Crash else DiskError;
    }

    method Remember(id: string, st: MemberState)
      modifies this`members
      ensures Mem(id) == Some(st) && forall j | j != id :: Mem(j) == old(Mem(j))
    {
      members := members[id := st];
    }

    // The table entry and the mark, once the new bundle is on disk.
    method Settle(
      id: string, bytes: Bytes, m: Manifest, blobs: map<string, Bytes>, ghost e0: Entries) returns (r: PutResult)
      requires CodecBounds() && (forall j | j != id :: MemberValid(j)) && m.version < UINT64_LIMIT
      requires InstallEffect(codec, id, m, bytes, blobs, e0, Mem(id), disk.At(id), Done)
      requires EntryValid(codec, id, e0, Mem(id), id in skipped, durable)
      requires Covers(m, blobs) && forall h | h in blobs :: codec.hash(blobs[h]) == h
      requires HoldsManifest(Mem(id)) ==> Mem(id).value.version < m.version
      modifies this, disk
      ensures OnlyMember(id) && skipped == old(skipped) && durable == old(durable)
      ensures CommitEffect(codec, id, m, bytes, blobs, e0, old(Mem(id)), disk.At(id), Mem(id), r)
      ensures old(disk.mishaps) <= disk.mishaps && (disk.mishaps == old(disk.mishaps) ==> r !in {DiskError, Crash})
      ensures disk.mishaps == old(disk.mishaps) && Tidy(old(disk.At(id)), m.version, bytes, blobs) ==>
        AllDone(e0, disk.At(id), MemSeen(old(Mem(id))), m.version, bytes, blobs)
      ensures r != Crash ==> Valid()
    {
      var st := Mem(id);
      var oldSeen := if st.Some? then st.value.seen else 0;
      ghost var e1, skip, sure := disk.At(id), id in skipped, durable;
      Remember(id, MemberState(m.version, bytes, Some(m), Max(oldSeen, m.version)));
      var o := RaiseSeen(id, oldSeen, m.version);
      SettledIsDone(codec, e0, e1, disk.At(id), oldSeen, m.version, o, bytes, blobs);
      StoredEffect(codec, id, m, bytes, blobs, e0, st, e1, disk.At(id), o, skip, sure);
      if o.Crashed? {
        return Crash;
      }
      OthersStay(id);
      return Stored;
    }

    // The disk side of Put, up to the pruning of superseded versions.
    method Install(id: string, bytes: Bytes, m: Manifest, blobs: map<string, Bytes>) returns (o: Outcome)
      requires codec.decode(bytes) == Some(m) && m.memberId == id && m.version < UINT64_LIMIT
      requires Covers(m, blobs) && forall h | h in blobs :: codec.hash(blobs[h]) == h
      requires HoldsManifest(Mem(id)) ==> Mem(id).value.version != m.version
      modifies disk
      ensures disk.OnlyAt(id) && disk.Excused(o)
      ensures InstallEffect(codec, id, m, bytes, blobs, old(disk.At(id)), Mem(id), disk.At(id), o)
      ensures disk.mishaps == old(disk.mishaps) ==> Tidy(disk.At(id), m.version, bytes, blobs)
    {
      ghost var e0, mem := disk.At(id), Mem(id);
      o := WriteVersionDir(id, m.version, bytes, blobs);
      ghost var e1 := disk.At(id);
      if !o.Done? {
        StoppedEarly(codec, id, m, bytes, blobs, e0, mem, e1, o);
        return;
      }
      o := SwapPointer(id, m.version);
      ghost var e2 := disk.At(id);
      if !o.Done? {
        SwapStopped(codec, id, m, bytes, blobs, e0, mem, e1, e2, o);
        return;
      }
      SwapInstalls(codec, id, e0, e1, e2, m, bytes, blobs);
      o := Prune(id, m.version);
      PrunedIsTidy(e1, e2, disk.At(id), m.version, bytes, blobs);
      PruneKeepsInstalled(codec, id, e2, disk.At(id), Superseded(e2, m.version), m, bytes, blobs, LoadSeen(e0));
      InstalledEffect(codec, id, m, bytes, blobs, e0, mem, disk.At(id), o);
    }

    // What concerns other members is untouched.
    twostate lemma {:induction false} OthersStay(id: string)
      requires forall j | j != id :: old(MemberValid(j))
      requires OnlyMember(id) && skipped == old(skipped) && (durable ==> old(durable))
      ensures forall j | j != id :: MemberValid(j)
      ensures CodecBounds() && MemberValid(id) ==> Valid()
    {
      forall j | j != id ensures MemberValid(j) {
        assert old(MemberValid(j));
      }
    }

    // Records that a validly signed manifest of version v exists somewhere.
    method NoteSeen(id: string, v: nat) returns (o: Outcome)
      requires Valid() && v < UINT64_LIMIT
      modifies this, disk
      ensures OnlyMember(id) && skipped == old(skipped) && disk.Reported(o)
      ensures NoteEffect(codec, id, v, old(disk.At(id)), old(Mem(id)), disk.At(id), Mem(id), o)
      ensures !o.Crashed? ==> Valid()
      ensures !o.Failed? ==> durable == old(durable)
    {
      var st := StateOf(Mem(id));
      ghost var e0, mem0, skip, sure := disk.At(id), Mem(id), id in skipped, durable;
      assert MemberValid(id);
      Remember(id, st.(seen := Max(st.seen, v)));
      o := RaiseSeen(id, st.seen, v);
      NotedEffect(codec, id, v, e0, mem0, disk.At(id), o, skip, sure);
      durable := durable && !o.Failed?;
      if !o.Crashed? {
        OthersStay(id);
      }
    }

    // What is held has been seen.
    lemma {:induction false} VersionIsSeen(id: string)
      requires Valid()
      ensures Version(id) <= SeenVersion(id)
    {
      assert MemberValid(id);
    }

    // The file a relay opens for a blob, if the current manifest names it.
    function BlobPath(id: string, hash: string): Option<(string, string)>
      reads this
    {
      if id in members && members[id].manifest.Some?
        && exists f :: f in members[id].manifest.value.files && f.sha256 == hash
      then Some((VersionName(members[id].version), hash))
      else None
    }
  }

  lemma {:induction false} HiddenNamesStayIntact(c: Codec, e: Entries, f: Entries)
    requires SameExcept(e, f, {".current.tmp", "current"}) || SameExcept(e, f, {".seen.tmp", "seen"})
      || SameExcept(e, f, {".current.tmp"})
    ensures Intact(c, e) ==> Intact(c, f)
  {
    if Intact(c, e) {
      if SameExcept(e, f, {".seen.tmp", "seen"}) {
        HiddenStaysIntact(c, e, f, {".seen.tmp", "seen"});
      } else {
        HiddenStaysIntact(c, e, f, {".current.tmp", "current"});
      }
    }
  }

  // The pointer now names v.
  ghost predicate Swapped(e: Entries, f: Entries, v: nat) {
    SameExcept(e, f, {".current.tmp", "current"}) && "current" in f && f["current"] == File(Line(VersionName(v)))
  }

  ghost function Superseded(e: Entries, v: nat): set<string> {
    set n | n in e && n != "" && n[0] == 'v' && n != VersionName(v) && e[n].Dir?
  }

  // The directory as a put without mishaps leaves it: the new version and no other.
  ghost predicate Tidy(e: Entries, v: nat, bytes: Bytes, blobs: map<string, Bytes>) {
    Committed(e, v, bytes, blobs) && Superseded(e, v) == {}
  }

  // The files of the version as they are on disk, and no other version.
  ghost predicate LaidOut(e: Entries, name: string, bytes: Bytes, blobs: map<string, Bytes>) {
    && "current" in e && e["current"] == File(Utf8.Encode(name + "\n"))
    && FileIn(e, name, "manifest.json") == Some(bytes)
    && (forall h :: BlobIn(e, name, h) == if h in blobs then Some(blobs[h]) else None)
    && forall n | n in e && n != "" && n[0] == 'v' && e[n].Dir? :: n == name
  }

  lemma {:induction false} TidyIsLaidOut(e: Entries, v: nat, bytes: Bytes, blobs: map<string, Bytes>)
    ensures Tidy(e, v, bytes, blobs) ==> LaidOut(e, "v" + FormatNat(v), bytes, blobs)
  {
    if Tidy(e, v, bytes, blobs) {
      BuiltBlobs(e, v, bytes, blobs);
      assert forall n | n in e && n != "" && n[0] == 'v' && e[n].Dir? && n != VersionName(v) :: n in Superseded(e, v);
    }
  }

  lemma {:induction false} PrunedIsTidy(
    e1: Entries, e2: Entries, e3: Entries, v: nat, bytes: Bytes, blobs: map<string, Bytes>)
    requires VersionName(v) in e1 && e1[VersionName(v)] == Built(bytes, blobs) && Swapped(e1, e2, v)
    ensures e3 == e2 - Superseded(e2, v) ==> Tidy(e3, v, bytes, blobs)
  {
    NamesApart(v);
  }

  // A put without mishaps leaves the directory tidy, and the mark on disk raised to the version.
  ghost predicate AllDone(e0: Entries, e: Entries, seen: nat, v: nat, bytes: Bytes, blobs: map<string, Bytes>) {
    Tidy(e, v, bytes, blobs) && LoadSeen(e) == if seen < v then v else LoadSeen(e0)
  }

  lemma {:induction false} SettledIsDone(
    c: Codec, e0: Entries, e1: Entries, e2: Entries, seen: nat, v: nat, o: Outcome, bytes: Bytes,
    blobs: map<string, Bytes>)
    requires SeenRaised(c, e1, e2, seen, v, o) && LoadSeen(e1) == LoadSeen(e0)
    ensures Tidy(e1, v, bytes, blobs) && o.Done? ==> AllDone(e0, e2, seen, v, bytes, blobs)
  {
    NamesApart(v);
    if Tidy(e1, v, bytes, blobs) {
      assert Superseded(e2, v) <= Superseded(e1, v);
    }
  }

  // The entries in left have not been looked at.
  ghost predicate Pruning(c: Codec, e0: Entries, e: Entries, v: nat, left: set<string>, smooth: bool) {
    && SameExcept(e0, e, Superseded(e0, v))
    && (forall n | n in left :: n in e && n in e0 && e[n] == e0[n])
    && (Intact(c, e0) ==> Intact(c, e))
    && (smooth ==> e == e0 - (Superseded(e0, v) - left))
  }

  lemma {:induction false} PruneStart(c: Codec, e0: Entries, v: nat)
    ensures Pruning(c, e0, e0, v, e0.Keys, true)
  {
    assert Superseded(e0, v) - e0.Keys == {};
  }

  lemma {:induction false} PruneStep(
    c: Codec, e0: Entries, e: Entries, f: Entries, v: nat, left: set<string>, name: string, smooth: bool, smooth': bool)
    requires Pruning(c, e0, e, v, left, smooth) && name in left && (smooth' ==> smooth)
    requires if name in Superseded(e0, v) then Shrunk(e, f, name) && (smooth' ==> f == e - {name}) else f == e
    ensures Pruning(c, e0, f, v, left - {name}, smooth')
  {
    if name in Superseded(e0, v) {
      if Intact(c, e) {
        ShrunkStaysIntact(c, e, f, name);
      }
      assert Superseded(e0, v) - (left - {name}) == Superseded(e0, v) - left + {name};
    } else {
      assert Superseded(e0, v) - (left - {name}) == Superseded(e0, v) - left;
    }
  }

  lemma {:induction false} PruneEnd(c: Codec, e0: Entries, e: Entries, v: nat, left: set<string>, smooth: bool)
    requires Pruning(c, e0, e, v, left, smooth)
    ensures SameExcept(e0, e, Superseded(e0, v)) && (Intact(c, e0) ==> Intact(c, e))
    ensures smooth && left == {} ==> e == e0 - Superseded(e0, v)
  {
    assert left == {} ==> Superseded(e0, v) - left == Superseded(e0, v);
  }

  // The temporary directory while the blobs in left are still to be written.
  function PartlyBuilt(blobs: map<string, Bytes>, left: set<string>): Node {
    Dir(map["blobs" := Dir(map h | h in blobs && h !in left :: File(blobs[h]))])
  }

  lemma {:induction false} OneMoreBlob(blobs: map<string, Bytes>, left: set<string>, hash: string)
    requires hash in left && left <= blobs.Keys
    ensures
      var d := PartlyBuilt(blobs, left).entries;
      Dir(d["blobs" := Dir(d["blobs"].entries[hash := File(blobs[hash])])]) == PartlyBuilt(blobs, left - {hash})
  {
    var before, after := PartlyBuilt(blobs, left).entries["blobs"], PartlyBuilt(blobs, left - {hash}).entries["blobs"];
    assert after.entries == before.entries[hash := File(blobs[hash])];
    assert map["blobs" := before]["blobs" := after] == map["blobs" := after];
  }

  lemma {:induction false} AllBlobs(bytes: Bytes, blobs: map<string, Bytes>)
    ensures Dir(PartlyBuilt(blobs, {}).entries["manifest.json" := File(bytes)]) == Built(bytes, blobs)
  {
    var none: set<string> := {};
    assert (map h | h in blobs && h !in none :: File(blobs[h])) == map h | h in blobs :: File(blobs[h]);
  }
}
