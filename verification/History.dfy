/**
 Whole lives of a store: any sequence of puts, sightings, crashes and reopenings. The steps are the
 effects that the store's methods guarantee.
 */
module History {
  import opened Basics
  import opened Decimal
  import opened Manifests
  import opened Disk
  import opened Recovery
  import opened Store

  // One member's directory, its table entry, and whether a store is running at all.
  datatype Moment = Moment(e: Entries, mem: Option<MemberState>, up: bool)

  ghost predicate PutStep(
    c: Codec, id: string, s: Moment, t: Moment, m: Manifest, bytes: Bytes, blobs: map<string, Bytes>, r: PutResult) {
    && s.up && c.decode(bytes) == Some(m) && 1 <= m.version < UINT64_LIMIT
    && (forall h | h in blobs :: c.hash(blobs[h]) == h)
    && PutEffect(c, id, m, bytes, blobs, s.e, s.mem, t.e, t.mem, r)
    && t.up == (r != Crash)
  }

  // A sighting whose write of the seen file did not fail.
  ghost predicate NoteStep(c: Codec, id: string, s: Moment, t: Moment, v: nat, o: Outcome) {
    s.up && v < UINT64_LIMIT && !o.Failed? && NoteEffect(c, id, v, s.e, s.mem, t.e, t.mem, o) && t.up == !o.Crashed?
  }

  // Stopping at any time and opening again.
  ghost predicate ReopenStep(c: Codec, id: string, s: Moment, t: Moment) {
    t == Moment(s.e, Reopened(c, id, s.e), true)
  }

  ghost predicate Step(c: Codec, id: string, s: Moment, t: Moment) {
    || (exists m, bytes, blobs, r :: PutStep(c, id, s, t, m, bytes, blobs, r))
    || (exists v, o :: NoteStep(c, id, s, t, v, o))
    || ReopenStep(c, id, s, t)
  }

  // What Version and SeenVersion answer, or would answer after reopening.
  function Version(c: Codec, id: string, s: Moment): nat {
    if !s.up then VersionOf(Load(c, id, s.e)) else if s.mem.Some? then s.mem.value.version else 0
  }

  function SeenVersion(c: Codec, id: string, s: Moment): nat {
    if !s.up then SeenOf(Load(c, id, s.e)) else MemSeen(s.mem)
  }

  ghost predicate Sound(c: Codec, id: string, s: Moment) {
    && ValidMemberID(id)
    && Clean(c, id, s.e)
    && (s.up ==> EntryValid(c, id, s.e, s.mem, false, true))
  }

  // Neither number is lower, and with the same version the bundle is the same.
  ghost predicate Follows(c: Codec, id: string, s: Moment, t: Moment) {
    && Version(c, id, s) <= Version(c, id, t) && SeenVersion(c, id, s) <= SeenVersion(c, id, t)
    && (Version(c, id, s) == Version(c, id, t) ==> Held(c, id, t.e) == Held(c, id, s.e))
  }

  lemma {:induction false} PutKeeps(
    c: Codec, id: string, s: Moment, t: Moment, m: Manifest, bytes: Bytes, blobs: map<string, Bytes>, r: PutResult)
    requires Sound(c, id, s) && PutStep(c, id, s, t, m, bytes, blobs, r)
    ensures Sound(c, id, t)
    ensures Follows(c, id, s, t)
  {
    if Refusal(id, m, blobs, s.mem).None? {
      match r
      case Stored => StoredIsValid(c, id, s.e, s.mem, t.e, m, bytes, blobs, false, true);
      case DiskError => KeptIsValid(c, id, s.e, t.e, s.mem, false, true);
      case _ =>
    }
  }

  lemma {:induction false} NoteKeeps(c: Codec, id: string, s: Moment, t: Moment, v: nat, o: Outcome)
    requires Sound(c, id, s) && NoteStep(c, id, s, t, v, o)
    ensures Sound(c, id, t)
    ensures Follows(c, id, s, t)
  {
  }

  lemma {:induction false} ReopenKeeps(c: Codec, id: string, s: Moment, t: Moment)
    requires Sound(c, id, s) && ReopenStep(c, id, s, t)
    ensures Sound(c, id, t)
    ensures Follows(c, id, s, t)
  {
    ReopenedAgrees(c, id, s.e);
  }

  // Every step keeps the store sound, neither number ever goes down, and while the version stays so
  // do the envelope and the blobs.
  lemma {:induction false} StepKeeps(c: Codec, id: string, s: Moment, t: Moment)
    requires Sound(c, id, s) && Step(c, id, s, t)
    ensures Sound(c, id, t)
    ensures Follows(c, id, s, t)
  {
    if m, bytes, blobs, r :| PutStep(c, id, s, t, m, bytes, blobs, r) {
      PutKeeps(c, id, s, t, m, bytes, blobs, r);
    } else if v, o :| NoteStep(c, id, s, t, v, o) {
      NoteKeeps(c, id, s, t, v, o);
    } else {
      ReopenKeeps(c, id, s, t);
    }
  }

  ghost predicate Life(c: Codec, id: string, life: seq<Moment>) {
    && |life| > 0 && Sound(c, id, life[0])
    && forall i | 0 <= i < |life| - 1 :: Step(c, id, life[i], life[i + 1])
  }

  // Over any life, what was once answered is a lower bound for everything answered later, no
  // bundle is ever incomplete, nothing is held that was not also seen, and while the version stays so
  // do the envelope and the blobs.
  lemma {:induction false} DurableMonotonicity(c: Codec, id: string, life: seq<Moment>, i: nat, j: nat)
    requires Life(c, id, life) && i <= j < |life|
    ensures Version(c, id, life[i]) <= Version(c, id, life[j])
    ensures SeenVersion(c, id, life[i]) <= SeenVersion(c, id, life[j])
    ensures Version(c, id, life[j]) <= SeenVersion(c, id, life[j])
    ensures Version(c, id, life[i]) == Version(c, id, life[j]) ==> Held(c, id, life[j].e) == Held(c, id, life[i].e)
    ensures Sound(c, id, life[j])
  {
    var step := (s, t) => Step(c, id, s, t);
    var good := s => Sound(c, id, s);
    var related := (s, t) => Follows(c, id, s, t);
    forall s, t | good(s) && step(s, t) ensures good(t) && related(s, t) {
      StepKeeps(c, id, s, t);
    }
    assert forall k | 0 <= k < |life| - 1 :: step(life[k], life[k + 1]);
    Along(step, good, related, life, i, j);
    SeenBoundsVersion(c, id, life[j]);
  }

  lemma {:induction false} SeenBoundsVersion(c: Codec, id: string, s: Moment)
    requires Sound(c, id, s)
    ensures Version(c, id, s) <= SeenVersion(c, id, s)
  {
  }

  // What a sound state answers is what its directory says.
  lemma {:induction false} SoundShows(c: Codec, id: string, s: Moment)
    requires Sound(c, id, s)
    ensures Version(c, id, s) == VersionOf(Load(c, id, s.e)) && SeenVersion(c, id, s) == SeenOf(Load(c, id, s.e))
    ensures s.up ==> (Held(c, id, s.e).Some? <==> HoldsManifest(s.mem)) && Known(c, id, s.e, s.mem)
  {
  }

  lemma {:induction false} InstalledShows(
    c: Codec, id: string, s: Moment, t: Moment, m: Manifest, bytes: Bytes, blobs: map<string, Bytes>)
    requires Sound(c, id, s) && s.up && InstalledOver(c, id, s.e, s.mem, t.e, m, bytes, blobs)
    requires Refusal(id, m, blobs, s.mem).None?
    ensures Held(c, id, t.e) == Some(NewBundle(m, bytes, blobs)) && VersionOf(Load(c, id, t.e)) == m.version
    ensures SeenOf(Load(c, id, t.e)) == Max(SeenVersion(c, id, s), m.version)
  {
  }

  // A put that is cut short anywhere leaves, after reopening, exactly the old state or exactly the
  // state of a put that finished, and in both every blob is there and matches its hash.
  lemma {:induction false} CrashSafety(
    c: Codec, id: string, s: Moment, t: Moment, u: Moment, m: Manifest, bytes: Bytes, blobs: map<string, Bytes>)
    requires Sound(c, id, s) && PutStep(c, id, s, t, m, bytes, blobs, Crash) && ReopenStep(c, id, t, u)
    ensures
      || (&& Held(c, id, u.e) == Held(c, id, s.e)
          && Version(c, id, u) == Version(c, id, s)
          && SeenVersion(c, id, u) == SeenVersion(c, id, s))
      || (&& Held(c, id, u.e) == Some(NewBundle(m, bytes, blobs))
          && Version(c, id, u) == m.version
          && SeenVersion(c, id, u) == Max(SeenVersion(c, id, s), m.version))
    ensures Held(c, id, u.e).Some? ==> Complete(c, Held(c, id, u.e).value)
    ensures Held(c, id, u.e).Some? <==> HoldsManifest(u.mem)
  {
    PutKeeps(c, id, s, t, m, bytes, blobs, Crash);
    ReopenKeeps(c, id, t, u);
    SoundShows(c, id, s);
    SoundShows(c, id, u);
    assert Refusal(id, m, blobs, s.mem).None?;
    if !Kept(c, id, s.e, t.e) {
      InstalledShows(c, id, s, t, m, bytes, blobs);
    }
  }

  // Rollback is judged against the held version. A put of a version below the mark succeeds when
  // nothing as new is held, so what is then served is the newest version seen exactly when the
  // offer was at least as new as the mark.
  lemma {:induction false} ServedBelowSeen(
    c: Codec, id: string, s: Moment, t: Moment, m: Manifest, bytes: Bytes, blobs: map<string, Bytes>)
    requires Sound(c, id, s) && PutStep(c, id, s, t, m, bytes, blobs, Stored)
    ensures Version(c, id, t) == SeenVersion(c, id, t) <==> m.version >= SeenVersion(c, id, s)
  {
  }

  // A member directory with nothing but a mark, and the same with a bundle installed.
  function MarkOnly(seen: nat): Moment {
    Moment(map["seen" := File(Line(FormatNat(seen)))], Some(MemberState(0, [], None, seen)), true)
  }

  function InstalledBelow(seen: nat, m: Manifest, bytes: Bytes, blobs: map<string, Bytes>): Moment {
    Moment(
      map[
        "seen" := File(Line(FormatNat(seen))),
        "current" := File(Line(VersionName(m.version))),
        VersionName(m.version) := Built(bytes, blobs)],
      Some(MemberState(m.version, bytes, Some(m), seen)), true)
  }

  lemma {:induction false} BareMark(c: Codec, id: string, seen: nat)
    requires ValidMemberID(id) && 0 < seen < UINT64_LIMIT
    ensures Sound(c, id, MarkOnly(seen)) && SeenVersion(c, id, MarkOnly(seen)) == seen
    ensures LoadSeen(MarkOnly(seen).e) == seen
  {
    ReadNumberLine(seen);
  }

  lemma {:induction false} InstalledOnMark(
    c: Codec, id: string, m: Manifest, bytes: Bytes, blobs: map<string, Bytes>, seen: nat)
    requires m.memberId == id && c.decode(bytes) == Some(m) && m.version < seen < UINT64_LIMIT
    requires Covers(m, blobs) && forall h | h in blobs :: c.hash(blobs[h]) == h
    ensures Installed(c, id, InstalledBelow(seen, m, bytes, blobs).e, m, bytes, blobs, seen)
    ensures Clean(c, id, InstalledBelow(seen, m, bytes, blobs).e)
  {
    var e := InstalledBelow(seen, m, bytes, blobs).e;
    ReadNumberLine(seen);
    NamesApart(m.version);
    LoadCommitted(c, id, e, m, bytes, blobs);
    assert Intact(c, e - {VersionName(m.version)});
    BuiltStaysIntact(c, e - {VersionName(m.version)}, e, m.version, bytes, blobs);
    InstalledIsClean(c, id, e, m, bytes, blobs, seen);
  }

  // It does happen: whatever the mark, any older bundle can be stored on top of a bare mark.
  lemma {:induction false} OlderThanSeenIsStored(
    c: Codec, id: string, m: Manifest, bytes: Bytes, blobs: map<string, Bytes>, seen: nat)
    requires ValidMemberID(id) && m.memberId == id && c.decode(bytes) == Some(m)
    requires 1 <= m.version < seen < UINT64_LIMIT
    requires Covers(m, blobs) && forall h | h in blobs :: c.hash(blobs[h]) == h
    ensures
      var (s, t) := (MarkOnly(seen), InstalledBelow(seen, m, bytes, blobs));
      && Sound(c, id, s) && PutStep(c, id, s, t, m, bytes, blobs, Stored) && Sound(c, id, t)
      && SeenVersion(c, id, s) == seen && Version(c, id, t) == m.version < SeenVersion(c, id, t)
  {
    var s, t := MarkOnly(seen), InstalledBelow(seen, m, bytes, blobs);
    BareMark(c, id, seen);
    InstalledOnMark(c, id, m, bytes, blobs, seen);
    assert Refusal(id, m, blobs, s.mem).None?;
    assert CommitEffect(c, id, m, bytes, blobs, s.e, s.mem, t.e, t.mem, Stored);
    PutKeeps(c, id, s, t, m, bytes, blobs, Stored);
  }

  // The store opens over a directory of which only the current file is left, and a put of the version
  // named there fails at the swap.
  lemma {:induction false} LostFails(c: Codec, id: string, m: Manifest, bytes: Bytes, blobs: map<string, Bytes>)
    requires ValidMemberID(id) && m.memberId == id && c.decode(bytes) == Some(m) && 1 <= m.version < UINT64_LIMIT
    requires Covers(m, blobs) && (forall h | h in blobs :: c.hash(blobs[h]) == h)
    ensures
      var (lost, placed) := (Lost(m.version), InPlace(Lost(m.version), m.version, bytes, blobs));
      && ReopenStep(c, id, Moment(lost, None, false), Moment(lost, None, true))
      && PutStep(c, id, Moment(lost, None, true), Moment(placed, None, true), m, bytes, blobs, DiskError)
      && Names(placed, m.version)
  {
    var lost := Lost(m.version);
    ReadVersionLine(m.version);
    assert Names(lost, m.version);
    InPlaceLoads(c, id, lost, m, bytes, blobs);
    ErrorInstalls(c, id, m, bytes, blobs);
  }

  // A put of the version of a stray bundle is cut short while it removes it.
  lemma {:induction false} TornIsCrash(
    c: Codec, id: string, m: Manifest, bytes: Bytes, blobs: map<string, Bytes>, e: Entries, f: Entries)
    requires Stray(c, id, e, None) && Removing(e, f, m.version, bytes, blobs) && 1 <= m.version < UINT64_LIMIT
    requires c.decode(bytes) == Some(m) && m.memberId == id && Covers(m, blobs)
    requires forall h | h in blobs :: c.hash(blobs[h]) == h
    ensures PutStep(c, id, Moment(e, None, true), Moment(f, None, false), m, bytes, blobs, Crash)
  {
    RemovingIsPrepared(e, f, m.version, bytes, blobs);
    StrayStops(c, id, e, None, f, m, bytes, blobs);
    assert Refusal(id, m, blobs, None).None?;
  }

  // From a directory of which only the current file is left: the store opens, a put of the version named
  // there fails at the swap, the next put of it is cut short while it removes what the first one left,
  // and the store opens again. It then holds the manifest without a blob, and takes every later put of
  // that version for done.
  lemma {:induction false} LostCanTear(
    c: Codec, id: string, m: Manifest, bytes: Bytes, blobs: map<string, Bytes>)
    returns (torn: Entries)
    requires ValidMemberID(id) && m.memberId == id && c.decode(bytes) == Some(m) && 1 <= m.version < UINT64_LIMIT
    requires Covers(m, blobs) && (forall h | h in blobs :: c.hash(blobs[h]) == h) && Hashes(m) != {}
    ensures
      var (lost, placed) := (Lost(m.version), InPlace(Lost(m.version), m.version, bytes, blobs));
      && ReopenStep(c, id, Moment(lost, None, false), Moment(lost, None, true))
      && PutStep(c, id, Moment(lost, None, true), Moment(placed, None, true), m, bytes, blobs, DiskError)
      && PutStep(c, id, Moment(placed, None, true), Moment(torn, None, false), m, bytes, blobs, Crash)
      && Removing(placed, torn, m.version, bytes, blobs)
    ensures ReopenStep(c, id, Moment(torn, None, false), Moment(torn, Reopened(c, id, torn), true))
    ensures Held(c, id, torn) == Some(Bundle(bytes, m, map[])) && !Complete(c, Bundle(bytes, m, map[]))
    ensures forall m': Manifest, blobs': map<string, Bytes> | m'.memberId == id && m'.version == m.version ::
      Refusal(id, m', blobs', Reopened(c, id, torn)) == Some(AlreadyHeld)
  {
    var placed := InPlace(Lost(m.version), m.version, bytes, blobs);
    LostFails(c, id, m, bytes, blobs);
    torn := StrayCanTear(c, id, placed, m, bytes, blobs);
    TornIsCrash(c, id, m, bytes, blobs, placed, torn);
  }
}
