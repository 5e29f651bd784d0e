/** The fetcher: one synchronization of one member against every source, over the store. */
module Fetch {
  import opened Basics
  import opened Manifests
  import opened Registries
  import opened Disk
  import opened Recovery
  import opened Store
  import opened Replication

  datatype Source = Origin(url: string) | Agent(holder: string, url: string)

  datatype SyncResult =
    | Updated
    | UpToDate
    | NoRegistry
    | UnknownMember
    | BadKey
    | NoSource
    | BlobUnavailable
    | PutFailed
    | Interrupted

  // Whether the source is asked at all: every other member's agent, if it runs one.
  predicate IsPeer(m: Member, self: string) {
    m.id != self && m.agent != ""
  }

  function Peers(members: seq<Member>, self: string): seq<Source> {
    if members == [] then []
    else
      var m := members[|members| - 1];
      Peers(members[..|members| - 1], self) + if IsPeer(m, self) then [Agent(m.id, m.agent)] else []
  }

  // The member's origin first, then the peers in registry order.
  function Sources(reg: Registry, member: Member, self: string): seq<Source> {
    [Origin(member.origin)] + Peers(reg.members, self)
  }

  // A listed peer is asked, whichever member is synchronized.
  lemma {:induction false} PeerIsSource(members: seq<Member>, m: Member, self: string)
    requires m in members && IsPeer(m, self)
    ensures Agent(m.id, m.agent) in Peers(members, self)
  {
    if m != members[|members| - 1] {
      PeerIsSource(members[..|members| - 1], m, self);
    }
  }

  // The positions in the registry of the members that run an agent other than the fetcher's own.
  function PeerPositions(members: seq<Member>, self: string): (at: seq<nat>)
    ensures |at| == |Peers(members, self)|
  {
    if members == [] then []
    else
      var n := |members| - 1;
      PeerPositions(members[..n], self) + if members[n].id != self && members[n].agent != "" then [n] else []
  }

  // Each such position is there once and in ascending order, and source k is the agent at position k.
  lemma {:induction false} PeersAre(members: seq<Member>, self: string, k: nat)
    requires k < |Peers(members, self)|
    ensures
      var i := PeerPositions(members, self)[k];
      && i < |members| && members[i].id != self && members[i].agent != ""
      && Peers(members, self)[k] == Agent(members[i].id, members[i].agent)
      && forall l | 0 <= l < k :: PeerPositions(members, self)[l] < i
  {
    var n := |members| - 1;
    if k < |Peers(members[..n], self)| {
      PeersAre(members[..n], self, k);
    } else {
      forall l | 0 <= l < k ensures PeerPositions(members[..n], self)[l] < n {
        PeersAre(members[..n], self, l);
      }
    }
  }

  lemma {:induction false} NoPeerIsMissed(members: seq<Member>, self: string, i: nat)
    requires i < |members| && members[i].id != self && members[i].agent != ""
    ensures i in PeerPositions(members, self)
  {
    if i < |members| - 1 {
      NoPeerIsMissed(members[..|members| - 1], self, i);
    }
  }

  lemma {:induction false} PeersListed(members: seq<Member>, self: string, s: Source)
    ensures s in Peers(members, self) <==>
      exists m :: m in members && m.id != self && m.agent != "" && s == Agent(m.id, m.agent)
  {
    if m :| m in members && m.id != self && m.agent != "" && s == Agent(m.id, m.agent) {
      PeerIsSource(members, m, self);
    }
    if s in Peers(members, self) {
      var k :| 0 <= k < |Peers(members, self)| && Peers(members, self)[k] == s;
      PeersAre(members, self, k);
      assert members[PeerPositions(members, self)[k]] in members;
    }
  }

  method SourcesFor(reg: Registry, member: Member, self: string) returns (srcs: seq<Source>)
    ensures srcs == Sources(reg, member, self)
    ensures srcs != [] && srcs[0] == Origin(member.origin)
    ensures forall s :: s in srcs[1..] <==>
      exists m :: m in reg.members && m.id != self && m.agent != "" && s == Agent(m.id, m.agent)
  {
    srcs := [Origin(member.origin)];
    for i := 0 to |reg.members|
      invariant srcs == [Origin(member.origin)] + Peers(reg.members[..i], self)
    {
      var peer := reg.members[i];
      assert reg.members[..i + 1][..i] == reg.members[..i];
      if peer.id == self || peer.agent == "" {
        continue;
      }
      srcs := srcs + [Agent(peer.id, peer.agent)];
    }
    assert reg.members[..|reg.members|] == reg.members;
    forall s
      ensures s in Peers(reg.members, self) <==>
        exists m :: m in reg.members && m.id != self && m.agent != "" && s == Agent(m.id, m.agent)
    {
      PeersListed(reg.members, self, s);
    }
  }

  method OtherIndices(n: nat, skip: nat) returns (out: seq<nat>)
    ensures out == Others(n, skip)
  {
    out := [];
    for i := 0 to n
      invariant out == Others(i, skip)
    {
      if i != skip {
        out := out + [i];
      }
    }
  }

  // The source that won is asked first, then every other one.
  method GetBlob(t: Trust, ans: Answers, k: nat, f: FileEntry, n: nat, preferred: nat) returns (r: Option<Bytes>)
    ensures r == FirstBlob(t, ans, k, f, Order(n, preferred))
    ensures RightAnswer(t, ans, k, f, preferred) ==> r == ans.blob(k, preferred)
    ensures !RightAnswer(t, ans, k, f, preferred) ==>
      && (forall i | 0 <= i < n && RightAnswer(t, ans, k, f, i)
            && (forall j | 0 <= j < i :: !RightAnswer(t, ans, k, f, j)) :: r == ans.blob(k, i))
      && ((forall i | 0 <= i < n :: !RightAnswer(t, ans, k, f, i)) ==> r == None)
  {
    BlobTaken(t, ans, k, f, n, preferred);
    var rest := OtherIndices(n, preferred);
    var order := [preferred] + rest;
    for i := 0 to |order|
      invariant FirstBlob(t, ans, k, f, order) == FirstBlob(t, ans, k, f, order[i..])
    {
      assert order[i..][1..] == order[i + 1..];
      var body := Limited(ans.blob(k, order[i]), MAX_BLOB_BYTES);
      if body.None? {
        continue;
      }
      if t.hash(body.value) != f.sha256 || |body.value| != f.size {
        continue;
      }
      return body;
    }
    return None;
  }

  method GatherBlobs(t: Trust, ans: Answers, files: seq<FileEntry>, n: nat, preferred: nat)
    returns (r: Option<map<string, Bytes>>)
    ensures r == Gather(t, ans, files, 0, n, preferred)
  {
    var blobs: map<string, Bytes> := map[];
    for k := 0 to |files|
      invariant Gather(t, ans, files, 0, n, preferred) == GatherOnto(t, ans, files, k, n, preferred, blobs)
    {
      var blob := GetBlob(t, ans, k, files[k], n, preferred);
      if blob.None? {
        return None;
      }
      blobs := blobs[files[k].sha256 := blob.value];
    }
    return Some(blobs);
  }

  // The manifest of one source, if it answers, verifies, and is for the member.
  method Ask(t: Trust, key: Key, id: string, ans: Answers, i: nat) returns (r: Option<Manifest>)
    ensures r == Offer(t, key, id, ans, i)
  {
    var data := Limited(ans.manifest(i), MAX_MANIFEST_BYTES);
    if data.None? {
      return None;
    }
    var m := t.verify(data.value, key);
    if m.None? || m.value.memberId != id {
      return None;
    }
    return m;
  }

  // What a synchronization starts from: a directory that loads and the table knows of, one that does not
  // load, or one that holds a bundle the table does not know of. The store leaves a member in no other
  // state, and opening a store leads to one of the first two.
  datatype Footing = OnLoaded | OnLost | OnStray | OnNothing

  ghost function FootingAt(c: Codec, id: string, e: Entries, mem: Option<MemberState>): Footing {
    if Load(c, id, e).Corrupt? then OnLost
    else if Known(c, id, e, mem) then OnLoaded
    else if Stray(c, id, e, mem) then OnStray
    else OnNothing
  }

  lemma {:induction false} NotedFooting(
    c: Codec, id: string, v: nat,
    e0: Entries, mem0: Option<MemberState>, e1: Entries, mem1: Option<MemberState>, o: Outcome)
    requires NoteEffect(c, id, v, e0, mem0, e1, mem1, o)
    ensures Pointer(e1) == Pointer(e0) && Held(c, id, e1) == Held(c, id, e0)
    ensures !o.Crashed? ==> StateOf(mem1) == StateOf(mem0).(seen := Max(MemSeen(mem0), v))
    ensures !o.Crashed? && FootingAt(c, id, e0, mem0) != OnNothing ==>
      FootingAt(c, id, e1, mem1) == FootingAt(c, id, e0, mem0)
  {
    NotedView(c, id, v, e0, mem0, e1, mem1, o);
    if !o.Crashed? && Stray(c, id, e0, mem0) {
      assert !Known(c, id, e0, mem0) && !Known(c, id, e1, mem1);
    }
  }

  // Seen from outside, what a put does from each footing.
  lemma {:induction false} PutFooting(
    c: Codec, id: string, m: Manifest, bytes: Bytes, blobs: map<string, Bytes>,
    e0: Entries, mem0: Option<MemberState>, e1: Entries, mem1: Option<MemberState>, p: PutResult,
    skipped: bool, durable: bool)
    requires PutEffect(c, id, m, bytes, blobs, e0, mem0, e1, mem1, p) && Refusal(id, m, blobs, mem0).None?
    requires EntryValid(c, id, e0, mem0, skipped, durable)
    ensures p in {Stored, DiskError, Crash}
    ensures p != Crash ==> MemSeen(mem1) == if p == Stored then Max(MemSeen(mem0), m.version) else MemSeen(mem0)
    ensures p == Stored ==> Held(c, id, e1) == Some(NewBundle(m, bytes, blobs)) && Known(c, id, e1, mem1)
    ensures p in {DiskError, Crash} ==>
      Stopped(
        Held(c, id, e0), Held(c, id, e1), NewBundle(m, bytes, blobs), FootingAt(c, id, e0, mem0),
        if p == Crash then Interrupted else PutFailed)
    ensures p == DiskError && FootingAt(c, id, e0, mem0) == OnLost && Held(c, id, e1).Some? ==> Names(e0, m.version)
    ensures p != Crash && FootingAt(c, id, e0, mem0) != OnNothing ==> FootingAt(c, id, e1, mem1) != OnNothing
  {
    HeldIsKnown(c, id, e0, mem0, skipped, durable);
    PutView(c, id, m, bytes, blobs, e0, mem0, e1, mem1, p);
  }

  // How many of the first n sources have no valid offer.
  function Failures(t: Trust, key: Key, id: string, ans: Answers, n: nat): nat {
    if n == 0 then 0
    else Failures(t, key, id, ans, n - 1) + if Offer(t, key, id, ans, n - 1).None? then 1 else 0
  }

  lemma {:induction false} FailuresShow(t: Trust, key: Key, id: string, ans: Answers, n: nat)
    ensures Failures(t, key, id, ans, n) > 0 <==> exists i :: 0 <= i < n && Offer(t, key, id, ans, i).None?
  {
    if n > 0 {
      FailuresShow(t, key, id, ans, n - 1);
    }
  }

  // The number of sources without a valid offer.
  lemma {:induction false} FailuresCount(t: Trust, key: Key, id: string, ans: Answers, n: nat)
    ensures Failures(t, key, id, ans, n) == |set i: nat | i < n && Offer(t, key, id, ans, i).None?|
  {
    var failed := set i: nat | i < n && Offer(t, key, id, ans, i).None?;
    if n == 0 {
      assert failed == {};
    } else {
      var before := set i: nat | i < n - 1 && Offer(t, key, id, ans, i).None?;
      FailuresCount(t, key, id, ans, n - 1);
      assert failed == before + if Offer(t, key, id, ans, n - 1).None? then {n - 1} else {};
    }
  }

  class Fetcher {
    const store: Store
    const trust: Trust
    const primitives: Primitives
    const self: string

    constructor (store: Store, trust: Trust, primitives: Primitives, self: string)
      ensures this.store == store && this.trust == trust && this.primitives == primitives && this.self == self
    {
      this.store, this.trust, this.primitives, this.self := store, trust, primitives, self;
    }

    // What the store holds of a member and the highest version it knows of.
    ghost function View(id: string): Replica
      reads store, store.disk
    {
      Replica(Held(CodecOf(trust), id, store.disk.At(id)), MemSeen(store.Mem(id)))
    }

    ghost predicate Wired() {
      Sensible(trust) && store.codec == CodecOf(trust)
    }

    twostate predicate OthersUntouched(id: string)
      reads store, store.disk
    {
      store.skipped == old(store.skipped) && store.OnlyMember(id)
    }

    // The table knows of every bundle of the member that is on disk.
    ghost predicate Knows(id: string)
      reads store, store.disk
    {
      Known(CodecOf(trust), id, store.disk.At(id), store.Mem(id))
    }

    ghost function FootingOf(id: string): Footing
      reads store, store.disk
    {
      FootingAt(CodecOf(trust), id, store.disk.At(id), store.Mem(id))
    }

    lemma {:induction false} FootingShows(id: string)
      requires store.Valid() && Wired()
      ensures id !in store.skipped ==> FootingOf(id) == OnLoaded
      ensures FootingOf(id) in {OnLoaded, OnLost} ==> StateOf(store.Mem(id)).version == HeldVersion(View(id))
      ensures FootingOf(id) == OnLost ==> View(id).held.None?
      ensures FootingOf(id) == OnStray ==> StateOf(store.Mem(id)).version == 0 && View(id).held.Some?
    {
      assert store.MemberValid(id);
      HeldIsKnown(store.codec, id, store.disk.At(id), store.Mem(id), id in store.skipped, store.durable);
    }

    // Every disk operation has succeeded.
    twostate predicate Smooth()
      reads store.disk
    {
      store.disk.mishaps == old(store.disk.mishaps)
    }

    // What does not change while manifests are asked for.
    ghost function StandingOf(id: string): Standing
      reads store, store.disk
    {
      Standing(View(id).held, Pointer(store.disk.At(id)), FootingOf(id))
    }

    // Asks one source for its manifest and notes the version.
    method Hear(ghost before: Standing, key: Key, id: string, ans: Answers, i: nat)
      returns (m: Option<Manifest>, crashed: bool)
      requires store.Valid() && Wired() && Steady(before, StandingOf(id))
      modifies store, store.disk
      ensures OthersUntouched(id) && old(store.disk.mishaps) <= store.disk.mishaps && (Smooth() ==> !crashed)
      ensures m == Offer(trust, key, id, ans, i)
      ensures View(id).held == before.held
      ensures !crashed ==>
        && store.Valid()
        && Steady(before, StandingOf(id))
        && StateOf(store.Mem(id)) == Heard(StateOf(old(store.Mem(id))), m)
    {
      crashed := false;
      m := Ask(trust, key, id, ans, i);
      if m.Some? {
        VerifiedVersion(trust, OfferBytes(ans, i), key);
        var o := Note(id, m.value.version);
        crashed := o.Crashed?;
      }
    }

    // Asks every source for its manifest and picks the highest valid one.
    method Poll(ghost before: Standing, key: Key, id: string, ans: Answers, n: nat)
      returns (best: Option<nat>, errors: nat, crashed: bool)
      requires store.Valid() && Wired() && Steady(before, StandingOf(id))
      modifies store, store.disk
      ensures OthersUntouched(id) && old(store.disk.mishaps) <= store.disk.mishaps && (Smooth() ==> !crashed)
      ensures View(id).held == before.held
      ensures !crashed ==>
        && store.Valid()
        && Steady(before, StandingOf(id))
        && best == Best(trust, key, id, ans, n, StateOf(old(store.Mem(id))).version)
        && StateOf(store.Mem(id)) == Marked(trust, key, id, ans, n, old(store.Mem(id)))
        && errors == Failures(trust, key, id, ans, n)
    {
      ghost var mem0 := store.Mem(id);
      var current := store.Version(id);
      var bestVersion := current;
      best, errors, crashed := None, 0, false;
      for i := 0 to n
        invariant store.Valid() && OthersUntouched(id) && old(store.disk.mishaps) <= store.disk.mishaps
        invariant Steady(before, StandingOf(id)) && !crashed
        invariant best == Best(trust, key, id, ans, i, current)
        invariant bestVersion == BestVersion(trust, key, id, ans, best, current)
        invariant StateOf(store.Mem(id)) == Marked(trust, key, id, ans, i, mem0)
        invariant errors == Failures(trust, key, id, ans, i)
      {
        var m;
        m, crashed := Hear(before, key, id, ans, i);
        if crashed {
          return;
        }
        if m.None? {
          errors := errors + 1;
        } else if m.value.version > bestVersion {
          bestVersion, best := m.value.version, Some(i);
        }
      }
    }

    // NoteSeen, in the terms of this module.
    method Note(id: string, v: nat) returns (o: Outcome)
      requires store.Valid() && Wired() && v < UINT64_LIMIT
      modifies store, store.disk
      ensures OthersUntouched(id) && store.disk.Reported(o)
      ensures View(id).held == old(View(id).held)
      ensures !o.Crashed? ==>
        && store.Valid()
        && Steady(old(StandingOf(id)), StandingOf(id))
        && StateOf(store.Mem(id)) == StateOf(old(store.Mem(id))).(seen := Max(MemSeen(old(store.Mem(id))), v))
    {
      ghost var e0, mem0 := store.disk.At(id), store.Mem(id);
      o := store.NoteSeen(id, v);
      NotedFooting(store.codec, id, v, e0, mem0, store.disk.At(id), store.Mem(id), o);
    }

    // Fetches the winner's blobs and stores it.
    method Adopt(ghost before: Standing, key: Key, id: string, ans: Answers, n: nat, best: nat)
      returns (r: SyncResult)
      requires store.Valid() && Wired() && Steady(before, StandingOf(id))
      requires Best(trust, key, id, ans, n, StateOf(store.Mem(id)).version) == Some(best)
      requires MemSeen(store.Mem(id)) >= Offer(trust, key, id, ans, best).value.version
      modifies store, store.disk
      ensures OthersUntouched(id) && old(store.disk.mishaps) <= store.disk.mishaps
      ensures r in {Updated, BlobUnavailable, PutFailed, Interrupted} && (Smooth() ==> r !in {PutFailed, Interrupted})
      ensures r != Interrupted ==> store.Valid() && MemSeen(store.Mem(id)) == MemSeen(old(store.Mem(id)))
      ensures
        var selected := Selected(trust, key, id, n, ans, StateOf(old(store.Mem(id))).version);
        && (r == BlobUnavailable <==> selected.None?)
        && (r == Updated ==> View(id).held == selected && Knows(id))
        && (r == BlobUnavailable ==> View(id).held == before.held)
        && (r in {PutFailed, Interrupted} ==>
            selected.Some? && Stopped(before.held, View(id).held, selected.value, before.footing, r))
        && (r == PutFailed && before.footing == OnLost && View(id).held.Some? ==>
            Naming(before, View(id).held.value.manifest.version))
      ensures r != Interrupted && before.footing != OnNothing ==> FootingOf(id) != OnNothing
    {
      ghost var held := StateOf(store.Mem(id)).version;
      var m := Offer(trust, key, id, ans, best).value;
      var bytes := OfferBytes(ans, best);
      var blobs := GatherBlobs(trust, ans, m.files, n, best);
      if blobs.None? {
        return BlobUnavailable;
      }
      VerifiedVersion(trust, bytes, key);
      BestIsFirstHighest(trust, key, id, ans, n, held);
      GatherIsComplete(trust, ans, m.files, 0, n, best, map[]);
      assert store.MemberValid(id) && Refusal(id, m, blobs.value, store.Mem(id)).None?;
      r := Keep(before, id, bytes, m, blobs.value);
    }

    // Put, in the terms of this module.
    method Keep(ghost before: Standing, id: string, bytes: Bytes, m: Manifest, blobs: map<string, Bytes>)
      returns (r: SyncResult)
      requires store.Valid() && Wired() && Steady(before, StandingOf(id))
      requires trust.decode(bytes) == Some(m) && forall h | h in blobs :: trust.hash(blobs[h]) == h
      requires Refusal(id, m, blobs, store.Mem(id)).None? && m.version <= MemSeen(store.Mem(id))
      modifies store, store.disk
      ensures OthersUntouched(id) && old(store.disk.mishaps) <= store.disk.mishaps
      ensures r in {Updated, PutFailed, Interrupted} && (Smooth() ==> r == Updated)
      ensures r != Interrupted ==> store.Valid() && MemSeen(store.Mem(id)) == MemSeen(old(store.Mem(id)))
      ensures r == Updated ==> View(id).held == Some(NewBundle(m, bytes, blobs)) && Knows(id)
      ensures r != Updated ==> Stopped(before.held, View(id).held, NewBundle(m, bytes, blobs), before.footing, r)
      ensures r == PutFailed && before.footing == OnLost && View(id).held.Some? ==>
        Naming(before, View(id).held.value.manifest.version)
      ensures r != Interrupted && before.footing != OnNothing ==> FootingOf(id) != OnNothing
    {
      ghost var e0, mem0, skip, sure := store.disk.At(id), store.Mem(id), id in store.skipped, store.durable;
      assert store.MemberValid(id);
      var p := store.Put(id, bytes, m, blobs);
      PutFooting(store.codec, id, m, bytes, blobs, e0, mem0, store.disk.At(id), store.Mem(id), p, skip, sure);
      return if p == Crash then Interrupted else if p == Stored then Updated else PutFailed;
    }

    // Brings one member's bundle up to the newest validly signed version that can be reached.
    method SyncMember(reg: Option<Registry>, id: string, ans: Answers) returns (r: SyncResult)
      requires store.Valid() && Wired()
      modifies store, store.disk
      ensures OthersUntouched(id) && (Smooth() ==> r !in {PutFailed, Interrupted})
      ensures r != Interrupted ==> store.Valid()
      ensures r == Updated ==> Knows(id)
      ensures r != Interrupted && old(FootingOf(id)) != OnNothing ==> FootingOf(id) != OnNothing
      ensures r == PutFailed && old(FootingOf(id)) == OnLost && View(id).held.Some? ==>
        Naming(old(StandingOf(id)), View(id).held.value.manifest.version)
      ensures r == NoRegistry <==> reg.None?
      ensures r == UnknownMember <==> reg.Some? && Lookup(reg.value.members, id).None?
      ensures r == BadKey <==>
        reg.Some? && Lookup(reg.value.members, id).Some? && MemberKey(primitives, reg.value, id).None?
      ensures reg.Some? ==> (r == UnknownMember <==> forall m | m in reg.value.members :: m.id != id)
      ensures reg.Some? && DistinctIds(reg.value.members) ==> forall m | m in reg.value.members && m.id == id ::
        r == BadKey <==>
          primitives.decode64(m.publicKey).None? || |primitives.decode64(m.publicKey).value| != 32
      ensures reg.Some? && DistinctIds(reg.value.members) ==>
        forall m, k
          | m in reg.value.members && m.id == id && primitives.decode64(m.publicKey) == Some(k) && |k| == 32 ::
          SyncEffect(
            trust, k, id, |Sources(reg.value, m, self)|, ans, StateOf(old(store.Mem(id))).version,
            old(View(id)), View(id), old(FootingOf(id)), r)
      ensures r in {NoRegistry, UnknownMember, BadKey} ==> View(id) == old(View(id))
      ensures r !in {NoRegistry, UnknownMember, BadKey} ==>
        SyncEffect(
          trust, MemberKey(primitives, reg.value, id).value, id,
          |Sources(reg.value, Lookup(reg.value.members, id).value, self)|, ans,
          StateOf(old(store.Mem(id))).version, old(View(id)), View(id), old(FootingOf(id)), r)
    {
      var target;
      target, r := Target(reg, id);
      if target.None? {
        return;
      }
      var srcs := SourcesFor(reg.value, target.value.0, self);
      r := SyncFrom(target.value.1, id, ans, |srcs|);
    }

    // The member as it is listed and its key, or why there is none.
    method Target(reg: Option<Registry>, id: string) returns (target: Option<(Member, Key)>, err: SyncResult)
      ensures target.None? <==> err in {NoRegistry, UnknownMember, BadKey}
      ensures err == NoRegistry <==> reg.None?
      ensures err == UnknownMember <==> reg.Some? && Lookup(reg.value.members, id).None?
      ensures err == UnknownMember <==> reg.Some? && forall m | m in reg.value.members :: m.id != id
      ensures err == BadKey <==>
        reg.Some? && Lookup(reg.value.members, id).Some? && MemberKey(primitives, reg.value, id).None?
      ensures target.Some? ==>
        && Lookup(reg.value.members, id) == Some(target.value.0)
        && MemberKey(primitives, reg.value, id) == Some(target.value.1)
      ensures reg.Some? && DistinctIds(reg.value.members) ==> forall m | m in reg.value.members && m.id == id ::
        var b := primitives.decode64(m.publicKey);
        target == if b.Some? && |b.value| == 32 then Some((m, b.value)) else None
    {
      err := UpToDate;
      if reg.None? {
        return None, NoRegistry;
      }
      UnknownHasNoKey(primitives, reg.value, id);
      var member := FindMember(reg.value, id);
      if member.None? {
        return None, UnknownMember;
      }
      var key := MemberKey(primitives, reg.value, id);
      OwnKey(primitives, reg.value, id, member.value, key);
      if key.None? {
        return None, BadKey;
      }
      target := Some((member.value, key.value));
    }

    method SyncFrom(key: Key, id: string, ans: Answers, n: nat) returns (r: SyncResult)
      requires store.Valid() && Wired()
      modifies store, store.disk
      ensures OthersUntouched(id) && (Smooth() ==> r !in {PutFailed, Interrupted})
      ensures r != Interrupted ==> store.Valid()
      ensures r == Updated ==> Knows(id)
      ensures r != Interrupted && old(FootingOf(id)) != OnNothing ==> FootingOf(id) != OnNothing
      ensures r !in {NoRegistry, UnknownMember, BadKey}
      ensures SyncEffect(
        trust, key, id, n, ans, StateOf(old(store.Mem(id))).version, old(View(id)), View(id),
        old(FootingOf(id)), r)
      ensures r == PutFailed && old(FootingOf(id)) == OnLost && View(id).held.Some? ==>
        Naming(old(StandingOf(id)), View(id).held.value.manifest.version)
    {
      ghost var mem0, r0, footing := store.Mem(id), View(id), FootingOf(id);
      ghost var held, before := StateOf(mem0).version, StandingOf(id);
      FootingShows(id);
      var best, errors, crashed := Poll(before, key, id, ans, n);
      if crashed {
        return Interrupted;
      }
      if best.None? {
        r := if store.Version(id) == 0 && store.SeenVersion(id) == 0 && errors > 0 then NoSource else UpToDate;
        FailuresShow(trust, key, id, ans, n);
        NothingNewer(trust, key, id, n, ans, held, r0, View(id), footing, r);
        return;
      }
      MarkIsHighest(trust, key, id, ans, n, MemSeen(mem0));
      r := Adopt(before, key, id, ans, n, best.value);
      Adopted(trust, key, id, n, ans, held, r0, View(id), footing, r);
    }
  }

  lemma {:induction false} NothingNewer(
    t: Trust, key: Key, id: string, n: nat, ans: Answers, held: nat, r0: Replica, r1: Replica,
    footing: Footing, r: SyncResult)
    requires Best(t, key, id, ans, n, held).None? && r in {UpToDate, NoSource}
    requires r == NoSource <==> held == 0 && r1.seen == 0 && exists i :: 0 <= i < n && Offer(t, key, id, ans, i).None?
    requires r1.seen == MarkAfter(t, key, id, ans, n, r0.seen) && r1.held == r0.held
    requires Starts(held, r0, footing)
    ensures SyncEffect(t, key, id, n, ans, held, r0, r1, footing, r)
  {
  }

  lemma {:induction false} Adopted(
    t: Trust, key: Key, id: string, n: nat, ans: Answers, held: nat, r0: Replica, r1: Replica,
    footing: Footing, r: SyncResult)
    requires Best(t, key, id, ans, n, held).Some? && r in {Updated, BlobUnavailable, PutFailed, Interrupted}
    requires Selected(t, key, id, n, ans, held).None? <==> r == BlobUnavailable
    requires r == Updated ==> r1.held == Selected(t, key, id, n, ans, held)
    requires r == BlobUnavailable ==> r1.held == r0.held
    requires r != Interrupted ==> r1.seen == MarkAfter(t, key, id, ans, n, r0.seen)
    requires Starts(held, r0, footing)
    requires r in {PutFailed, Interrupted} ==>
      Stopped(r0.held, r1.held, Selected(t, key, id, n, ans, held).value, footing, r)
    ensures SyncEffect(t, key, id, n, ans, held, r0, r1, footing, r)
  {
  }

  // With distinct ids the member found is the one that is listed, and the key is its own.
  lemma {:induction false} OwnKey(p: Primitives, reg: Registry, id: string, member: Member, key: Option<Key>)
    requires Lookup(reg.members, id) == Some(member) && key == MemberKey(p, reg, id)
    ensures DistinctIds(reg.members) ==> forall m | m in reg.members && m.id == id ::
      m == member && (key.None? <==> p.decode64(m.publicKey).None? || |p.decode64(m.publicKey).value| != 32)
    ensures key.Some? ==> p.decode64(member.publicKey) == key && |key.value| == 32
  {
    if DistinctIds(reg.members) {
      ListedKey(p, reg, id);
      forall m | m in reg.members && m.id == id ensures m == member {
        LookupFindsTheOnly(reg.members, m);
      }
    }
  }

  datatype Standing = Standing(held: Option<Bundle>, pointer: Option<(string, nat)>, footing: Footing)

  ghost predicate Steady(before: Standing, after: Standing) {
    && after.held == before.held && after.pointer == before.pointer
    && (before.footing != OnNothing ==> after.footing == before.footing)
  }

  // The current file names the directory that a put of version v writes.
  predicate Naming(s: Standing, v: nat) {
    s.pointer.Some? && s.pointer.value.0 == VersionName(v)
  }

  function Heard(st: MemberState, m: Option<Manifest>): MemberState {
    if m.Some? then st.(seen := Max(st.seen, m.value.version)) else st
  }

  // The entry after the first n sources have been heard.
  function Marked(t: Trust, key: Key, id: string, ans: Answers, n: nat, mem: Option<MemberState>): MemberState {
    StateOf(mem).(seen := MarkAfter(t, key, id, ans, n, MemSeen(mem)))
  }

  lemma {:induction false} VerifiedVersion(t: Trust, d: Bytes, k: Key)
    requires Sensible(t) && t.verify(d, k).Some?
    ensures t.decode(d) == t.verify(d, k) && 1 <= t.verify(d, k).value.version < UINT64_LIMIT
  {
    assert Decodes(t, d, k);
  }

  // The version the table holds is that on disk, unless the bundle on disk is a stray one.
  ghost predicate Starts(held: nat, r0: Replica, footing: Footing) {
    && (footing in {OnLoaded, OnLost} ==> held == HeldVersion(r0))
    && (footing == OnLost ==> r0.held.None?)
    && (footing == OnStray ==> held == 0 && r0.held.Some?)
  }

  // What may be held when the store fails or is interrupted. A member that loaded keeps its bundle when
  // there is an error.
  ghost predicate Stopped(
    held0: Option<Bundle>, held1: Option<Bundle>, selected: Bundle, footing: Footing, r: SyncResult)
  {
    match footing
    case OnLoaded => held1 == held0 || (r == Interrupted && held1 == Some(selected))
    case OnLost => held1.None? || held1 == Some(selected)
    case OnStray =>
      held1.None? || held1 == Some(selected) || (held0.Some? && Recovery.TornFrom(held0.value, held1.value))
    case OnNothing => true
  }

  // What a synchronization does to a replica.
  ghost predicate SyncEffect(
    t: Trust, key: Key, id: string, n: nat, ans: Answers, held: nat, r0: Replica, r1: Replica,
    footing: Footing, r: SyncResult)
  {
    var best := Best(t, key, id, ans, n, held);
    var selected := Selected(t, key, id, n, ans, held);
    && r !in {NoRegistry, UnknownMember, BadKey}
    && (r in {UpToDate, NoSource} ==> best.None?)
    && (r in {UpToDate, NoSource} ==>
        (r == NoSource <==> held == 0 && r1.seen == 0 && exists i :: 0 <= i < n && Offer(t, key, id, ans, i).None?))
    && (r == BlobUnavailable ==> best.Some? && selected.None?)
    && (r in {PutFailed, Updated} ==> selected.Some?)
    && (r == Updated ==> r1.held == selected)
    && (r in {UpToDate, NoSource, BlobUnavailable} ==> r1.held == r0.held)
    && (r != Interrupted ==> r1.seen == MarkAfter(t, key, id, ans, n, r0.seen))
    && Starts(held, r0, footing)
    && (r in {PutFailed, Interrupted} ==>
        r1.held == r0.held || (selected.Some? && Stopped(r0.held, r1.held, selected.value, footing, r)))
  }

  // Unless it starts from a stray bundle, a synchronization that was neither interrupted nor stopped by
  // the disk has the effect of the replication function.
  lemma {:induction false} EffectIsSynced(
    t: Trust, key: Key, id: string, n: nat, ans: Answers, r0: Replica, r1: Replica, footing: Footing, r: SyncResult)
    requires SyncEffect(t, key, id, n, ans, HeldVersion(r0), r0, r1, footing, r) && footing in {OnLoaded, OnLost}
    requires r in {Updated, UpToDate, NoSource, BlobUnavailable} || (r == PutFailed && footing == OnLoaded)
    ensures r1 == Synced(t, key, id, n, ans, r0, r == Updated)
    ensures r != PutFailed ==> r1 == Synced(t, key, id, n, ans, r0, true)
  {
    assert r !in {Updated, PutFailed} ==> Selected(t, key, id, n, ans, HeldVersion(r0)).None?;
  }

  // Selection, as the fetcher promises it: without an error the held version is the highest of the
  // old one and of all valid offers, taken from the first source that has it, and the mark bounds
  // every offer. With an error the bundle stays.
  lemma {:induction false} HighestIsHeld(
    t: Trust, key: Key, id: string, n: nat, ans: Answers, r0: Replica, r1: Replica, footing: Footing, r: SyncResult)
    requires Sensible(t) && footing in {OnLoaded, OnLost}
    requires SyncEffect(t, key, id, n, ans, HeldVersion(r0), r0, r1, footing, r)
    ensures r in {Updated, UpToDate} ==>
      && HeldVersion(r0) <= HeldVersion(r1)
      && (forall i | 0 <= i < n && Offer(t, key, id, ans, i).Some? ::
            Offer(t, key, id, ans, i).value.version <= HeldVersion(r1))
      && (r1.held == r0.held || exists i :: 0 <= i < n && TakenFrom(t, key, id, ans, i, r1))
    ensures r != Interrupted ==>
      && r0.seen <= r1.seen
      && forall i | 0 <= i < n && Offer(t, key, id, ans, i).Some? :: Offer(t, key, id, ans, i).value.version <= r1.seen
    ensures r in {NoSource, BlobUnavailable} || (r == PutFailed && footing == OnLoaded) ==> r1.held == r0.held
  {
    var held := HeldVersion(r0);
    BestIsFirstHighest(t, key, id, ans, n, held);
    MarkIsHighest(t, key, id, ans, n, r0.seen);
    if r == Updated {
      SelectedIsSound(t, key, id, n, ans, held);
      assert TakenFrom(t, key, id, ans, Best(t, key, id, ans, n, held).value, r1);
    }
  }

  // The bundle held is source i's offer, and no source before it offered as new a version.
  ghost predicate TakenFrom(t: Trust, key: Key, id: string, ans: Answers, i: nat, r: Replica) {
    && r.held.Some? && ans.manifest(i) == Some(r.held.value.bytes)
    && Offer(t, key, id, ans, i) == Some(r.held.value.manifest)
    && forall j | 0 <= j < i && Offer(t, key, id, ans, j).Some? ::
      Offer(t, key, id, ans, j).value.version < HeldVersion(r)
  }
}
