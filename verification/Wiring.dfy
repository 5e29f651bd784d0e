/**
 The layers put together: the protocol runs on the wire format's own verification, the fetcher's
 synchronizations are its steps, and what agents hold is what members published.
 */
module Wiring {
  import opened Basics
  import opened Manifests
  import opened Signing
  import opened Recovery
  import opened Replication
  import opened Protocol
  import opened Convergence
  import opened Fetch

  function WireTrust(p: Primitives): Trust {
    Trust(
      (d, k) => if VerifyManifestBytes(p, d, k).Ok? then Some(VerifyManifestBytes(p, d, k).value) else None,
      d => DecodeStored(p, d),
      d => SignedPayload(d),
      p.sha256)
  }

  // All that the layers above assume of verification holds of the wire format.
  lemma {:induction false} WireIsSensible(p: Primitives)
    ensures Sensible(WireTrust(p))
  {
    var t := WireTrust(p);
    forall d, k ensures Decodes(t, d, k) {
      if t.verify(d, k).Some? {
        VerifiedIsStored(p, d, k);
        FilesAreBounded(t.verify(d, k).value.files);
      }
    }
    forall d, k, d', k' ensures SamePayloadSameManifest(t, d, k, d', k') {
      if t.verify(d, k).Some? && t.verify(d', k').Some? && t.payload(d) == t.payload(d') {
        PayloadDeterminesManifest(p, d, d', k, k');
      }
    }
  }

  lemma {:induction false} FilesAreBounded(files: seq<FileEntry>)
    ensures ValidFiles(files) ==> forall f | f in files :: 0 <= f.size <= MAX_BLOB_BYTES
  {
    if ValidFiles(files) {
      forall f | f in files ensures 0 <= f.size <= MAX_BLOB_BYTES {
        var i :| 0 <= i < |files| && files[i] == f;
        assert ValidFile(files[i]);
      }
    }
  }

  // What the fetcher does to a member is a regular step of the protocol, also over a directory that did
  // not load. Over a bundle that the table did not know of it is at most two steps. If it was
  // interrupted, the agent is started again, whatever mark it then reads.
  lemma {:induction false} EffectIsStep(
    t: Trust, w: World, agent: string, id: string, key: Key, n: nat, ans: Answers, held: nat, r1: Replica,
    footing: Footing, r: SyncResult, seen: nat)
    requires key in Listed(w, id) && FeasibleAnswers(t, w.signed, key, ans) && footing != OnNothing
    requires SyncEffect(t, key, id, n, ans, held, ReplicaAt(w, agent, id), r1, footing, r)
    ensures footing in {OnLoaded, OnLost} ==> Protocol.Regular(t, w, After(w, agent, id, r1, r, seen))
    ensures footing == OnStray ==>
      exists mid :: Protocol.Step(t, w, mid) && Protocol.Step(t, mid, After(w, agent, id, r1, r, seen))
  {
    if footing == OnStray {
      StrayIsTwoSteps(t, w, agent, id, key, n, ans, held, r1, r, seen);
    } else {
      KnownIsStep(t, w, agent, id, key, n, ans, r1, footing, r, seen);
    }
  }

  function After(w: World, agent: string, id: string, r1: Replica, r: SyncResult, seen: nat): World {
    w.(replicas := w.replicas[(agent, id) := if r == Interrupted then Replica(r1.held, seen) else r1])
  }

  lemma {:induction false} KnownIsStep(
    t: Trust, w: World, agent: string, id: string, key: Key, n: nat, ans: Answers, r1: Replica,
    footing: Footing, r: SyncResult, seen: nat)
    requires key in Listed(w, id) && FeasibleAnswers(t, w.signed, key, ans) && footing in {OnLoaded, OnLost}
    requires SyncEffect(
      t, key, id, n, ans, HeldVersion(ReplicaAt(w, agent, id)), ReplicaAt(w, agent, id), r1, footing, r)
    ensures Protocol.Regular(t, w, After(w, agent, id, r1, r, seen))
  {
    var r0, w' := ReplicaAt(w, agent, id), After(w, agent, id, r1, r, seen);
    if r in {PutFailed, Interrupted} {
      var mark := if r == Interrupted then seen else r1.seen;
      assert SyncCrash(t, w, w', agent, id, key, n, ans, mark, r1.held != r0.held);
    } else {
      EffectIsSynced(t, key, id, n, ans, r0, r1, footing, r);
      assert Sync(t, w, w', agent, id, key, n, ans, r == Updated);
    }
  }

  // Over a stray bundle the fetcher acts as if nothing were held: the bundle stays, is lost, is torn, or
  // is lost and replaced.
  lemma {:induction false} StrayIsTwoSteps(
    t: Trust, w: World, agent: string, id: string, key: Key, n: nat, ans: Answers, held: nat, r1: Replica,
    r: SyncResult, seen: nat)
    requires key in Listed(w, id) && FeasibleAnswers(t, w.signed, key, ans)
    requires SyncEffect(t, key, id, n, ans, held, ReplicaAt(w, agent, id), r1, OnStray, r)
    ensures exists mid :: Protocol.Step(t, w, mid) && Protocol.Step(t, mid, After(w, agent, id, r1, r, seen))
  {
    var r0, w' := ReplicaAt(w, agent, id), After(w, agent, id, r1, r, seen);
    var mark := if r == Interrupted then seen else r1.seen;
    var lost := w.(replicas := w.replicas - {(agent, id)});
    assert Lose(w, lost, agent, id);
    assert lost.replicas[(agent, id) := Replica(r1.held, mark)] == w'.replicas;
    assert w'.replicas[(agent, id) := Replica(r1.held, mark)] == w'.replicas;
    assert MarkChange(w', w', agent, id, mark);
    if r1.held == r0.held {
      assert MarkChange(w, w', agent, id, mark);
      assert Protocol.Step(t, w, w') && Protocol.Step(t, w', w');
    } else if r1.held.None? {
      assert MarkChange(lost, w', agent, id, mark);
      assert Protocol.Step(t, w, lost) && Protocol.Step(t, lost, w');
    } else if r1.held == Selected(t, key, id, n, ans, 0) {
      assert SyncCrash(t, lost, w', agent, id, key, n, ans, mark, true);
      assert Protocol.Step(t, w, lost) && Protocol.Step(t, lost, w');
    } else {
      assert Tear(w, w', agent, id, r1.held.value, mark);
      assert Protocol.Step(t, w, w') && Protocol.Step(t, w', w');
    }
  }

  // A synchronization on a disk that does not fail is a turn of the convergence theorem.
  lemma {:induction false} EffectIsTurn(
    s: Setting, reps: Replicas, turn: Turn, r1: Replica, footing: Footing, r: SyncResult)
    requires SyncEffect(
      s.t, s.key, s.id, s.sources(turn.agent), turn.ans,
      HeldVersion(At(reps, turn.agent)), At(reps, turn.agent), r1, footing, r)
    requires footing in {OnLoaded, OnLost}
    requires r in {Updated, UpToDate, NoSource, BlobUnavailable}
    ensures AfterTurn(s, reps, turn) == reps[turn.agent := r1]
  {
    EffectIsSynced(s.t, s.key, s.id, s.sources(turn.agent), turn.ans, At(reps, turn.agent), r1, footing, r);
  }

  // The owners of the keys ever listed for the member have signed nothing but published manifests.
  ghost predicate OnlyPublished(p: Primitives, w: World, id: string, published: set<Manifest>) {
    && (forall m | m in published :: ValidManifest(p, m))
    && forall k, msg | k in Listed(w, id) && (k, msg) in w.signed ::
      exists m :: m in published && msg == ManifestBytes(m)
  }

  // What verifies under such a key is published, and its signed bytes are that manifest's.
  lemma {:induction false} PayloadOfPublished(
    p: Primitives, w: World, id: string, published: set<Manifest>, d: Bytes, k: Key)
    requires OnlyPublished(p, w, id, published) && SignedFor(WireTrust(p), w, id, d, k)
    ensures VerifyManifestBytes(p, d, k).value in published
    ensures SignedPayload(d) == Some(ManifestBytes(VerifyManifestBytes(p, d, k).value))
  {
    var m :| m in published && SignedPayload(d) == Some(ManifestBytes(m));
    PayloadIsManifest(p, d, k, m);
  }

  // In every state that can be reached, the manifest of whatever an agent holds is one the member
  // published and every blob it has is what its name says; as long as nothing has been torn, every blob
  // is there.
  lemma {:induction false} HeldIsPublished(
    p: Primitives, run: seq<World>, i: nat, agent: string, id: string, published: set<Manifest>)
    requires Protocol.Run(WireTrust(p), run) && i < |run| && OnlyPublished(p, run[i], id, published)
    requires ReplicaAt(run[i], agent, id).held.Some?
    ensures
      var b := ReplicaAt(run[i], agent, id).held.value;
      && b.manifest in published && b.manifest.memberId == id
      && (forall h | h in b.blobs :: p.sha256(b.blobs[h]) == h)
      && (Protocol.RegularRun(WireTrust(p), run) ==> Complete(CodecOf(WireTrust(p)), b))
  {
    var t, w := WireTrust(p), run[i];
    WireIsSensible(p);
    Authenticity(t, run, i);
    if Protocol.RegularRun(t, run) {
      Completeness(t, run, i);
    }
    var b := w.replicas[(agent, id)].held.value;
    assert GenuineBundle(t, w, id, b);
    var k :| Genuine(t, w, id, b, k);
    PayloadOfPublished(p, w, id, published, b.bytes, k);
  }

  ghost predicate OnePerVersion(published: set<Manifest>, id: string) {
    forall m, m' | m in published && m' in published && m.memberId == id == m'.memberId
      && m.version == m'.version :: m == m'
  }

  // A member that publishes one manifest per version never equivocates, whatever keys it has used.
  lemma {:induction false} OnePerVersionAgrees(p: Primitives, w: World, id: string, published: set<Manifest>)
    requires OnlyPublished(p, w, id, published) && OnePerVersion(published, id)
    ensures NoEquivocation(WireTrust(p), w, id)
  {
    forall d, k, d', k' ensures OneVersionOnePayload(WireTrust(p), w, id, d, k, d', k') {
      PublishedOnce(p, w, id, published, d, k, d', k');
    }
  }

  lemma {:induction false} PublishedOnce(
    p: Primitives, w: World, id: string, published: set<Manifest>, d: Bytes, k: Key, d': Bytes, k': Key)
    requires OnlyPublished(p, w, id, published) && OnePerVersion(published, id)
    ensures OneVersionOnePayload(WireTrust(p), w, id, d, k, d', k')
  {
    if SignedFor(WireTrust(p), w, id, d, k) && SignedFor(WireTrust(p), w, id, d', k') {
      PayloadOfPublished(p, w, id, published, d, k);
      PayloadOfPublished(p, w, id, published, d', k');
    }
  }

  // Nothing else published under the key is as new as the newest manifest: that is all convergence
  // needs to know about the signatures that exist.
  lemma {:induction false} PublishedIsStable(p: Primitives, s: Setting, published: set<Manifest>)
    requires s.t == WireTrust(p) && s.newest in published && s.newest.memberId == s.id && OneSizePerHash(s.newest)
    requires forall m | m in published :: ValidManifest(p, m)
    requires forall msg | (s.key, msg) in s.signed :: exists m :: m in published && msg == ManifestBytes(m)
    requires forall m | m in published && m.memberId == s.id ::
      m.version <= s.newest.version && (m.version == s.newest.version ==> m == s.newest)
    ensures Stable(s)
  {
    WireIsSensible(p);
    FilesAreBounded(s.newest.files);
    forall d | SignedOffer(s, d) ensures s.t.verify(d, s.key).value in published {
      var m :| m in published && SignedPayload(d) == Some(ManifestBytes(m));
      PayloadIsManifest(p, d, s.key, m);
    }
  }
}
