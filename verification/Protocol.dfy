/**
 The wreath as a state machine: any number of agents, sources that answer whatever they like short
 of forging signatures, key rotation, crashes and wiped caches.
 */
module Protocol {
  import opened Basics
  import opened Manifests
  import opened Recovery
  import opened Replication

  // signed holds every message that the owner of a key has signed; listed every key that a registry
  // in force somewhere has listed for a member.
  datatype World = World(
    replicas: map<(string, string), Replica>,
    signed: set<(Key, Bytes)>,
    listed: map<string, set<Key>>)

  const EMPTY := Replica(None, 0)

  function ReplicaAt(w: World, agent: string, id: string): Replica {
    if (agent, id) in w.replicas then w.replicas[(agent, id)] else EMPTY
  }

  function Listed(w: World, id: string): set<Key> {
    if id in w.listed then w.listed[id] else {}
  }

  // Signatures under the member's key cannot be forged: bytes that verify under it carry a payload
  // its owner signed. Replay, withholding and garbage are all allowed.
  ghost predicate Feasible(t: Trust, signed: set<(Key, Bytes)>, k: Key, d: Bytes) {
    t.verify(d, k).Some? ==> t.payload(d).Some? && (k, t.payload(d).value) in signed
  }

  ghost predicate FeasibleAnswers(t: Trust, signed: set<(Key, Bytes)>, k: Key, ans: Answers) {
    forall i | ans.manifest(i).Some? :: Feasible(t, signed, k, ans.manifest(i).value)
  }

  ghost predicate Sign(w: World, w': World, key: Key, msg: Bytes) {
    w' == w.(signed := w.signed + {(key, msg)})
  }

  // A registry that some agent accepts lists a key for a member.
  ghost predicate List(w: World, w': World, id: string, key: Key) {
    w' == w.(listed := w.listed[id := Listed(w, id) + {key}])
  }

  ghost predicate Sync(
    t: Trust, w: World, w': World, agent: string, id: string, key: Key, n: nat, ans: Answers, written: bool) {
    && key in Listed(w, id)
    && FeasibleAnswers(t, w.signed, key, ans)
    && w' == w.(replicas := w.replicas[(agent, id) := Synced(t, key, id, n, ans, ReplicaAt(w, agent, id), written)])
  }

  // A synchronization cut short, and the agent started again: the bundle is the old or the new one.
  ghost predicate SyncCrash(
    t: Trust, w: World, w': World, agent: string, id: string, key: Key, n: nat, ans: Answers, seen: nat,
    installed: bool) {
    && key in Listed(w, id)
    && FeasibleAnswers(t, w.signed, key, ans)
    && var r := ReplicaAt(w, agent, id);
       var selected := Selected(t, key, id, n, ans, HeldVersion(r));
       && (installed ==> selected.Some?)
       && w' == w.(replicas := w.replicas[(agent, id) := Replica(if installed then selected else r.held, seen)])
  }

  // The prober notes a version, or the mark is lost with a seen file.
  ghost predicate MarkChange(w: World, w': World, agent: string, id: string, seen: nat) {
    w' == w.(replicas := w.replicas[(agent, id) := ReplicaAt(w, agent, id).(seen := seen)])
  }

  ghost predicate Wipe(w: World, w': World, agent: string) {
    w' == w.(replicas := map a | a in w.replicas && a.0 != agent :: w.replicas[a])
  }

  // A directory that no longer loads is skipped when the agent is started again.
  ghost predicate Lose(w: World, w': World, agent: string, id: string) {
    w' == w.(replicas := w.replicas - {(agent, id)})
  }

  // What a put over a bundle that the table does not know of can leave when it is cut short.
  ghost predicate Tear(w: World, w': World, agent: string, id: string, torn: Bundle, seen: nat) {
    var r := ReplicaAt(w, agent, id);
    && r.held.Some? && TornFrom(r.held.value, torn)
    && w' == w.(replicas := w.replicas[(agent, id) := Replica(Some(torn), seen)])
  }

  ghost predicate Step(t: Trust, w: World, w': World) {
    Regular(t, w, w') || exists agent, id, torn, seen :: Tear(w, w', agent, id, torn, seen)
  }

  // A step that tears nothing.
  ghost predicate Regular(t: Trust, w: World, w': World) {
    || (exists key, msg :: Sign(w, w', key, msg))
    || (exists id, key :: List(w, w', id, key))
    || (exists agent, id, key, n, ans, written :: Sync(t, w, w', agent, id, key, n, ans, written))
    || (exists agent, id, key, n, ans, seen, installed :: SyncCrash(t, w, w', agent, id, key, n, ans, seen, installed))
    || (exists agent, id, seen :: MarkChange(w, w', agent, id, seen))
    || (exists agent :: Wipe(w, w', agent))
    || (exists agent, id :: Lose(w, w', agent, id))
  }

  /* Authenticity */

  // The bundle verifies under a key that was listed for the member, whose owner signed its payload.
  ghost predicate Genuine(t: Trust, w: World, id: string, b: Bundle, k: Key) {
    && k in Listed(w, id)
    && t.verify(b.bytes, k) == Some(b.manifest)
    && t.payload(b.bytes).Some? && (k, t.payload(b.bytes).value) in w.signed
  }

  // The bundle is for the member, signed, and every blob it has is what its name says.
  ghost predicate GenuineBundle(t: Trust, w: World, id: string, b: Bundle) {
    && b.manifest.memberId == id
    && (forall h | h in b.blobs :: t.hash(b.blobs[h]) == h)
    && exists k :: Genuine(t, w, id, b, k)
  }

  ghost predicate AllGenuine(t: Trust, w: World) {
    forall a | a in w.replicas && w.replicas[a].held.Some? :: GenuineBundle(t, w, a.1, w.replicas[a].held.value)
  }

  ghost predicate AllComplete(t: Trust, w: World) {
    forall a | a in w.replicas && w.replicas[a].held.Some? :: Complete(CodecOf(t), w.replicas[a].held.value)
  }

  // More signatures and more listed keys take nothing away.
  lemma {:induction false} GenuineGrows(t: Trust, w: World, w': World, id: string, b: Bundle)
    requires GenuineBundle(t, w, id, b)
    requires w.signed <= w'.signed && Listed(w, id) <= Listed(w', id)
    ensures GenuineBundle(t, w', id, b)
  {
    var k :| Genuine(t, w, id, b, k);
    assert Genuine(t, w', id, b, k);
  }

  lemma {:induction false} SelectedIsGenuine(
    t: Trust, w: World, id: string, key: Key, n: nat, ans: Answers, held: nat)
    requires Sensible(t) && key in Listed(w, id) && FeasibleAnswers(t, w.signed, key, ans)
    requires Selected(t, key, id, n, ans, held).Some?
    ensures GenuineBundle(t, w, id, Selected(t, key, id, n, ans, held).value)
    ensures Complete(CodecOf(t), Selected(t, key, id, n, ans, held).value)
  {
    SelectedIsSound(t, key, id, n, ans, held);
    var b := Selected(t, key, id, n, ans, held).value;
    var i: nat :| i < n && ans.manifest(i) == Some(b.bytes);
    assert Feasible(t, w.signed, key, b.bytes);
    assert Genuine(t, w, id, b, key);
  }

  lemma {:induction false} StepGrows(t: Trust, w: World, w': World)
    requires Step(t, w, w')
    ensures w.signed <= w'.signed && forall id :: Listed(w, id) <= Listed(w', id)
  {
  }

  // What a regular step leaves held was held before or is a selected bundle.
  lemma {:induction false} RegularSelects(t: Trust, w: World, w': World, a: (string, string))
    requires Sensible(t) && Regular(t, w, w') && a in w'.replicas && w'.replicas[a].held.Some?
    ensures (a in w.replicas && w.replicas[a].held == w'.replicas[a].held) ||
      (&& GenuineBundle(t, w, a.1, w'.replicas[a].held.value)
       && Complete(CodecOf(t), w'.replicas[a].held.value))
  {
    if a in w.replicas && w.replicas[a].held == w'.replicas[a].held {
    } else if agent, id, key, n, ans, written :| Sync(t, w, w', agent, id, key, n, ans, written) {
      SelectedIsGenuine(t, w, id, key, n, ans, HeldVersion(ReplicaAt(w, agent, id)));
    } else if agent, id, key, n, ans, seen, installed :|
      SyncCrash(t, w, w', agent, id, key, n, ans, seen, installed) {
      SelectedIsGenuine(t, w, id, key, n, ans, HeldVersion(ReplicaAt(w, agent, id)));
    }
  }

  lemma {:induction false} TornIsGenuine(t: Trust, w: World, id: string, b: Bundle, torn: Bundle)
    requires GenuineBundle(t, w, id, b) && TornFrom(b, torn)
    ensures GenuineBundle(t, w, id, torn)
  {
    var k :| Genuine(t, w, id, b, k);
    assert Genuine(t, w, id, torn, k);
  }

  lemma {:induction false} StepKeepsGenuine(t: Trust, w: World, w': World)
    requires Sensible(t) && AllGenuine(t, w) && Step(t, w, w')
    ensures AllGenuine(t, w')
  {
    StepGrows(t, w, w');
    forall a | a in w'.replicas && w'.replicas[a].held.Some?
      ensures GenuineBundle(t, w', a.1, w'.replicas[a].held.value)
    {
      var b := w'.replicas[a].held.value;
      if Regular(t, w, w') {
        RegularSelects(t, w, w', a);
      } else {
        var agent, id, torn, seen :| Tear(w, w', agent, id, torn, seen);
        if a == (agent, id) {
          TornIsGenuine(t, w, id, w.replicas[a].held.value, b);
        }
      }
      GenuineGrows(t, w, w', a.1, b);
    }
  }

  // Only a tear makes a bundle incomplete.
  lemma {:induction false} RegularKeepsComplete(t: Trust, w: World, w': World)
    requires Sensible(t) && AllComplete(t, w) && Regular(t, w, w')
    ensures AllComplete(t, w')
  {
    forall a | a in w'.replicas && w'.replicas[a].held.Some?
      ensures Complete(CodecOf(t), w'.replicas[a].held.value)
    {
      RegularSelects(t, w, w', a);
    }
  }

  ghost predicate Run(t: Trust, run: seq<World>) {
    && |run| > 0 && run[0].replicas == map[]
    && forall i | 0 <= i < |run| - 1 :: Step(t, run[i], run[i + 1])
  }

  ghost predicate RegularRun(t: Trust, run: seq<World>) {
    && |run| > 0 && run[0].replicas == map[]
    && forall i | 0 <= i < |run| - 1 :: Regular(t, run[i], run[i + 1])
  }

  // In every reachable state every held bundle carries a payload signed under a listed key, and every
  // blob held is what its name says.
  lemma {:induction false} Authenticity(t: Trust, run: seq<World>, i: nat)
    requires Sensible(t) && Run(t, run) && i < |run|
    ensures AllGenuine(t, run[i])
  {
    if i > 0 {
      Authenticity(t, run, i - 1);
      StepKeepsGenuine(t, run[i - 1], run[i]);
    }
  }

  // As long as nothing has been torn, every held bundle is complete as well.
  lemma {:induction false} Completeness(t: Trust, run: seq<World>, i: nat)
    requires Sensible(t) && RegularRun(t, run) && i < |run|
    ensures AllComplete(t, run[i])
  {
    if i > 0 {
      Completeness(t, run, i - 1);
      RegularKeepsComplete(t, run[i - 1], run[i]);
    }
  }

  /* Agreement */

  // Among what the listed keys have signed for the member, one version means one payload.
  ghost predicate NoEquivocation(t: Trust, w: World, id: string) {
    forall d, k, d', k' :: OneVersionOnePayload(t, w, id, d, k, d', k')
  }

  ghost predicate OneVersionOnePayload(t: Trust, w: World, id: string, d: Bytes, k: Key, d': Bytes, k': Key) {
    && SignedFor(t, w, id, d, k) && SignedFor(t, w, id, d', k')
    && t.verify(d, k).value.version == t.verify(d', k').value.version
    ==> t.payload(d) == t.payload(d')
  }

  ghost predicate SignedFor(t: Trust, w: World, id: string, d: Bytes, k: Key) {
    && k in Listed(w, id)
    && t.verify(d, k).Some? && t.verify(d, k).value.memberId == id
    && t.payload(d).Some? && (k, t.payload(d).value) in w.signed
  }

  // No two of the given contents share a hash.
  ghost predicate NoCollision(t: Trust, contents: set<Bytes>) {
    forall x, y | x in contents && y in contents && t.hash(x) == t.hash(y) :: x == y
  }

  // Two agents at one version of a member have the same payload and manifest, and the same content for
  // every file that both have.
  lemma {:induction false} Agreement(t: Trust, w: World, a: string, b: string, id: string)
    requires Sensible(t) && AllGenuine(t, w) && NoEquivocation(t, w, id)
    requires ReplicaAt(w, a, id).held.Some? && ReplicaAt(w, b, id).held.Some?
    requires HeldVersion(ReplicaAt(w, a, id)) == HeldVersion(ReplicaAt(w, b, id))
    requires NoCollision(t, ReplicaAt(w, a, id).held.value.blobs.Values + ReplicaAt(w, b, id).held.value.blobs.Values)
    ensures
      var x, y := ReplicaAt(w, a, id).held.value, ReplicaAt(w, b, id).held.value;
      && x.manifest == y.manifest
      && t.payload(x.bytes) == t.payload(y.bytes)
      && (forall h | h in x.blobs && h in y.blobs :: x.blobs[h] == y.blobs[h])
      && (AllComplete(t, w) ==> forall h | h in Hashes(x.manifest) :: h in x.blobs && h in y.blobs)
  {
    var x, y := ReplicaAt(w, a, id).held.value, ReplicaAt(w, b, id).held.value;
    assert GenuineBundle(t, w, id, x) && GenuineBundle(t, w, id, y);
    var k :| Genuine(t, w, id, x, k);
    var k' :| Genuine(t, w, id, y, k');
    assert SignedFor(t, w, id, x.bytes, k) && SignedFor(t, w, id, y.bytes, k');
    assert OneVersionOnePayload(t, w, id, x.bytes, k, y.bytes, k');
    assert SamePayloadSameManifest(t, x.bytes, k, y.bytes, k');
    forall h | h in x.blobs && h in y.blobs ensures x.blobs[h] == y.blobs[h] {
      assert x.blobs[h] in x.blobs.Values && y.blobs[h] in y.blobs.Values;
    }
  }
}
