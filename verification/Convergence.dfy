/**
 Convergence: while the links and the registry are stable and nothing newer is signed, the newest
 version spreads one hop further each round, whatever dishonest sources answer.
 */
module Convergence {
  import opened Basics
  import opened Manifests
  import opened Recovery
  import opened Replication
  import opened Protocol

  // One member under one key. An agent asks sources(a) sources; honest(a, i) names the honest holder
  // behind source i when there is one and it can be reached. An origin is a holder that never syncs.
  datatype Setting = Setting(
    t: Trust,
    key: Key,
    id: string,
    signed: set<(Key, Bytes)>,
    newest: Manifest,
    agents: set<string>,
    sources: string -> nat,
    honest: (string, nat) -> Option<string>)

  // Files listed under one hash are listed with one size.
  ghost predicate OneSizePerHash(m: Manifest) {
    forall f, g | f in m.files && g in m.files && f.sha256 == g.sha256 :: f.size == g.size
  }

  ghost predicate SignedOffer(s: Setting, d: Bytes) {
    && s.t.verify(d, s.key).Some? && s.t.verify(d, s.key).value.memberId == s.id
    && s.t.payload(d).Some? && (s.key, s.t.payload(d).value) in s.signed
  }

  // Nothing signed is newer than the newest manifest, and nothing else is signed at its version.
  ghost predicate Stable(s: Setting) {
    && Sensible(s.t)
    && s.newest.memberId == s.id && s.newest.version >= 1
    && (forall f | f in s.newest.files :: 0 <= f.size <= MAX_BLOB_BYTES)
    && OneSizePerHash(s.newest)
    && forall d | SignedOffer(s, d) ::
      var m := s.t.verify(d, s.key).value;
      m.version <= s.newest.version && (m.version == s.newest.version ==> m == s.newest)
  }

  type Replicas = map<string, Replica>

  function At(reps: Replicas, a: string): Replica {
    if a in reps then reps[a] else EMPTY
  }

  // The replica holds the newest version, verified and with every blob right.
  ghost predicate Current(s: Setting, r: Replica) {
    && r.held.Some?
    && r.held.value.manifest == s.newest
    && s.t.verify(r.held.value.bytes, s.key) == Some(s.newest)
    && forall f | f in s.newest.files :: Right(s.t, r.held.value.blobs, f)
  }

  predicate Right(t: Trust, blobs: map<string, Bytes>, f: FileEntry) {
    f.sha256 in blobs && t.hash(blobs[f.sha256]) == f.sha256 && |blobs[f.sha256]| == f.size
  }

  // A replica is behind, or it is current: nobody is ahead or holds the newest version incomplete.
  ghost predicate Tame(s: Setting, r: Replica) {
    HeldVersion(r) < s.newest.version || Current(s, r)
  }

  // The relay's answers: the envelope as stored, and a blob if the current manifest names it.
  function RelayManifest(r: Replica): Option<Bytes> {
    if r.held.Some? then Some(r.held.value.bytes) else None
  }

  function RelayBlob(r: Replica, hash: string): Option<Bytes> {
    if r.held.Some? && hash in Hashes(r.held.value.manifest) && hash in r.held.value.blobs
    then Some(r.held.value.blobs[hash]) else None
  }

  // One agent synchronizing once.
  datatype Turn = Turn(agent: string, ans: Answers)

  // No answer carries a forgery, and the reachable honest holders of the newest version answer from
  // their replicas, which never change again. Honest holders that are behind may answer from one
  // state after another.
  ghost predicate Fair(s: Setting, reps: Replicas, turn: Turn) {
    && FeasibleAnswers(s.t, s.signed, s.key, turn.ans)
    && forall i | 0 <= i < s.sources(turn.agent) && s.honest(turn.agent, i).Some?
      && Current(s, At(reps, s.honest(turn.agent, i).value)) ::
      HonestAnswer(s, At(reps, s.honest(turn.agent, i).value), At(reps, turn.agent), turn, i)
  }

  ghost predicate HonestAnswer(s: Setting, holder: Replica, asker: Replica, turn: Turn, i: nat) {
    && turn.ans.manifest(i) == RelayManifest(holder)
    && var n := s.sources(turn.agent);
       var best := Best(s.t, s.key, s.id, turn.ans, n, HeldVersion(asker));
       best.Some? ==>
         var files := Offer(s.t, s.key, s.id, turn.ans, best.value).value.files;
         forall k | 0 <= k < |files| :: turn.ans.blob(k, i) == RelayBlob(holder, files[k].sha256)
  }

  function AfterTurn(s: Setting, reps: Replicas, turn: Turn): Replicas {
    reps[turn.agent := Synced(s.t, s.key, s.id, s.sources(turn.agent), turn.ans, At(reps, turn.agent), true)]
  }

  function AfterTurns(s: Setting, reps: Replicas, turns: seq<Turn>): Replicas
    decreases |turns|
  {
    if turns == [] then reps else AfterTurns(s, AfterTurn(s, reps, turns[0]), turns[1..])
  }

  ghost predicate FairTurns(s: Setting, reps: Replicas, turns: seq<Turn>)
    decreases |turns|
  {
    turns == [] || (Fair(s, reps, turns[0]) && FairTurns(s, AfterTurn(s, reps, turns[0]), turns[1..]))
  }

  // A round lets every agent synchronize at least once, in any order.
  ghost predicate Round(s: Setting, reps: Replicas, turns: seq<Turn>) {
    FairTurns(s, reps, turns) && forall a | a in s.agents :: exists j :: 0 <= j < |turns| && turns[j].agent == a
  }

  lemma {:induction false} OffersAreSigned(s: Setting, turn: Turn, i: nat)
    requires Stable(s) && FeasibleAnswers(s.t, s.signed, s.key, turn.ans)
    requires Offer(s.t, s.key, s.id, turn.ans, i).Some?
    ensures
      var m := Offer(s.t, s.key, s.id, turn.ans, i).value;
      m.version <= s.newest.version && (m.version == s.newest.version ==> m == s.newest)
  {
    assert Feasible(s.t, s.signed, s.key, turn.ans.manifest(i).value);
    assert SignedOffer(s, turn.ans.manifest(i).value);
  }

  // Who is current stays current and keeps its bundle as it is: its answers are those of one state.
  lemma {:induction false} CurrentStays(s: Setting, reps: Replicas, turn: Turn, a: string)
    requires Stable(s) && Fair(s, reps, turn) && Current(s, At(reps, a))
    ensures Current(s, At(AfterTurn(s, reps, turn), a))
    ensures At(AfterTurn(s, reps, turn), a).held == At(reps, a).held
  {
    if a == turn.agent {
      var n, held := s.sources(a), HeldVersion(At(reps, a));
      BestIsFirstHighest(s.t, s.key, s.id, turn.ans, n, held);
      var best := Best(s.t, s.key, s.id, turn.ans, n, held);
      if best.Some? {
        OffersAreSigned(s, turn, best.value);
      }
    }
  }

  lemma {:induction false} GatherIsRight(
    t: Trust, ans: Answers, m: Manifest, k: nat, n: nat, preferred: nat, blobs: map<string, Bytes>)
    requires k <= |m.files| && OneSizePerHash(m)
    requires forall j | 0 <= j < k :: Right(t, blobs, m.files[j])
    ensures
      var r := GatherOnto(t, ans, m.files, k, n, preferred, blobs);
      r.Some? ==> forall f | f in m.files :: Right(t, r.value, f)
    decreases |m.files| - k
  {
    if k < |m.files| {
      var f := m.files[k];
      var b := FirstBlob(t, ans, k, f, Order(n, preferred));
      if b.Some? {
        var blobs' := blobs[f.sha256 := b.value];
        forall j | 0 <= j < k + 1 ensures Right(t, blobs', m.files[j]) {
          assert m.files[j] in m.files && f in m.files;
        }
        GatherIsRight(t, ans, m, k + 1, n, preferred, blobs');
      }
    }
  }

  // An agent that can reach a current honest holder becomes current, even if the winning envelope
  // came from someone who then withholds or corrupts the blobs.
  lemma {:induction false} NeighborCatchesUp(s: Setting, reps: Replicas, turn: Turn, i: nat)
    requires Stable(s) && Fair(s, reps, turn)
    requires i < s.sources(turn.agent) && s.honest(turn.agent, i).Some?
    requires Current(s, At(reps, s.honest(turn.agent, i).value))
    ensures HeldVersion(At(reps, turn.agent)) < s.newest.version ==>
      Current(s, At(AfterTurn(s, reps, turn), turn.agent))
  {
    var n, asker := s.sources(turn.agent), At(reps, turn.agent);
    var holder := At(reps, s.honest(turn.agent, i).value);
    if HeldVersion(asker) < s.newest.version {
      assert HonestAnswer(s, holder, asker, turn, i);
      assert Decodes(s.t, holder.held.value.bytes, s.key);
      assert Offer(s.t, s.key, s.id, turn.ans, i) == Some(s.newest);
      BestIsFirstHighest(s.t, s.key, s.id, turn.ans, n, HeldVersion(asker));
      var best := Best(s.t, s.key, s.id, turn.ans, n, HeldVersion(asker)).value;
      OffersAreSigned(s, turn, best);
      assert Offer(s.t, s.key, s.id, turn.ans, best) == Some(s.newest);
      forall k | 0 <= k < |s.newest.files| ensures BlobFrom(s.t, turn.ans, k, s.newest.files[k], i).Some? {
        var f := s.newest.files[k];
        assert f in s.newest.files && f.sha256 in Hashes(s.newest);
        assert Right(s.t, holder.held.value.blobs, f);
      }
      GatherSucceeds(s.t, turn.ans, s.newest.files, 0, n, best, i, map[]);
      GatherIsRight(s.t, turn.ans, s.newest, 0, n, best, map[]);
      var blobs := Gather(s.t, turn.ans, s.newest.files, 0, n, best).value;
      var after := At(AfterTurn(s, reps, turn), turn.agent);
      assert after.held == Some(NewBundle(s.newest, OfferBytes(turn.ans, best), blobs));
      forall f | f in s.newest.files ensures Right(s.t, after.held.value.blobs, f) {
        assert f.sha256 in Hashes(s.newest) && Right(s.t, blobs, f);
      }
    }
  }

  lemma {:induction false} TameStays(s: Setting, reps: Replicas, turn: Turn, a: string)
    requires Stable(s) && Fair(s, reps, turn) && Tame(s, At(reps, a))
    ensures Tame(s, At(AfterTurn(s, reps, turn), a))
  {
    if Current(s, At(reps, a)) {
      CurrentStays(s, reps, turn, a);
    } else if a == turn.agent {
      var n, held := s.sources(a), HeldVersion(At(reps, a));
      var best := Best(s.t, s.key, s.id, turn.ans, n, held);
      if best.Some? {
        var m := Offer(s.t, s.key, s.id, turn.ans, best.value).value;
        OffersAreSigned(s, turn, best.value);
        var after := At(AfterTurn(s, reps, turn), a);
        if m == s.newest && after.held != At(reps, a).held {
          GatherIsRight(s.t, turn.ans, m, 0, n, best.value, map[]);
          var blobs := Gather(s.t, turn.ans, m.files, 0, n, best.value).value;
          forall f | f in m.files ensures Right(s.t, after.held.value.blobs, f) {
            assert f.sha256 in Hashes(m) && Right(s.t, blobs, f);
          }
        }
      }
    }
  }

  ghost predicate AllTame(s: Setting, reps: Replicas) {
    forall a | a in s.agents :: Tame(s, At(reps, a))
  }

  lemma {:induction false} TurnsKeepCurrent(s: Setting, reps: Replicas, turns: seq<Turn>, a: string)
    requires Stable(s) && FairTurns(s, reps, turns) && Current(s, At(reps, a))
    ensures Current(s, At(AfterTurns(s, reps, turns), a))
    ensures At(AfterTurns(s, reps, turns), a).held == At(reps, a).held
    decreases |turns|
  {
    if turns != [] {
      CurrentStays(s, reps, turns[0], a);
      TurnsKeepCurrent(s, AfterTurn(s, reps, turns[0]), turns[1..], a);
    }
  }

  lemma {:induction false} TurnsKeepTame(s: Setting, reps: Replicas, turns: seq<Turn>)
    requires Stable(s) && FairTurns(s, reps, turns) && AllTame(s, reps)
    ensures AllTame(s, AfterTurns(s, reps, turns))
    decreases |turns|
  {
    if turns != [] {
      forall a | a in s.agents ensures Tame(s, At(AfterTurn(s, reps, turns[0]), a)) {
        TameStays(s, reps, turns[0], a);
      }
      TurnsKeepTame(s, AfterTurn(s, reps, turns[0]), turns[1..]);
    }
  }

  // Whoever takes a turn in the round while a current holder is in reach ends the round current.
  lemma {:induction false} TurnCatchesUp(s: Setting, reps: Replicas, turns: seq<Turn>, j: nat, i: nat)
    requires Stable(s) && FairTurns(s, reps, turns) && j < |turns|
    requires Tame(s, At(reps, turns[j].agent))
    requires i < s.sources(turns[j].agent) && s.honest(turns[j].agent, i).Some?
    requires Current(s, At(reps, s.honest(turns[j].agent, i).value))
    ensures Current(s, At(AfterTurns(s, reps, turns), turns[j].agent))
    decreases |turns|
  {
    var a, reps' := turns[j].agent, AfterTurn(s, reps, turns[0]);
    if j == 0 {
      if Current(s, At(reps, a)) {
        CurrentStays(s, reps, turns[0], a);
      } else {
        NeighborCatchesUp(s, reps, turns[0], i);
      }
      TurnsKeepCurrent(s, reps', turns[1..], a);
    } else {
      TameStays(s, reps, turns[0], a);
      CurrentStays(s, reps, turns[0], s.honest(a, i).value);
      TurnCatchesUp(s, reps', turns[1..], j - 1, i);
    }
  }

  // The holder is one hop away.
  ghost predicate Reaches(s: Setting, a: string, holders: iset<string>) {
    exists i :: 0 <= i < s.sources(a) && s.honest(a, i).Some? && s.honest(a, i).value in holders
  }

  // The agents within d hops of a current holder.
  ghost function Within(s: Setting, reps: Replicas, d: nat): iset<string> {
    if d == 0 then iset a | Current(s, At(reps, a))
    else
      var closer := Within(s, reps, d - 1);
      iset a | a in closer || (a in s.agents && Reaches(s, a, closer))
  }

  function AfterRounds(s: Setting, reps: Replicas, rounds: seq<seq<Turn>>): Replicas
    decreases |rounds|
  {
    if rounds == [] then reps else AfterTurns(s, AfterRounds(s, reps, rounds[..|rounds| - 1]), rounds[|rounds| - 1])
  }

  ghost predicate Rounds(s: Setting, reps: Replicas, rounds: seq<seq<Turn>>)
    decreases |rounds|
  {
    rounds == [] ||
    (var before := rounds[..|rounds| - 1];
     Rounds(s, reps, before) && Round(s, AfterRounds(s, reps, before), rounds[|rounds| - 1]))
  }

  // After d rounds everyone within d hops of a holder of the newest version holds it complete.
  lemma {:induction false} Convergence(s: Setting, reps: Replicas, rounds: seq<seq<Turn>>)
    requires Stable(s) && AllTame(s, reps) && Rounds(s, reps, rounds)
    ensures forall a | a in Within(s, reps, |rounds|) :: Current(s, At(AfterRounds(s, reps, rounds), a))
    ensures AllTame(s, AfterRounds(s, reps, rounds))
    decreases |rounds|
  {
    if rounds != [] {
      var before, turns := rounds[..|rounds| - 1], rounds[|rounds| - 1];
      var closer, mid := Within(s, reps, |before|), AfterRounds(s, reps, before);
      Convergence(s, reps, before);
      TurnsKeepTame(s, mid, turns);
      forall a | a in Within(s, reps, |rounds|) ensures Current(s, At(AfterTurns(s, mid, turns), a)) {
        if a in closer {
          TurnsKeepCurrent(s, mid, turns, a);
        } else {
          var i :| 0 <= i < s.sources(a) && s.honest(a, i).Some? && s.honest(a, i).value in closer;
          var j :| 0 <= j < |turns| && turns[j].agent == a;
          TurnCatchesUp(s, mid, turns, j, i);
        }
      }
    }
  }

  /* From any reachable state */

  // Every blob that is there is right for every file, if no two files list one hash with two sizes.
  ghost predicate RightBundle(t: Trust, b: Bundle) {
    OneSizePerHash(b.manifest) ==> forall f | f in b.manifest.files && f.sha256 in b.blobs :: Right(t, b.blobs, f)
  }

  ghost predicate AllRight(t: Trust, w: World) {
    forall a | a in w.replicas && w.replicas[a].held.Some? :: RightBundle(t, w.replicas[a].held.value)
  }

  lemma {:induction false} SelectedIsRight(t: Trust, key: Key, id: string, n: nat, ans: Answers, held: nat)
    requires Selected(t, key, id, n, ans, held).Some?
    ensures RightBundle(t, Selected(t, key, id, n, ans, held).value)
  {
    var b := Selected(t, key, id, n, ans, held).value;
    if OneSizePerHash(b.manifest) {
      var i := Best(t, key, id, ans, n, held).value;
      GatherIsRight(t, ans, b.manifest, 0, n, i, map[]);
      var blobs := Gather(t, ans, b.manifest.files, 0, n, i).value;
      forall f | f in b.manifest.files ensures Right(t, b.blobs, f) {
        assert f.sha256 in Hashes(b.manifest) && Right(t, blobs, f);
      }
    }
  }

  lemma {:induction false} TornIsRight(t: Trust, b: Bundle, torn: Bundle)
    requires RightBundle(t, b) && TornFrom(b, torn)
    ensures RightBundle(t, torn)
  {
  }

  lemma {:induction false} StepKeepsRight(t: Trust, w: World, w': World)
    requires AllRight(t, w) && Step(t, w, w')
    ensures AllRight(t, w')
  {
    forall a | a in w'.replicas && w'.replicas[a].held.Some? ensures RightBundle(t, w'.replicas[a].held.value) {
      if a in w.replicas && w.replicas[a].held == w'.replicas[a].held {
      } else if agent, id, torn, seen :| Tear(w, w', agent, id, torn, seen) {
        TornIsRight(t, w.replicas[(agent, id)].held.value, torn);
      } else if agent, id, key, n, ans, written :| Sync(t, w, w', agent, id, key, n, ans, written) {
        SelectedIsRight(t, key, id, n, ans, HeldVersion(ReplicaAt(w, agent, id)));
      } else if agent, id, key, n, ans, seen, installed :|
        SyncCrash(t, w, w', agent, id, key, n, ans, seen, installed) {
        SelectedIsRight(t, key, id, n, ans, HeldVersion(ReplicaAt(w, agent, id)));
      }
    }
  }

  lemma {:induction false} ReachableIsRight(t: Trust, run: seq<World>, i: nat)
    requires Run(t, run) && i < |run|
    ensures AllRight(t, run[i])
  {
    if i > 0 {
      ReachableIsRight(t, run, i - 1);
      StepKeepsRight(t, run[i - 1], run[i]);
    }
  }

  // Whatever other keys were listed for the member have signed older versions only.
  ghost predicate OlderUnderOtherKeys(s: Setting, w: World) {
    forall d, k | k != s.key && SignedFor(s.t, w, s.id, d, k) :: s.t.verify(d, k).value.version < s.newest.version
  }

  // If the replica is at the newest version, it has every blob.
  ghost predicate Untorn(s: Setting, r: Replica) {
    HeldVersion(r) == s.newest.version && r.held.Some? ==> Complete(CodecOf(s.t), r.held.value)
  }

  // In a reachable state nobody is ahead of the newest version, and all there is to fear is a replica
  // torn at that very version.
  lemma {:induction false} ReachableIsTame(s: Setting, run: seq<World>, i: nat, a: string)
    requires Stable(s) && Run(s.t, run) && i < |run|
    requires run[i].signed <= s.signed && OlderUnderOtherKeys(s, run[i])
    ensures HeldVersion(ReplicaAt(run[i], a, s.id)) <= s.newest.version
    ensures Tame(s, ReplicaAt(run[i], a, s.id)) <==> Untorn(s, ReplicaAt(run[i], a, s.id))
  {
    var w := run[i];
    Authenticity(s.t, run, i);
    ReachableIsRight(s.t, run, i);
    if ReplicaAt(w, a, s.id).held.Some? {
      var b := w.replicas[(a, s.id)].held.value;
      assert GenuineBundle(s.t, w, s.id, b) && RightBundle(s.t, b);
      var k :| Genuine(s.t, w, s.id, b, k);
      assert SignedFor(s.t, w, s.id, b.bytes, k);
      if k == s.key {
        assert SignedOffer(s, b.bytes);
        NewestIsCurrent(s, ReplicaAt(w, a, s.id));
      }
    }
  }

  // A verified bundle of the newest manifest is current if it has every blob.
  lemma {:induction false} NewestIsCurrent(s: Setting, r: Replica)
    requires Stable(s) && r.held.Some? && RightBundle(s.t, r.held.value)
    requires s.t.verify(r.held.value.bytes, s.key) == Some(r.held.value.manifest)
    ensures r.held.value.manifest == s.newest ==> (Current(s, r) <==> Complete(CodecOf(s.t), r.held.value))
  {
    var b := r.held.value;
    if b.manifest == s.newest {
      if Current(s, r) {
        forall h | h in Hashes(b.manifest) ensures h in b.blobs && s.t.hash(b.blobs[h]) == h {
          var f :| f in b.manifest.files && f.sha256 == h;
          assert Right(s.t, b.blobs, f);
        }
      }
      if Complete(CodecOf(s.t), b) {
        forall f | f in s.newest.files ensures Right(s.t, b.blobs, f) {
          assert f.sha256 in Hashes(b.manifest);
        }
      }
    }
  }

  // From any state that any run can reach, with any keys the member has had and any holders beside the
  // agents, d rounds bring the newest version to everyone within d hops of a holder. An agent torn at it
  // is not one of the agents, but may take turns and answer like any other source.
  lemma {:induction false} ConvergenceFromAnyRun(
    s: Setting, run: seq<World>, i: nat, reps: Replicas, rounds: seq<seq<Turn>>)
    requires Stable(s) && Run(s.t, run) && i < |run|
    requires run[i].signed <= s.signed && OlderUnderOtherKeys(s, run[i])
    requires forall a | a in s.agents :: At(reps, a) == ReplicaAt(run[i], a, s.id) && Untorn(s, At(reps, a))
    requires Rounds(s, reps, rounds)
    ensures forall a | a in Within(s, reps, |rounds|) :: Current(s, At(AfterRounds(s, reps, rounds), a))
  {
    forall a | a in s.agents ensures Tame(s, At(reps, a)) {
      ReachableIsTame(s, run, i, a);
    }
    Convergence(s, reps, rounds);
  }

  // Without a tear in the run no agent is torn.
  lemma {:induction false} RegularIsUntorn(s: Setting, run: seq<World>, i: nat, a: string)
    requires Stable(s) && RegularRun(s.t, run) && i < |run|
    ensures Run(s.t, run) && Untorn(s, ReplicaAt(run[i], a, s.id))
  {
    Completeness(s.t, run, i);
  }

  // An agent that is torn at the newest version stays so whatever it is offered: the condition above is
  // needed for every agent that is to end up current.
  lemma {:induction false} TornStaysTorn(s: Setting, reps: Replicas, turns: seq<Turn>, a: string)
    requires Stable(s) && FairTurns(s, reps, turns)
    requires HeldVersion(At(reps, a)) == s.newest.version && !Current(s, At(reps, a))
    ensures !Current(s, At(AfterTurns(s, reps, turns), a))
    ensures At(AfterTurns(s, reps, turns), a).held == At(reps, a).held
    decreases |turns|
  {
    if turns != [] {
      NewestStays(s, reps, turns[0], a);
      TornStaysTorn(s, AfterTurn(s, reps, turns[0]), turns[1..], a);
    }
  }

  // Whoever is at the newest version takes nothing.
  lemma {:induction false} NewestStays(s: Setting, reps: Replicas, turn: Turn, a: string)
    requires Stable(s) && FeasibleAnswers(s.t, s.signed, s.key, turn.ans)
    requires HeldVersion(At(reps, a)) == s.newest.version
    ensures At(AfterTurn(s, reps, turn), a).held == At(reps, a).held
  {
    if a == turn.agent {
      var n, held := s.sources(a), HeldVersion(At(reps, a));
      BestIsFirstHighest(s.t, s.key, s.id, turn.ans, n, held);
      var best := Best(s.t, s.key, s.id, turn.ans, n, held);
      if best.Some? {
        OffersAreSigned(s, turn, best.value);
      }
    }
  }

  // A turn is a step of the protocol machine, taken by one agent for this member.
  lemma {:induction false} TurnIsSync(s: Setting, w: World, reps: Replicas, turn: Turn)
    requires Fair(s, reps, turn) && w.signed == s.signed && s.key in Listed(w, s.id)
    requires forall a :: ReplicaAt(w, a, s.id) == At(reps, a)
    ensures
      var r := Synced(s.t, s.key, s.id, s.sources(turn.agent), turn.ans, ReplicaAt(w, turn.agent, s.id), true);
      var w' := w.(replicas := w.replicas[(turn.agent, s.id) := r]);
      && Sync(s.t, w, w', turn.agent, s.id, s.key, s.sources(turn.agent), turn.ans, true)
      && forall a :: ReplicaAt(w', a, s.id) == At(AfterTurn(s, reps, turn), a)
  {
    var r := Synced(s.t, s.key, s.id, s.sources(turn.agent), turn.ans, ReplicaAt(w, turn.agent, s.id), true);
    var w' := w.(replicas := w.replicas[(turn.agent, s.id) := r]);
    forall a ensures ReplicaAt(w', a, s.id) == At(AfterTurn(s, reps, turn), a) {
      assert ReplicaAt(w, a, s.id) == At(reps, a);
    }
  }
}
