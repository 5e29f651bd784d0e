/** The prober: sweeps over every member and holder, judging each by the freshness rule. */
module Probe {
  import opened Basics
  import opened Manifests
  import opened Registries
  import opened Disk
  import opened Store
  import opened Replication
  import opened Freshness

  // What a holder's agent answers to a request for a member's manifest.
  datatype Response = NoAnswer | NotFound | OtherStatus | Body(data: Bytes)

  // The classification of an answer, before freshness is judged.
  function Classify(t: Trust, key: Option<Key>, id: string, resp: Response): Observation {
    if key.None? then Observation(Invalid, 0)
    else match resp
      case NoAnswer => Observation(Unreachable, 0)
      case NotFound => Observation(Missing, 0)
      case OtherStatus => Observation(Unreachable, 0)
      case Body(data) =>
        if |data| > MAX_MANIFEST_BYTES then Observation(Invalid, 0)
        else match t.verify(data, key.value)
          case None => Observation(Invalid, 0)
          case Some(m) => if m.memberId != id then Observation(Invalid, 0) else Observation(Healthy, m.version)
  }

  function OwnObservation(version: nat): Observation {
    if version == 0 then Observation(Missing, 0) else Observation(Healthy, version)
  }

  type Responses = (string, string) -> Response

  // Everything a sweep learns about one member depends on: who is asked, with which key, by whom.
  datatype Question = Question(t: Trust, key: Option<Key>, id: string, self: string, own: nat, answers: Responses)

  function ObservationOf(q: Question, holder: string): Observation {
    if holder == q.self then OwnObservation(q.own) else Classify(q.t, q.key, q.id, q.answers(holder, q.id))
  }

  // What the first n holders that run an agent show of the member.
  function SightingsOf(q: Question, holders: seq<Member>, n: nat): seq<Sighting>
    requires n <= |holders|
  {
    if n == 0 then []
    else
      var h := holders[n - 1];
      SightingsOf(q, holders, n - 1) + if h.agent == "" then [] else [Sighting(h.id, ObservationOf(q, h.id))]
  }

  lemma {:induction false} SightingsArePlausible(q: Question, holders: seq<Member>, n: nat)
    requires n <= |holders| && Sensible(q.t)
    ensures forall s | s in SightingsOf(q, holders, n) :: Plausible(s.o)
  {
    if n > 0 {
      SightingsArePlausible(q, holders, n - 1);
      var h := holders[n - 1].id;
      if h != q.self && q.key.Some? && q.answers(h, q.id).Body? {
        assert Decodes(q.t, q.answers(h, q.id).data, q.key.value);
      }
    }
  }

  lemma {:induction false} SightingsAreDistinct(q: Question, holders: seq<Member>, n: nat)
    requires n <= |holders| && DistinctIds(holders)
    ensures DistinctHolders(SightingsOf(q, holders, n))
    ensures forall s | s in SightingsOf(q, holders, n) ::
      exists i :: 0 <= i < n && holders[i].id == s.holder
    ensures forall i | 0 <= i < n && holders[i].agent != "" ::
      Sighting(holders[i].id, ObservationOf(q, holders[i].id)) in SightingsOf(q, holders, n)
  {
    if n > 0 {
      SightingsAreDistinct(q, holders, n - 1);
    }
  }

  // After a sweep every holder that runs an agent has a verdict, and it fits the highest version
  // known by then.
  lemma {:induction false} VerdictsFit(w: Watch, q: Question, holders: seq<Member>, now: int, tolerance: nat, i: nat)
    requires Sensible(q.t) && DistinctIds(holders) && i < |holders| && holders[i].agent != ""
    ensures
      var w' := Swept(w, SightingsOf(q, holders, |holders|), now, tolerance);
      holders[i].id in w'.cells && Fits(w', w'.cells[holders[i].id], now, tolerance)
  {
    var sightings := SightingsOf(q, holders, |holders|);
    SightingsArePlausible(q, holders, |holders|);
    SightingsAreDistinct(q, holders, |holders|);
    var k :| 0 <= k < |sightings| && sightings[k].holder == holders[i].id;
    SweepSoundness(w, sightings, now, tolerance, k);
  }

  // The holder's answer is a manifest of the member that verifies under its key.
  predicate ValidAnswer(t: Trust, key: Option<Key>, id: string, resp: Response) {
    && key.Some? && resp.Body? && |resp.data| <= 1048576
    && t.verify(resp.data, key.value).Some? && t.verify(resp.data, key.value).value.memberId == id
  }

  // What a status and a version say of the answer they rest on. Stale is a valid answer that lags.
  ghost predicate SaysOfAnswer(
    t: Trust, key: Option<Key>, id: string, resp: Response, status: Status, version: nat) {
    && (status == Missing <==> key.Some? && resp == NotFound)
    && (status == Unreachable <==> key.Some? && (resp == NoAnswer || resp == OtherStatus))
    && (status == Invalid <==> key.None? || (resp.Body? && !ValidAnswer(t, key, id, resp)))
    && (status in {Healthy, Stale} <==> ValidAnswer(t, key, id, resp))
    && version == if ValidAnswer(t, key, id, resp) then t.verify(resp.data, key.value).value.version else 0
  }

  ghost predicate SaysOfOwn(own: nat, status: Status, version: nat) {
    && version == own
    && (status == Missing <==> own == 0)
    && (status in {Healthy, Stale} <==> own > 0)
  }

  lemma {:induction false} ObservationSays(q: Question, holder: string)
    ensures
      var o := ObservationOf(q, holder);
      && o.status != Stale
      && (holder == q.self ==> SaysOfOwn(q.own, o.status, o.version))
      && (holder != q.self ==> SaysOfAnswer(q.t, q.key, q.id, q.answers(holder, q.id), o.status, o.version))
  {
  }

  // After a sweep every holder that runs an agent has a verdict that says what it answered.
  lemma {:induction false} VerdictsSay(w: Watch, q: Question, holders: seq<Member>, now: int, tolerance: nat, h: Member)
    requires Sensible(q.t) && DistinctIds(holders) && h in holders && h.agent != ""
    ensures
      var cells := Swept(w, SightingsOf(q, holders, |holders|), now, tolerance).cells;
      && h.id in cells
      && (h.id == q.self ==> SaysOfOwn(q.own, cells[h.id].status, cells[h.id].version))
      && (h.id != q.self ==>
           SaysOfAnswer(q.t, q.key, q.id, q.answers(h.id, q.id), cells[h.id].status, cells[h.id].version))
  {
    var sightings := SightingsOf(q, holders, |holders|);
    SightingsArePlausible(q, holders, |holders|);
    SightingsAreDistinct(q, holders, |holders|);
    var k :| 0 <= k < |sightings| && sightings[k] == Sighting(h.id, ObservationOf(q, h.id));
    ObservationSays(q, h.id);
    CellAfter(Started(w, now), sightings, now, tolerance, k);
  }

  lemma {:induction false} ObserveOneMore(w: Watch, sightings: seq<Sighting>, s: Sighting, now: int, tolerance: nat)
    ensures ObservedAll(w, sightings + [s], now, tolerance)
      == Observed(ObservedAll(w, sightings, now, tolerance), s, now, tolerance)
  {
    assert (sightings + [s])[..|sightings + [s]| - 1] == sightings;
  }

  class Prober {
    const store: Store
    const trust: Trust
    const primitives: Primitives
    const self: string
    const tolerance: nat
    var matrix: map<string, map<string, Cell>>
    var firstKnown: map<string, map<nat, int>>

    constructor (store: Store, trust: Trust, primitives: Primitives, self: string, tolerance: nat)
      ensures this.store == store && this.trust == trust && this.primitives == primitives
      ensures this.self == self && this.tolerance == tolerance
      ensures matrix == map[] && firstKnown == map[]
    {
      this.store, this.trust, this.primitives, this.self := store, trust, primitives, self;
      this.tolerance := tolerance;
      matrix, firstKnown := map[], map[];
    }

    function Known(id: string): map<nat, int>
      reads this
    {
      if id in firstKnown then firstKnown[id] else map[]
    }

    function Cells(id: string): map<string, Cell>
      reads this
    {
      if id in matrix then matrix[id] else map[]
    }

    // All that bears on one member.
    function View(id: string): Watch
      reads this, store
    {
      Watch(Known(id), Cells(id), store.SeenVersion(id))
    }

    twostate predicate OnlyView(id: string)
      reads this, store
    {
      forall j | j != id :: View(j) == old(View(j))
    }

    // A crash comes from a disk operation that did not succeed.
    twostate predicate Explained(crashed: bool)
      reads store, store.disk
    {
      old(store.disk.mishaps) <= store.disk.mishaps && (crashed ==> old(store.disk.mishaps) < store.disk.mishaps)
    }

    // Opens the grace window of a version on first sight.
    method NoteVersion(id: string, v: nat, now: int)
      modifies this
      ensures OnlyView(id) && View(id) == old(View(id)).(known := Noted(old(Known(id)), v, now))
    {
      if v == 0 {
        return;
      }
      var known := Known(id);
      if v !in known {
        known := known[v := now];
      }
      firstKnown := firstKnown[id := known];
    }

    // Settles freshness for one observation and stores it.
    method Record(id: string, holder: string, o: Observation, now: int)
      modifies this
      ensures OnlyView(id) && View(id) == Recorded(old(View(id)), holder, o, now, tolerance)
    {
      if o.version > 0 {
        NoteVersion(id, o.version, now);
      }
      var known := Known(id);
      var highest := store.SeenVersion(id);
      var left := known.Keys;
      while left != {}
        invariant left <= known.Keys
        invariant highest >= store.SeenVersion(id) && (highest == store.SeenVersion(id) || highest in known)
        invariant forall v | v in known && v !in left :: v <= highest
        decreases |left|
      {
        var v :| v in left;
        left := left - {v};
        if v > highest {
          highest := v;
        }
      }
      HighestIsUnique(known.Keys, store.SeenVersion(id), highest);
      var before := if holder in Cells(id) then Cells(id)[holder].lastSeen else None;
      var cell := Judge(known, highest, o, before, now, tolerance);
      matrix := matrix[id := Cells(id)[holder := cell]];
    }

    // Tells the store of a version.
    method Note(id: string, v: nat) returns (crashed: bool)
      requires store.Valid() && v < UINT64_LIMIT
      modifies store, store.disk
      ensures Explained(crashed)
      ensures forall j | j != id ::
        store.Version(j) == old(store.Version(j)) && store.SeenVersion(j) == old(store.SeenVersion(j))
      ensures !crashed ==> store.Valid() && store.Version(id) == old(store.Version(id))
      ensures !crashed ==> store.SeenVersion(id) == Max(old(store.SeenVersion(id)), v)
    {
      ghost var e0, mem0 := store.disk.At(id), store.Mem(id);
      var o := store.NoteSeen(id, v);
      crashed := o.Crashed?;
      NotedView(store.codec, id, v, e0, mem0, store.disk.At(id), store.Mem(id), o);
      forall j | j != id
        ensures store.Version(j) == old(store.Version(j)) && store.SeenVersion(j) == old(store.SeenVersion(j))
      {
        assert store.Mem(j) == old(store.Mem(j));
      }
    }

    // Asks one holder for one member; a valid answer is noted in the store.
    method Observe(id: string, holder: string, key: Option<Key>, resp: Response) returns (o: Observation, crashed: bool)
      requires store.Valid() && Sensible(trust)
      modifies store, store.disk
      ensures Explained(crashed)
      ensures OnlyView(id)
      ensures !crashed ==> forall j :: store.Version(j) == old(store.Version(j))
      ensures o == if holder == self then OwnObservation(old(store.Version(id))) else Classify(trust, key, id, resp)
      ensures o.status == Missing <==>
        if holder == self then old(store.Version(id)) == 0 else key.Some? && resp == NotFound
      ensures o.status == Unreachable <==>
        holder != self && key.Some? && (resp == NoAnswer || resp == OtherStatus)
      ensures o.status == Invalid <==>
        && holder != self
        && (key.None? ||
            (resp.Body? &&
             (|resp.data| > 1048576 || trust.verify(resp.data, key.value).None?
              || trust.verify(resp.data, key.value).value.memberId != id)))
      ensures o.status in {Missing, Unreachable, Invalid} ==> o.version == 0
      ensures o.status !in {Missing, Unreachable, Invalid} ==>
        && o.status == Healthy
        && o.version ==
           if holder == self then old(store.Version(id)) else trust.verify(resp.data, key.value).value.version
      ensures !crashed ==> store.Valid() && View(id) == Raised(old(View(id)), o.version)
    {
      crashed := false;
      if holder == self {
        store.VersionIsSeen(id);
        o := OwnObservation(store.Version(id));
      } else {
        o := Classify(trust, key, id, resp);
        if o.status == Healthy {
          assert Decodes(trust, resp.data, key.value);
          crashed := Note(id, o.version);
        }
      }
    }

    ghost function QuestionFor(reg: Registry, id: string, own: nat, answers: Responses): Question {
      Question(trust, MemberKey(primitives, reg, id), id, self, own, answers)
    }

    // One holder's view of a member, judged.
    ghost function Verdict(
      reg: Registry, holder: string, id: string, own: nat, answers: Responses, w: Watch, now: int): Watch {
      Observed(w, Sighting(holder, ObservationOf(QuestionFor(reg, id, own, answers), holder)), now, tolerance)
    }

    // The holder has been probed for the first n members; before is where each of them started.
    ghost predicate Asked(
      reg: Registry, holder: string, answers: Responses, now: int, before: string -> Watch, own: string -> nat, n: nat)
      reads this, store
    {
      && (forall id :: store.Version(id) == own(id))
      && forall k | 0 <= k < |reg.members| ::
        var id := reg.members[k].id;
        View(id) == if k < n then Verdict(reg, holder, id, own(id), answers, before(id), now) else before(id)
    }

    method ProbeOne(
      reg: Registry, holder: string, j: nat, answers: Responses, now: int, ghost before: string -> Watch,
      ghost own: string -> nat)
      returns (crashed: bool)
      requires store.Valid() && Sensible(trust) && DistinctIds(reg.members) && j < |reg.members|
      requires Asked(reg, holder, answers, now, before, own, j)
      modifies this, store, store.disk
      ensures Explained(crashed)
      ensures !crashed ==> store.Valid() && Asked(reg, holder, answers, now, before, own, j + 1)
    {
      var id := reg.members[j].id;
      assert View(id) == before(id);
      var o: Observation;
      o, crashed := Observe(id, holder, MemberKey(primitives, reg, id), answers(holder, id));
      if crashed {
        return;
      }
      Record(id, holder, o, now);
      forall k | 0 <= k < |reg.members| && k != j ensures View(reg.members[k].id) == old(View(reg.members[k].id)) {
        assert reg.members[k].id != id;
      }
    }

    // Probes one holder for every member.
    method ProbeHolder(
      reg: Registry, holder: string, answers: Responses, now: int, ghost before: string -> Watch,
      ghost own: string -> nat)
      returns (crashed: bool)
      requires store.Valid() && Sensible(trust) && DistinctIds(reg.members)
      requires Asked(reg, holder, answers, now, before, own, 0)
      modifies this, store, store.disk
      ensures Explained(crashed)
      ensures !crashed ==> store.Valid() && Asked(reg, holder, answers, now, before, own, |reg.members|)
    {
      crashed := false;
      for j := 0 to |reg.members|
        invariant store.Valid() && Asked(reg, holder, answers, now, before, own, j) && Explained(false)
      {
        crashed := ProbeOne(reg, holder, j, answers, now, before, own);
        if crashed {
          return;
        }
      }
    }

    // Gives freshness a baseline from the store before any holder answers.
    method NoteAll(members: seq<Member>, now: int)
      requires DistinctIds(members)
      modifies this
      ensures forall m | m in members :: View(m.id) == Started(old(View(m.id)), now)
    {
      for j := 0 to |members|
        invariant forall k | 0 <= k < |members| ::
          View(members[k].id) == if k < j then Started(old(View(members[k].id)), now) else old(View(members[k].id))
      {
        NoteVersion(members[j].id, store.SeenVersion(members[j].id), now);
      }
    }

    ghost function SightingsFor(reg: Registry, id: string, own: nat, answers: Responses, n: nat): seq<Sighting>
      requires n <= |reg.members|
    {
      SightingsOf(QuestionFor(reg, id, own, answers), reg.members, n)
    }

    // What is known of a member once the first n holders have been probed for it.
    ghost function Progress(w: Watch, reg: Registry, id: string, own: nat, answers: Responses, n: nat, now: int): Watch
      requires n <= |reg.members|
    {
      ObservedAll(w, SightingsFor(reg, id, own, answers, n), now, tolerance)
    }

    lemma {:induction false} ProgressByOne(
      w: Watch, reg: Registry, id: string, own: nat, answers: Responses, i: nat, now: int)
      requires i < |reg.members|
      ensures
        var h := reg.members[i];
        var before := Progress(w, reg, id, own, answers, i, now);
        var o := ObservationOf(QuestionFor(reg, id, own, answers), h.id);
        Progress(w, reg, id, own, answers, i + 1, now) ==
          if h.agent == "" then before else Observed(before, Sighting(h.id, o), now, tolerance)
    {
      var h := reg.members[i];
      var q := QuestionFor(reg, id, own, answers);
      if h.agent == "" {
        assert SightingsOf(q, reg.members, i) + [] == SightingsOf(q, reg.members, i);
      } else {
        ObserveOneMore(w, SightingsOf(q, reg.members, i), Sighting(h.id, ObservationOf(q, h.id)), now, tolerance);
      }
    }

    // The state of a sweep: where every member started, and that n holders have been probed.
    ghost predicate Reached(
      reg: Registry, answers: Responses, now: int, start: string -> Watch, own: string -> nat, n: nat)
      requires n <= |reg.members|
      reads this, store
    {
      && (forall id :: store.Version(id) == own(id))
      && forall k | 0 <= k < |reg.members| ::
        var id := reg.members[k].id;
        View(id) == Progress(start(id), reg, id, own(id), answers, n, now)
    }

    method ProbeNext(
      reg: Registry, i: nat, answers: Responses, now: int, ghost start: string -> Watch, ghost own: string -> nat)
      returns (crashed: bool)
      requires store.Valid() && Sensible(trust) && DistinctIds(reg.members) && i < |reg.members|
      requires Reached(reg, answers, now, start, own, i)
      modifies this, store, store.disk
      ensures Explained(crashed)
      ensures !crashed ==> store.Valid() && Reached(reg, answers, now, start, own, i + 1)
    {
      ghost var before := id => Progress(start(id), reg, id, own(id), answers, i, now);
      crashed := false;
      if reg.members[i].agent != "" {
        crashed := ProbeHolder(reg, reg.members[i].id, answers, now, before, own);
      }
      if !crashed {
        forall k | 0 <= k < |reg.members|
          ensures
            var id := reg.members[k].id;
            View(id) == Progress(start(id), reg, id, own(id), answers, i + 1, now)
        {
          var id := reg.members[k].id;
          ProgressByOne(start(id), reg, id, own(id), answers, i, now);
        }
      }
    }

    method ProbeAll(reg: Registry, answers: Responses, now: int, ghost start: string -> Watch, ghost own: string -> nat)
      returns (crashed: bool)
      requires store.Valid() && Sensible(trust) && DistinctIds(reg.members)
      requires Reached(reg, answers, now, start, own, 0)
      modifies this, store, store.disk
      ensures Explained(crashed)
      ensures !crashed ==> store.Valid() && Reached(reg, answers, now, start, own, |reg.members|)
    {
      crashed := false;
      for i := 0 to |reg.members|
        invariant store.Valid() && Reached(reg, answers, now, start, own, i) && Explained(false)
      {
        crashed := ProbeNext(reg, i, answers, now, start, own);
        if crashed {
          return;
        }
      }
    }

    method SweepAll(reg: Registry, answers: Responses, now: int, ghost start: string -> Watch, ghost own: string -> nat)
      returns (crashed: bool)
      requires store.Valid() && Sensible(trust) && DistinctIds(reg.members)
      requires Reached(reg, answers, now, start, own, 0)
      modifies this, store, store.disk
      ensures Explained(crashed)
      ensures !crashed ==>
        store.Valid() && Reached(reg, answers, now, id => Started(start(id), now), own, |reg.members|)
    {
      NoteAll(reg.members, now);
      forall k | 0 <= k < |reg.members| ensures View(reg.members[k].id) == Started(start(reg.members[k].id), now) {
        assert reg.members[k] in reg.members && old(View(reg.members[k].id)) == start(reg.members[k].id);
      }
      crashed := ProbeAll(reg, answers, now, id => Started(start(id), now), own);
    }

    // The state before a sweep, as values.
    lemma {:induction false} Snapshot(
      reg: Registry, answers: Responses, now: int) returns (start: string -> Watch, own: string -> nat)
      ensures Reached(reg, answers, now, start, own, 0)
      ensures forall m | m in reg.members :: start(m.id) == View(m.id) && own(m.id) == store.Version(m.id)
    {
      var ids := set m | m in reg.members :: m.id;
      var views := map id | id in ids :: View(id);
      start := id => if id in views then views[id] else Watch(map[], map[], 0);
      var versions := map id | id in store.members :: store.members[id].version;
      own := id => if id in versions then versions[id] else 0;
    }

    // Probes every member at every holder once.
    method Sweep(reg: Option<Registry>, answers: Responses, now: int) returns (crashed: bool)
      requires store.Valid() && Sensible(trust)
      requires reg.Some? ==> DistinctIds(reg.value.members)
      modifies this, store, store.disk
      ensures Explained(crashed)
      ensures reg.None? ==> !crashed && forall id :: View(id) == old(View(id))
      ensures !crashed ==> store.Valid()
      ensures !crashed && reg.Some? ==> forall m | m in reg.value.members ::
        var sightings := SightingsFor(reg.value, m.id, old(store.Version(m.id)), answers, |reg.value.members|);
        View(m.id) == Swept(old(View(m.id)), sightings, now, tolerance)
      ensures !crashed && reg.Some? ==>
        forall m, h | m in reg.value.members && h in reg.value.members && h.agent != "" ::
          Says(m, h, answers, old(store.Version(m.id)))
    {
      if reg.None? {
        return false;
      }
      ghost var start, own := Snapshot(reg.value, answers, now);
      crashed := SweepAll(reg.value, answers, now, start, own);
      if !crashed {
        ReachedSays(reg.value, answers, now, start, own);
      }
    }

    // The cell of holder h for member m says what h answered, or what this agent held.
    ghost predicate Says(m: Member, h: Member, answers: Responses, own: nat)
      reads this
    {
      && h.id in Cells(m.id)
      && var (status, version) := (Cells(m.id)[h.id].status, Cells(m.id)[h.id].version);
         && (h.id == self ==> SaysOfOwn(own, status, version))
         && (h.id != self ==> SaysOfAnswer(trust, OwnKey(m), m.id, answers(h.id, m.id), status, version))
    }

    lemma {:induction false} ReachedSays(
      reg: Registry, answers: Responses, now: int, start: string -> Watch, own: string -> nat)
      requires Sensible(trust) && DistinctIds(reg.members)
      requires Reached(reg, answers, now, id => Started(start(id), now), own, |reg.members|)
      ensures forall m, h | m in reg.members && h in reg.members && h.agent != "" :: Says(m, h, answers, own(m.id))
    {
      forall m, h | m in reg.members && h in reg.members && h.agent != "" ensures Says(m, h, answers, own(m.id)) {
        var k :| 0 <= k < |reg.members| && reg.members[k] == m;
        assert View(reg.members[k].id) == View(m.id);
        VerdictsSay(start(m.id), QuestionFor(reg, m.id, own(m.id), answers), reg.members, now, tolerance, h);
        OwnKeyIsAsked(reg, m);
      }
    }

    // The 32 bytes the member's listed public key decodes to.
    ghost function OwnKey(m: Member): Option<Key> {
      var b := primitives.decode64(m.publicKey);
      if b.Some? && |b.value| == 32 then b else None
    }

    lemma {:induction false} OwnKeyIsAsked(reg: Registry, m: Member)
      requires DistinctIds(reg.members) && m in reg.members
      ensures MemberKey(primitives, reg, m.id) == OwnKey(m)
    {
      LookupFindsTheOnly(reg.members, m);
    }
  }
}
