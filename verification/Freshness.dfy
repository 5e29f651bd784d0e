/**
 The freshness rule of the prober, for one member: what it has learned of versions and when, and
 how it judges each holder. A holder behind the highest known version is healthy while the grace
 window of that version is open and stale afterwards.
 */
module Freshness {
  import opened Basics

  datatype Status = Healthy | Stale | Missing | Invalid | Unreachable

  datatype Observation = Observation(status: Status, version: nat)

  datatype Cell = Cell(status: Status, version: nat, isFresh: bool, lastSeen: Option<int>)

  // When each version was first known, the last verdict on each holder, and the store's mark.
  datatype Watch = Watch(known: map<nat, int>, cells: map<string, Cell>, seen: nat)

  function Noted(known: map<nat, int>, v: nat, now: int): map<nat, int> {
    if v == 0 || v in known then known else known[v := now]
  }

  // The highest of the versions known and the store's mark.
  ghost function Highest(versions: set<nat>, seen: nat): (h: nat)
    ensures h >= seen && (forall v | v in versions :: v <= h) && (h == seen || h in versions)
    decreases |versions|
  {
    if versions == {} then seen
    else
      var v :| v in versions;
      assert forall u | u in versions :: u == v || u in versions - {v};
      Max(v, Highest(versions - {v}, seen))
  }

  lemma {:induction false} HighestIsUnique(versions: set<nat>, seen: nat, h: nat)
    requires h >= seen && (forall v | v in versions :: v <= h) && (h == seen || h in versions)
    ensures h == Highest(versions, seen)
  {
  }

  ghost function Top(w: Watch): nat {
    Highest(w.known.Keys, w.seen)
  }

  // Behind the highest version, but within the window that opened when it was first known.
  predicate InGrace(known: map<nat, int>, highest: nat, now: int, tolerance: nat) {
    highest in known && now - known[highest] <= tolerance
  }

  function Judge(
    known: map<nat, int>, highest: nat, o: Observation, before: Option<int>, now: int, tolerance: nat): Cell {
    if !o.status.Healthy? then Cell(o.status, o.version, false, if o.status.Stale? then Some(now) else before)
    else if o.version >= highest || InGrace(known, highest, now, tolerance) then
      Cell(Healthy, o.version, true, Some(now))
    else Cell(Stale, o.version, false, Some(now))
  }

  // One observation is recorded; a version in it is noted first.
  ghost function Recorded(w: Watch, holder: string, o: Observation, now: int, tolerance: nat): Watch {
    var known := Noted(w.known, o.version, now);
    var before := if holder in w.cells then w.cells[holder].lastSeen else None;
    var cell := Judge(known, Highest(known.Keys, w.seen), o, before, now, tolerance);
    Watch(known, w.cells[holder := cell], w.seen)
  }

  // The store learns of a version.
  function Raised(w: Watch, v: nat): Watch {
    w.(seen := Max(w.seen, v))
  }

  /* Sweeps */

  // Verdict input for one holder: what was observed, and whether the store was told of the version.
  datatype Sighting = Sighting(holder: string, o: Observation)

  function Started(w: Watch, now: int): Watch {
    w.(known := Noted(w.known, w.seen, now))
  }

  ghost function Observed(w: Watch, s: Sighting, now: int, tolerance: nat): Watch {
    Recorded(Raised(w, s.o.version), s.holder, s.o, now, tolerance)
  }

  ghost function ObservedAll(w: Watch, sightings: seq<Sighting>, now: int, tolerance: nat): Watch {
    if sightings == [] then w
    else
      var before := sightings[..|sightings| - 1];
      Observed(ObservedAll(w, before, now, tolerance), sightings[|sightings| - 1], now, tolerance)
  }

  // A whole sweep with nothing else touching the store meanwhile.
  ghost function Swept(w: Watch, sightings: seq<Sighting>, now: int, tolerance: nat): Watch {
    ObservedAll(Started(w, now), sightings, now, tolerance)
  }

  // Anchors are only ever added, and the highest version only ever rises.
  ghost predicate Extends(w: Watch, w': Watch) {
    && (forall v | v in w.known :: v in w'.known && w'.known[v] == w.known[v])
    && w.seen <= w'.seen
    && Top(w) <= Top(w')
  }

  lemma {:induction false} HighestGrows(versions: set<nat>, seen: nat, versions': set<nat>, seen': nat)
    requires versions <= versions' && seen <= seen'
    ensures Highest(versions, seen) <= Highest(versions', seen')
  {
  }

  lemma {:induction false} ExtendsByKnown(w: Watch, w': Watch)
    requires forall v | v in w.known :: v in w'.known && w'.known[v] == w.known[v]
    requires w.seen <= w'.seen
    ensures Extends(w, w')
  {
    HighestGrows(w.known.Keys, w.seen, w'.known.Keys, w'.seen);
  }

  lemma {:induction false} ObservedAllExtends(w: Watch, sightings: seq<Sighting>, now: int, tolerance: nat)
    ensures Extends(w, ObservedAll(w, sightings, now, tolerance))
  {
    if sightings != [] {
      var before := ObservedAll(w, sightings[..|sightings| - 1], now, tolerance);
      ObservedAllExtends(w, sightings[..|sightings| - 1], now, tolerance);
      ExtendsByKnown(before, Observed(before, sightings[|sightings| - 1], now, tolerance));
    }
  }

  lemma {:induction false} SweptExtends(w: Watch, sightings: seq<Sighting>, now: int, tolerance: nat)
    ensures Extends(w, Swept(w, sightings, now, tolerance))
  {
    ExtendsByKnown(w, Started(w, now));
    ObservedAllExtends(Started(w, now), sightings, now, tolerance);
  }

  // The highest version, if any, has its anchor.
  ghost predicate Anchored(w: Watch) {
    Top(w) == 0 || Top(w) in w.known
  }

  // The verdict on a holder fits the highest version known at the end.
  ghost predicate Fits(w: Watch, cell: Cell, now: int, tolerance: nat) {
    && (cell.isFresh <==> cell.status == Healthy)
    && (cell.status == Healthy && cell.version < Top(w) ==> InGrace(w.known, Top(w), now, tolerance))
  }

  predicate Plausible(o: Observation) {
    (o.status == Healthy && o.version > 0) || (!o.status.Healthy? && !o.status.Stale? && o.version == 0)
  }

  lemma {:induction false} ObservedFits(w: Watch, s: Sighting, now: int, tolerance: nat)
    requires Anchored(w) && Plausible(s.o)
    ensures
      var w' := Observed(w, s, now, tolerance);
      && Anchored(w')
      && Fits(w', w'.cells[s.holder], now, tolerance)
      && forall cell | Fits(w, cell, now, tolerance) :: Fits(w', cell, now, tolerance)
  {
    var w' := Observed(w, s, now, tolerance);
    ExtendsByKnown(w, w');
    if Top(w') > Top(w) {
      assert Top(w') == s.o.version && w'.known[s.o.version] == now;
    }
  }

  // After a sweep, every verdict it gave is consistent, even those given before a later holder
  // revealed a newer version.
  lemma {:induction false} SweepSoundness(w: Watch, sightings: seq<Sighting>, now: int, tolerance: nat, k: nat)
    requires forall s | s in sightings :: Plausible(s.o)
    requires k < |sightings|
    ensures
      var w' := Swept(w, sightings, now, tolerance);
      sightings[k].holder in w'.cells && Fits(w', w'.cells[sightings[k].holder], now, tolerance)
  {
    AllFit(Started(w, now), sightings, now, tolerance);
  }

  lemma {:induction false} AllFit(w: Watch, sightings: seq<Sighting>, now: int, tolerance: nat)
    requires Anchored(w) && forall s | s in sightings :: Plausible(s.o)
    ensures
      var w' := ObservedAll(w, sightings, now, tolerance);
      Anchored(w') && forall k | 0 <= k < |sightings| ::
        sightings[k].holder in w'.cells && Fits(w', w'.cells[sightings[k].holder], now, tolerance)
  {
    if sightings != [] {
      var before, last := sightings[..|sightings| - 1], sightings[|sightings| - 1];
      var mid := ObservedAll(w, before, now, tolerance);
      AllFit(w, before, now, tolerance);
      ObservedFits(mid, last, now, tolerance);
      var w' := ObservedAll(w, sightings, now, tolerance);
      forall k | 0 <= k < |sightings|
        ensures sightings[k].holder in w'.cells && Fits(w', w'.cells[sightings[k].holder], now, tolerance)
      {
        if sightings[k].holder != last.holder {
          assert before[k] == sightings[k];
          assert Fits(mid, mid.cells[before[k].holder], now, tolerance);
        }
      }
    }
  }

  /* Runs of sweeps */

  datatype Sweep = Sweep(now: int, learned: nat, sightings: seq<Sighting>)

  // Between sweeps the store may learn of versions from elsewhere.
  ghost function AfterSweep(w: Watch, s: Sweep, tolerance: nat): Watch {
    Swept(Raised(w, s.learned), s.sightings, s.now, tolerance)
  }

  // run[i] is what is known before sweep i, run[i + 1] what is known after it.
  ghost predicate Ran(run: seq<Watch>, sweeps: seq<Sweep>, tolerance: nat) {
    && |run| == |sweeps| + 1
    && forall i | 0 <= i < |sweeps| :: run[i + 1] == AfterSweep(run[i], sweeps[i], tolerance)
  }

  lemma {:induction false} AfterSweepExtends(w: Watch, s: Sweep, tolerance: nat)
    ensures Extends(w, AfterSweep(w, s, tolerance)) && Extends(Raised(w, s.learned), AfterSweep(w, s, tolerance))
  {
    SweptExtends(Raised(w, s.learned), s.sightings, s.now, tolerance);
    ExtendsByKnown(w, AfterSweep(w, s, tolerance));
  }

  // Over any run of sweeps anchors never change and the highest known version never falls.
  lemma {:induction false} AnchorsAreFixed(run: seq<Watch>, sweeps: seq<Sweep>, tolerance: nat, i: nat, j: nat)
    requires Ran(run, sweeps, tolerance) && i <= j < |run|
    ensures Extends(run[i], run[j])
    decreases j
  {
    if i == j {
      ExtendsByKnown(run[i], run[i]);
    } else {
      AnchorsAreFixed(run, sweeps, tolerance, i, j - 1);
      AfterSweepExtends(run[j - 1], sweeps[j - 1], tolerance);
      ExtendsByKnown(run[i], run[j]);
    }
  }

  predicate DistinctHolders(sightings: seq<Sighting>) {
    forall i, j | 0 <= i < j < |sightings| :: sightings[i].holder != sightings[j].holder
  }

  // In a sweep that learns nothing newer, the verdict on a lagging holder depends on the clock only.
  lemma {:induction false} VerdictByClock(
    w: Watch, sightings: seq<Sighting>, now: int, tolerance: nat, k: nat, top: nat)
    requires DistinctHolders(sightings) && k < |sightings|
    requires top in w.known && Top(w) == top && Top(ObservedAll(w, sightings, now, tolerance)) == top
    requires sightings[k].o.status == Healthy && 0 < sightings[k].o.version < top
    ensures
      var w' := ObservedAll(w, sightings, now, tolerance);
      ByClock(w', sightings[k].holder, top, now, tolerance) && w'.known[top] == w.known[top]
    decreases |sightings|
  {
    var before, last := sightings[..|sightings| - 1], sightings[|sightings| - 1];
    var mid, w' := ObservedAll(w, before, now, tolerance), ObservedAll(w, sightings, now, tolerance);
    ObservedAllExtends(w, before, now, tolerance);
    ExtendsByKnown(mid, w');
    if k < |before| {
      assert before[k] == sightings[k];
      VerdictByClock(w, before, now, tolerance, k, top);
      ByClockStays(mid, last, sightings[k].holder, now, tolerance, top);
    } else {
      LagByClock(mid, last, now, tolerance, top);
    }
  }

  lemma {:induction false} ByClockStays(w: Watch, s: Sighting, holder: string, now: int, tolerance: nat, top: nat)
    requires ByClock(w, holder, top, now, tolerance) && holder != s.holder
    ensures ByClock(Observed(w, s, now, tolerance), holder, top, now, tolerance)
    ensures Observed(w, s, now, tolerance).known[top] == w.known[top]
  {
  }

  lemma {:induction false} LagByClock(w: Watch, s: Sighting, now: int, tolerance: nat, top: nat)
    requires top in w.known && Top(Observed(w, s, now, tolerance)) == top
    requires s.o.status == Healthy && 0 < s.o.version < top
    ensures ByClock(Observed(w, s, now, tolerance), s.holder, top, now, tolerance)
    ensures Observed(w, s, now, tolerance).known[top] == w.known[top]
  {
  }

  // The window closes once. While the highest known version stays the same, a holder that keeps
  // answering at one lower version is healthy up to the end of the window, stale after it, and
  // never healthy again.
  lemma {:induction false} GraceWindow(
    run: seq<Watch>, sweeps: seq<Sweep>, tolerance: nat, i: nat, j: nat, holder: string, version: nat, top: nat)
    requires Ran(run, sweeps, tolerance) && i <= j < |sweeps| && sweeps[i].now <= sweeps[j].now
    requires Lags(sweeps[i], holder, version) && Lags(sweeps[j], holder, version) && version < top
    requires Top(Raised(run[i], sweeps[i].learned)) == top == Top(run[j + 1])
    ensures ByClock(run[i + 1], holder, top, sweeps[i].now, tolerance)
    ensures ByClock(run[j + 1], holder, top, sweeps[j].now, tolerance)
    ensures run[i + 1].known[top] == run[j + 1].known[top]
    ensures run[i + 1].cells[holder].status == Stale ==> run[j + 1].cells[holder].status == Stale
  {
    TopStays(run, sweeps, tolerance, i, j, top);
    OneSweepAtTop(run[i], sweeps[i], tolerance, holder, version, top);
    OneSweepAtTop(run[j], sweeps[j], tolerance, holder, version, top);
    AnchorsAreFixed(run, sweeps, tolerance, i + 1, j + 1);
    StaleForGood(run[i + 1], run[j + 1], holder, top, sweeps[i].now, sweeps[j].now, tolerance);
  }

  // The sweep sees the holder, once, and it answers at this version.
  ghost predicate Lags(s: Sweep, holder: string, version: nat) {
    && version > 0 && DistinctHolders(s.sightings)
    && Sighting(holder, Observation(Healthy, version)) in s.sightings
  }

  // The verdict on a lagging holder follows from the anchor of the highest version and the clock.
  ghost predicate ByClock(w: Watch, holder: string, top: nat, now: int, tolerance: nat) {
    && top in w.known && holder in w.cells
    && w.cells[holder].status == if now - w.known[top] <= tolerance then Healthy else Stale
  }

  lemma {:induction false} StaleForGood(
    wi: Watch, wj: Watch, holder: string, top: nat, now: int, later: int, tolerance: nat)
    requires Extends(wi, wj) && now <= later
    requires ByClock(wi, holder, top, now, tolerance) && ByClock(wj, holder, top, later, tolerance)
    ensures wi.known[top] == wj.known[top]
    ensures wi.cells[holder].status == Stale ==> wj.cells[holder].status == Stale
  {
  }

  // The highest version is the same throughout.
  lemma {:induction false} TopStays(run: seq<Watch>, sweeps: seq<Sweep>, tolerance: nat, i: nat, j: nat, top: nat)
    requires Ran(run, sweeps, tolerance) && i <= j < |sweeps|
    requires Top(Raised(run[i], sweeps[i].learned)) == top == Top(run[j + 1])
    ensures Top(run[i + 1]) == top && Top(Raised(run[j], sweeps[j].learned)) == top
  {
    AfterSweepExtends(run[i], sweeps[i], tolerance);
    AfterSweepExtends(run[j], sweeps[j], tolerance);
    AnchorsAreFixed(run, sweeps, tolerance, i + 1, j + 1);
    if i < j {
      AnchorsAreFixed(run, sweeps, tolerance, i + 1, j);
      ExtendsByKnown(run[j], Raised(run[j], sweeps[j].learned));
    }
  }

  lemma {:induction false} OneSweepAtTop(w: Watch, s: Sweep, tolerance: nat, holder: string, version: nat, top: nat)
    requires Lags(s, holder, version) && version < top
    requires Top(Raised(w, s.learned)) == top && Top(AfterSweep(w, s, tolerance)) == top
    ensures ByClock(AfterSweep(w, s, tolerance), holder, top, s.now, tolerance)
  {
    var k :| 0 <= k < |s.sightings| && s.sightings[k] == Sighting(holder, Observation(Healthy, version));
    var raised := Raised(w, s.learned);
    var started := Started(raised, s.now);
    ExtendsByKnown(raised, started);
    ObservedAllExtends(started, s.sightings, s.now, tolerance);
    assert top in started.known;
    VerdictByClock(started, s.sightings, s.now, tolerance, k, top);
  }

  // What a record says: the version and a status that is the observed one but for lagging, the time
  // of the last valid answer, and nothing about other holders.
  lemma {:induction false} RecordedSays(w: Watch, holder: string, o: Observation, now: int, tolerance: nat)
    requires Plausible(o)
    ensures
      var w' := Recorded(w, holder, o, now, tolerance);
      && holder in w'.cells && w'.cells[holder].version == o.version
      && (o.status == Healthy <==> w'.cells[holder].status in {Healthy, Stale})
      && (o.status != Healthy ==> w'.cells[holder].status == o.status)
      && (o.status == Healthy ==> w'.cells[holder].lastSeen == Some(now))
      && (o.status != Healthy ==>
            w'.cells[holder].lastSeen == if holder in w.cells then w.cells[holder].lastSeen else None)
      && (forall h | h != holder :: h in w'.cells <==> h in w.cells)
      && (forall h | h != holder && h in w.cells :: w'.cells[h] == w.cells[h])
      && w'.known.Keys == w.known.Keys + if o.version > 0 then {o.version} else {}
  {
  }

  // What a sweep leaves of an observation: its version, and its status but for lagging. Holders that
  // come later do not change it.
  lemma {:induction false} CellAfter(w: Watch, sightings: seq<Sighting>, now: int, tolerance: nat, k: nat)
    requires DistinctHolders(sightings) && k < |sightings| && Plausible(sightings[k].o)
    ensures
      var (cells, s) := (ObservedAll(w, sightings, now, tolerance).cells, sightings[k]);
      && s.holder in cells && cells[s.holder].version == s.o.version
      && (s.o.status == Healthy <==> cells[s.holder].status in {Healthy, Stale})
      && (s.o.status != Healthy ==> cells[s.holder].status == s.o.status)
    decreases |sightings|
  {
    var before, last := sightings[..|sightings| - 1], sightings[|sightings| - 1];
    if k < |before| {
      assert before[k] == sightings[k];
      CellAfter(w, before, now, tolerance, k);
    } else {
      RecordedSays(Raised(ObservedAll(w, before, now, tolerance), last.o.version), last.holder, last.o, now, tolerance);
    }
  }

  /* Interference */

  // Whether a holder is called stale can be told before it is recorded: it lags behind the highest
  // version known, and that version's window is not open, because it has no anchor or an old one.
  lemma {:induction false} StaleExactly(w: Watch, holder: string, o: Observation, now: int, tolerance: nat)
    requires o.status == Healthy && o.version > 0
    ensures Recorded(w, holder, o, now, tolerance).cells[holder].status == Stale
      <==> o.version < Top(w) && !InGrace(w.known, Top(w), now, tolerance)
  {
    var w' := Recorded(w, holder, o, now, tolerance);
    ExtendsByKnown(w, w');
    if o.version <= Top(w) {
      HighestIsUnique(w'.known.Keys, w.seen, Top(w));
    }
  }

  // If the fetcher notes version 2 in the middle of a sweep, a holder still at 1 is called stale at
  // once, although 2 has only just been learned.
  lemma {:induction false} NoGraceWithoutAnchor(now: int, tolerance: nat)
    ensures
      var w := Raised(Started(Watch(map[1 := now], map[], 1), now), 2);
      Recorded(w, "b", Observation(Healthy, 1), now, tolerance).cells["b"].status == Stale
  {
    var w := Raised(Started(Watch(map[1 := now], map[], 1), now), 2);
    assert Noted(w.known, 1, now) == map[1 := now];
  }
}
