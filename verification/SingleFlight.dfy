/** Concurrent loads of one case share a single database load. The functions between two `await`s
    run as one step; the shared map holds the loads that have not been cleaned up yet. */
module SingleFlight {
  import opened Text

  type LoadId = nat

  /** A load settles with an outcome, then its clean-up runs, and only then do its callers resume. */
  datatype Phase<Outcome> = Running | Settled(outcome: Outcome) | Finished(outcome: Outcome)

  datatype Load<Outcome> = Load(firm: string, caseId: string, role: string, phase: Phase<Outcome>)

  /** A caller waits for the promise of one load. */
  datatype Caller = Caller(firm: string, caseId: string, role: string, load: LoadId)

  datatype State<Outcome> = State(inFlight: map<string, LoadId>, loads: seq<Load<Outcome>>, callers: seq<Caller>)

  datatype Event<Outcome> =
    | Arrive(firm: string, caseId: string, role: string)
    | Settle(load: LoadId, result: Outcome)
    | CleanUp(load: LoadId)

  function LoadKey(firm: string, caseId: string): string {
    firm + ":" + Trim(caseId)
  }

  // ---------------------------------------------------------------- steps

  function Arrival<Outcome>(s: State<Outcome>, firm: string, caseId: string, role: string): State<Outcome> {
    var key := LoadKey(firm, caseId);
    if key in s.inFlight then
      s.(callers := s.callers + [Caller(firm, caseId, role, s.inFlight[key])])
    else
      State(s.inFlight[key := |s.loads|],
            s.loads + [Load(firm, caseId, role, Running)],
            s.callers + [Caller(firm, caseId, role, |s.loads|)])
  }

  function Step<Outcome>(s: State<Outcome>, e: Event<Outcome>): State<Outcome> {
    match e
    case Arrive(firm, caseId, role) => Arrival(s, firm, caseId, role)
    case Settle(l, result) =>
      if l < |s.loads| && s.loads[l].phase.Running?
      then s.(loads := s.loads[l := s.loads[l].(phase := Settled(result))])
      else s
    case CleanUp(l) =>
      if l < |s.loads| && s.loads[l].phase.Settled?
      then s.(inFlight := s.inFlight - {LoadKey(s.loads[l].firm, s.loads[l].caseId)},
              loads := s.loads[l := s.loads[l].(phase := Finished(s.loads[l].phase.outcome))])
      else s
  }

  function Run<Outcome>(events: seq<Event<Outcome>>): State<Outcome> {
    if events == [] then State(map[], [], []) else Step(Run(events[..|events| - 1]), events[|events| - 1])
  }

  /** The controller's map, with the loads and the callers it serves. */
  class Coalescer<Outcome> {
    var inFlight: map<string, LoadId>
    var loads: seq<Load<Outcome>>
    var callers: seq<Caller>

    function Value(): State<Outcome>
      reads this
    {
      State(inFlight, loads, callers)
    }

    constructor ()
      ensures Value() == State(map[], [], [])
    {
      inFlight, loads, callers := map[], [], [];
    }

    /** loadCaseRecordCoalesced, up to the promise it returns. */
    method LoadCaseRecord(firm: string, caseId: string, role: string) returns (promise: LoadId)
      modifies this
      ensures Value() == Step(old(Value()), Arrive(firm, caseId, role))
      ensures |callers| == |old(callers)| + 1 && callers[|old(callers)|].load == promise
    {
      var key := LoadKey(firm, caseId);
      if key in inFlight {
        promise := inFlight[key];
      } else {
        promise := |loads|;
        loads := loads + [Load(firm, caseId, role, Running)];
        inFlight := inFlight[key := promise];
      }
      callers := callers + [Caller(firm, caseId, role, promise)];
    }

    /** The load's own queries are over, with a record, none, or an error. */
    method SettleLoad(l: LoadId, result: Outcome)
      requires l < |loads| && loads[l].phase.Running?
      modifies this
      ensures Value() == Step(old(Value()), Settle(l, result))
    {
      loads := loads[l := loads[l].(phase := Settled(result))];
    }

    /** The `finally` of a load, after which its callers resume. */
    method CleanUpLoad(l: LoadId) returns (outcome: Outcome)
      requires l < |loads| && loads[l].phase.Settled?
      modifies this
      ensures Value() == Step(old(Value()), CleanUp(l))
      ensures loads[l].phase == Finished(outcome)
    {
      var load := loads[l];
      outcome := load.phase.outcome;
      inFlight := inFlight - {LoadKey(load.firm, load.caseId)};
      loads := loads[l := load.(phase := Finished(outcome))];
    }
  }

  // ---------------------------------------------------------------- the invariant

  predicate Unfinished<Outcome>(s: State<Outcome>, l: LoadId) {
    l < |s.loads| && !s.loads[l].phase.Finished?
  }

  function KeyOf<Outcome>(s: State<Outcome>, l: LoadId): string
    requires l < |s.loads|
  {
    LoadKey(s.loads[l].firm, s.loads[l].caseId)
  }

  /** The map holds exactly the unfinished loads, each under its own key. */
  ghost predicate Exact<Outcome>(s: State<Outcome>) {
    && (forall k :: k in s.inFlight ==> Unfinished(s, s.inFlight[k]) && KeyOf(s, s.inFlight[k]) == k)
    && (forall l: LoadId :: Unfinished(s, l) ==> KeyOf(s, l) in s.inFlight && s.inFlight[KeyOf(s, l)] == l)
  }

  ghost predicate Served<Outcome>(s: State<Outcome>) {
    forall c :: 0 <= c < |s.callers| ==>
      s.callers[c].load < |s.loads| && KeyOf(s, s.callers[c].load) == LoadKey(s.callers[c].firm, s.callers[c].caseId)
  }

  lemma ArrivalKeeps<Outcome>(s: State<Outcome>, firm: string, caseId: string, role: string)
    requires Exact(s) && Served(s)
    ensures Exact(Arrival(s, firm, caseId, role)) && Served(Arrival(s, firm, caseId, role))
  {
    hide LoadKey;
    var t := Arrival(s, firm, caseId, role);
    forall l: LoadId | l < |s.loads| ensures t.loads[l] == s.loads[l] && (Unfinished(t, l) <==> Unfinished(s, l)) {}
  }

  lemma SettleKeeps<Outcome>(s: State<Outcome>, l: LoadId, result: Outcome)
    requires Exact(s) && Served(s)
    ensures Exact(Step(s, Settle(l, result))) && Served(Step(s, Settle(l, result)))
  {
    hide LoadKey;
    var t := Step(s, Settle(l, result));
    forall m: LoadId | m < |s.loads| ensures KeyOf(t, m) == KeyOf(s, m) && (Unfinished(t, m) <==> Unfinished(s, m)) {}
  }

  lemma CleanUpKeeps<Outcome>(s: State<Outcome>, l: LoadId)
    requires Exact(s) && Served(s)
    ensures Exact(Step(s, CleanUp(l))) && Served(Step(s, CleanUp(l)))
  {
    hide LoadKey;
    if l < |s.loads| && s.loads[l].phase.Settled? {
      var t := Step(s, CleanUp(l));
      assert Unfinished(s, l);
      forall m: LoadId | m < |s.loads|
        ensures KeyOf(t, m) == KeyOf(s, m) && (Unfinished(t, m) <==> Unfinished(s, m) && m != l)
      {}
      forall m: LoadId | Unfinished(t, m) ensures KeyOf(t, m) in t.inFlight && t.inFlight[KeyOf(t, m)] == m {
        assert Unfinished(s, m);
      }
    }
  }

  /** In every reachable state the keys of the map are exactly those of the unfinished loads, one load
      for each key, and every caller waits for a load of its own key. */
  lemma {:induction false} MapIsExact<Outcome>(events: seq<Event<Outcome>>)
    ensures Exact(Run(events)) && Served(Run(events))
    decreases |events|
  {
    if events != [] {
      MapIsExact(events[..|events| - 1]);
      var before := Run(events[..|events| - 1]);
      match events[|events| - 1] {
        case Arrive(firm, caseId, role) => ArrivalKeeps(before, firm, caseId, role);
        case Settle(l, result) => SettleKeeps(before, l, result);
        case CleanUp(l) => CleanUpKeeps(before, l);
      }
    }
  }

  lemma OneLoadPerKey<Outcome>(events: seq<Event<Outcome>>, a: LoadId, b: LoadId)
    requires Unfinished(Run(events), a) && Unfinished(Run(events), b) && a != b
    ensures KeyOf(Run(events), a) != KeyOf(Run(events), b)
  {
    MapIsExact(events);
  }

  /** The map is empty exactly when every load has finished. */
  lemma EmptyWhenAllFinished<Outcome>(events: seq<Event<Outcome>>)
    ensures var s := Run(events);
      s.inFlight == map[] <==> forall l: LoadId :: l < |s.loads| ==> s.loads[l].phase.Finished?
  {
    var s := Run(events);
    MapIsExact(events);
    assert forall k :: k in s.inFlight ==> Unfinished(s, s.inFlight[k]);
    assert forall l: LoadId :: Unfinished(s, l) <==> l < |s.loads| && !s.loads[l].phase.Finished?;
    if exists l: LoadId :: Unfinished(s, l) {
      var l: LoadId :| Unfinished(s, l);
      assert KeyOf(s, l) in s.inFlight && !s.loads[l].phase.Finished?;
    } else {
      assert s.inFlight.Keys == {};
    }
  }

  /** A clean-up takes its own load's entry out of the map and touches no other. */
  lemma CleanUpRemovesItsOwn<Outcome>(events: seq<Event<Outcome>>, l: LoadId)
    requires l < |Run(events).loads| && Run(events).loads[l].phase.Settled?
    ensures var s := Run(events);
      var t := Step(s, CleanUp(l));
      && KeyOf(s, l) in s.inFlight && s.inFlight[KeyOf(s, l)] == l
      && (forall k :: k in t.inFlight <==> k in s.inFlight && s.inFlight[k] != l)
      && (forall k :: k in t.inFlight ==> t.inFlight[k] == s.inFlight[k])
  {
    hide LoadKey;
    var s := Run(events);
    MapIsExact(events);
    assert Unfinished(s, l);
  }

  /** An arrival starts a load exactly when none is unfinished for its key; either way it waits for an
      unfinished one. */
  lemma ArrivalStartsOnlyWhenNeeded<Outcome>(events: seq<Event<Outcome>>, firm: string, caseId: string, role: string)
    ensures var s := Run(events);
      var t := Step(s, Arrive(firm, caseId, role));
      && (|t.loads| > |s.loads| <==> forall l: LoadId :: Unfinished(s, l) ==> KeyOf(s, l) != LoadKey(firm, caseId))
      && (|t.loads| > |s.loads| ==> t.loads == s.loads + [Load(firm, caseId, role, Running)])
      && |t.callers| == |s.callers| + 1
      && t.callers[|s.callers|] == Caller(firm, caseId, role, t.callers[|s.callers|].load)
      && Unfinished(t, t.callers[|s.callers|].load)
  {
    hide LoadKey;
    var s := Run(events);
    MapIsExact(events);
    var key := LoadKey(firm, caseId);
    if key in s.inFlight {
      assert Unfinished(s, s.inFlight[key]) && KeyOf(s, s.inFlight[key]) == key;
    }
  }

  // ---------------------------------------------------------------- what callers receive

  ghost predicate Grew<Outcome>(s: State<Outcome>, t: State<Outcome>) {
    && |s.loads| <= |t.loads| && |s.callers| <= |t.callers|
    && (forall c :: 0 <= c < |s.callers| ==> t.callers[c] == s.callers[c])
    && (forall l: LoadId :: l < |s.loads| ==>
          && t.loads[l].firm == s.loads[l].firm && t.loads[l].caseId == s.loads[l].caseId
          && (s.loads[l].phase.Finished? ==> t.loads[l].phase == s.loads[l].phase)
          && (!s.loads[l].phase.Running? ==>
                !t.loads[l].phase.Running? && t.loads[l].phase.outcome == s.loads[l].phase.outcome))
  }

  lemma StepGrows<Outcome>(s: State<Outcome>, t: State<Outcome>, e: Event<Outcome>)
    requires Grew(s, t)
    ensures Grew(s, Step(t, e))
  {
    hide LoadKey;
  }

  /** No step changes what a caller waits for, what a load is of, or an outcome handed out. */
  lemma {:induction false} RunGrows<Outcome>(events: seq<Event<Outcome>>, i: nat)
    requires i <= |events|
    ensures Grew(Run(events[..i]), Run(events))
    decreases |events|
  {
    assert Grew(Run(events), Run(events));
    hide Step, Grew;
    if i < |events| {
      var n := |events| - 1;
      RunGrows(events[..n], i);
      assert events[..n][..i] == events[..i];
      StepGrows(Run(events[..i]), Run(events[..n]), events[n]);
    } else {
      assert events[..i] == events;
    }
  }

  /** Whatever happens after a call, what it receives is the outcome of one load, of its own firm and
      its own trimmed case id, and that load was unfinished when the call arrived. */
  lemma ServedByOwnLoad<Outcome>(events: seq<Event<Outcome>>, i: nat)
    requires i < |events| && events[i].Arrive?
    requires forall k :: 0 <= k < |events| && events[k].Arrive? ==> ':' !in events[k].firm
    ensures var c := |Run(events[..i]).callers|;
      var s := Run(events);
      && c < |s.callers| && s.callers[c].load < |s.loads|
      && s.loads[s.callers[c].load].firm == events[i].firm
      && Trim(s.loads[s.callers[c].load].caseId) == Trim(events[i].caseId)
      && Unfinished(Run(events[..i + 1]), s.callers[c].load)
  {
    hide Trim, LoadKey;
    var before := Run(events[..i]);
    var c := |before.callers|;
    assert events[..i + 1][..i] == events[..i];
    var at := Run(events[..i + 1]);
    ArrivalStartsOnlyWhenNeeded(events[..i], events[i].firm, events[i].caseId, events[i].role);
    RunGrows(events, i + 1);
    MapIsExact(events);
    var s := Run(events);
    var l := s.callers[c].load;
    LoadsComeFromArrivals(events, l);
    SameKey(s.loads[l].firm, s.loads[l].caseId, events[i].firm, events[i].caseId);
  }

  /** And that outcome is what the load's queries gave when they were over, whatever happened since. */
  lemma OutcomeIsKept<Outcome>(events: seq<Event<Outcome>>, i: nat)
    requires i < |events| && events[i].Settle?
    requires var s, l := Run(events[..i]), events[i].load; l < |s.loads| && s.loads[l].phase.Running?
    ensures var s, l := Run(events), events[i].load;
      l < |s.loads| && !s.loads[l].phase.Running? && s.loads[l].phase.outcome == events[i].result
  {
    assert events[..i + 1][..i] == events[..i];
    RunGrows(events, i + 1);
  }

  lemma {:induction false} LoadsComeFromArrivals<Outcome>(events: seq<Event<Outcome>>, l: LoadId)
    requires l < |Run(events).loads|
    ensures exists k :: 0 <= k < |events| && events[k].Arrive? && events[k].firm == Run(events).loads[l].firm
    decreases |events|
  {
    hide LoadKey;
    var n := |events| - 1;
    var before := Run(events[..n]);
    if l < |before.loads| {
      LoadsComeFromArrivals(events[..n], l);
      var k :| 0 <= k < n && events[..n][k].Arrive? && events[..n][k].firm == before.loads[l].firm;
      assert events[k].firm == Run(events).loads[l].firm;
    } else {
      assert events[n].Arrive?;
    }
  }

  // ---------------------------------------------------------------- keys

  lemma PartsOfKey(firm: string, rest: string, other: string, tail: string)
    requires firm + ":" + rest == other + ":" + tail && |firm| <= |other|
    ensures if |firm| == |other| then firm == other && rest == tail
      else other[..|firm|] == firm && other[|firm|] == ':' && rest == other[|firm| + 1..] + ":" + tail
  {
    var a := firm + ":" + rest;
    assert a[..|firm|] == firm && a[|firm|] == ':' && a[|firm| + 1..] == rest;
    var b := other + ":" + tail;
    assert b[..|other|] == other && b[|other| + 1..] == tail;
    if |firm| < |other| {
      assert b[..|firm|] == other[..|firm|] && b[|firm|] == other[|firm|];
      assert b[|firm| + 1..] == other[|firm| + 1..] + ":" + tail;
    }
  }

  /** A key tells its firm and trimmed case id apart when firm ids hold no colon. */
  lemma SameKey(firm: string, caseId: string, other: string, otherId: string)
    requires ':' !in firm && ':' !in other && LoadKey(firm, caseId) == LoadKey(other, otherId)
    ensures firm == other && Trim(caseId) == Trim(otherId)
  {
    hide Trim;
    if |firm| <= |other| {
      PartsOfKey(firm, Trim(caseId), other, Trim(otherId));
    } else {
      PartsOfKey(other, Trim(otherId), firm, Trim(caseId));
    }
  }

  ghost predicate Collide(firm: string, other: string) {
    exists caseId, otherId :: LoadKey(firm, caseId) == LoadKey(other, otherId)
  }

  lemma CollidingKeys(firm: string, caseId: string, other: string, otherId: string)
    requires |firm| < |other| && LoadKey(firm, caseId) == LoadKey(other, otherId)
    ensures firm + ":" <= other && (|firm| + 1 < |other| ==> !IsSpace(other[|firm| + 1]))
  {
    hide Trim, IsSpace;
    PartsOfKey(firm, Trim(caseId), other, Trim(otherId));
    TrimIsTrimmed(caseId);
    assert Trimmed(other[|firm| + 1..] + ":" + Trim(otherId));
  }

  /** Two firms' keys can coincide exactly when the longer firm id continues the shorter one with a
      colon and no white space right after it. */
  lemma KeysCollideExactly(firm: string, other: string)
    requires |firm| < |other|
    ensures Collide(firm, other)
      <==> firm + ":" <= other && (|firm| + 1 < |other| ==> !IsSpace(other[|firm| + 1]))
  {
    hide LoadKey, IsSpace;
    if Collide(firm, other) {
      var caseId, otherId :| LoadKey(firm, caseId) == LoadKey(other, otherId);
      CollidingKeys(firm, caseId, other, otherId);
    }
    if firm + ":" <= other && (|firm| + 1 < |other| ==> !IsSpace(other[|firm| + 1])) {
      var caseId := CollidingCase(firm, other);
      assert LoadKey(firm, caseId) == LoadKey(other, "x");
    }
  }

  lemma CollidingCase(firm: string, other: string) returns (caseId: string)
    requires firm + ":" <= other && (|firm| + 1 < |other| ==> !IsSpace(other[|firm| + 1]))
    ensures LoadKey(firm, caseId) == LoadKey(other, "x")
  {
    hide Trim;
    var rest := other[|firm| + 1..];
    assert other == firm + ":" + rest;
    caseId := rest + ":x";
    TrimIsTrimmed("x");
    assert Trimmed(caseId);
    TrimIsTrimmed(caseId);
    assert firm + ":" + (rest + ":x") == (firm + ":" + rest) + ":" + "x";
  }
}
