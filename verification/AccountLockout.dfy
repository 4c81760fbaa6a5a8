/** Account lockout under concurrent wrong-password requests. A request computes its lock expiry,
    increments the failure counter atomically, decides on what the increment returned, and possibly
    sets the lock by a second update; requests interleave between these steps. */
module AccountLockout {
  import opened Options

  type RequestId = nat

  /** MAX_FAILED_ATTEMPTS, LOCK_TIME in milliseconds, and a bound on how long a request lasts. */
  datatype Config = Config(max: nat, lockTime: nat, patience: nat)

  datatype Reply = Locked | Remaining(attempts: nat)

  datatype Phase =
    | Started(startedAt: nat)                                       // lock expiry computed
    | Counted(startedAt: nat, count: nat, seen: Option<nat>)        // increment returned
    | Locking(startedAt: nat, count: nat)                           // about to set the lock
    | LockSet(startedAt: nat, count: nat, until: nat, setAt: nat)   // second update returned
    | Answered(count: nat, reply: Reply, at: nat, relied: Option<nat>, stored: Option<nat>)

  /** The account's counter and lock, the clock, the requests, and when the lock was last written. An
      answer keeps the lock it relied on and the one stored. */
  datatype State = State(attempts: nat, lockUntil: Option<nat>, clock: nat, requests: map<RequestId, Phase>,
                         lastSet: Option<nat>)

  datatype Event = Tick(ms: nat) | Start(r: RequestId) | Increment(r: RequestId) | Examine(r: RequestId)
                 | SetLock(r: RequestId) | Respond(r: RequestId)

  predicate Active(lock: Option<nat>, now: nat) {
    lock.Some? && lock.value > now
  }

  predicate InFlight(p: Phase) {
    !p.Answered?
  }

  /** The reply, given the counter and the lock last returned. */
  function Answer(cfg: Config, count: nat, lock: Option<nat>, now: nat, stored: Option<nat>): Phase {
    var reply := if Active(lock, now) && count >= cfg.max then Locked
                 else Remaining(if count < cfg.max then cfg.max - count else 0);
    Answered(count, reply, now, lock, stored)
  }

  /** Time passes only while no request under way outlasts `patience`. */
  predicate MayTick(cfg: Config, s: State, ms: nat) {
    forall r :: r in s.requests && InFlight(s.requests[r]) ==> s.clock + ms < s.requests[r].startedAt + cfg.patience
  }

  /** One step; an event that cannot happen in `s` changes nothing. */
  function Step(cfg: Config, s: State, e: Event): State {
    match e
    case Tick(ms) => if MayTick(cfg, s, ms) then s.(clock := s.clock + ms) else s
    case Start(r) => if r in s.requests then s else s.(requests := s.requests[r := Started(s.clock)])
    case Increment(r) =>
      if r !in s.requests || !s.requests[r].Started? then s
      else s.(attempts := s.attempts + 1,
              requests := s.requests[r := Counted(s.requests[r].startedAt, s.attempts + 1, s.lockUntil)])
    case Examine(r) =>
      if r !in s.requests || !s.requests[r].Counted? then s
      else
        var Counted(startedAt, count, seen) := s.requests[r];
        s.(requests := s.requests[r :=
          if count >= cfg.max && !Active(seen, s.clock) then Locking(startedAt, count)
          else Answer(cfg, count, seen, s.clock, s.lockUntil)])
    case SetLock(r) =>
      if r !in s.requests || !s.requests[r].Locking? then s
      else
        var Locking(startedAt, count) := s.requests[r];
        var until := startedAt + cfg.lockTime;
        s.(lockUntil := Some(until), lastSet := Some(s.clock),
           requests := s.requests[r := LockSet(startedAt, count, until, s.clock)])
    case Respond(r) =>
      if r !in s.requests || !s.requests[r].LockSet? then s
      else s.(requests := s.requests[r :=
             Answer(cfg, s.requests[r].count, Some(s.requests[r].until), s.clock, s.lockUntil)])
  }

  function Run(cfg: Config, s: State, events: seq<Event>): State {
    if events == [] then s else Step(cfg, Run(cfg, s, events[..|events| - 1]), events[|events| - 1])
  }

  /** A start with any counter and any lock, and no request under way. */
  predicate Initial(s: State) {
    s.requests == map[] && s.lastSet.None?
  }

  // ---------------------------------------------------------------- the invariant

  predicate HasCount(p: Phase) {
    !p.Started?
  }

  /** The requests whose increment has reached the database. */
  function Incremented(s: State): set<RequestId> {
    set r | r in s.requests && HasCount(s.requests[r])
  }

  /** The counter: it has moved by one for each of those requests, and no count was handed out twice. */
  ghost predicate Counting(base: nat, s: State) {
    && s.attempts == base + |Incremented(s)|
    && (forall r :: r in s.requests && HasCount(s.requests[r]) ==> base < s.requests[r].count <= s.attempts)
    && (forall r, q | r in s.requests && q in s.requests && r != q ::
          HasCount(s.requests[r]) && HasCount(s.requests[q]) ==> s.requests[r].count != s.requests[q].count)
  }

  /** The lock outlasts any two requests one of which was under way when the other began. */
  predicate Outlasts(cfg: Config) {
    2 * cfg.patience <= cfg.lockTime + 1
  }

  /** What each phase has established about time and about the lock. */
  predicate PhaseOk(cfg: Config, s: State, p: Phase) {
    && (InFlight(p) ==> p.startedAt <= s.clock < p.startedAt + cfg.patience)
    && match p
       case Started(_) => true
       case Counted(startedAt, _, seen) => s.lockUntil == seen || (s.lastSet.Some? && s.lastSet.value >= startedAt)
       case Locking(_, count) => count >= cfg.max
       case LockSet(startedAt, count, until, setAt) =>
         count >= cfg.max && until == startedAt + cfg.lockTime
         && startedAt <= setAt && s.lastSet.Some? && s.lastSet.value >= setAt
       case Answered(count, reply, at, relied, stored) =>
         && reply == (if count >= cfg.max then Locked else Remaining(cfg.max - count))
         && (reply.Locked? ==> Active(relied, at))
         && (reply.Locked? && Outlasts(cfg) ==> Active(stored, at))
  }

  /** A lock written by some request reaches at least a lock time beyond that request's start. */
  predicate LockOk(cfg: Config, s: State) {
    s.lastSet.Some? ==>
      && s.lastSet.value <= s.clock && s.lockUntil.Some? && s.attempts >= cfg.max
      && s.lockUntil.value + cfg.patience > s.lastSet.value + cfg.lockTime
  }

  ghost predicate Inv(cfg: Config, base: nat, s: State) {
    && Counting(base, s) && LockOk(cfg, s)
    && (forall r :: r in s.requests ==> PhaseOk(cfg, s, s.requests[r]))
  }

  predicate Increments(s: State, e: Event) {
    e.Increment? && e.r in s.requests && s.requests[e.r].Started?
  }

  lemma IncrementedNext(cfg: Config, s: State, e: Event)
    ensures |Incremented(Step(cfg, s, e))| == |Incremented(s)| + if Increments(s, e) then 1 else 0
    ensures Step(cfg, s, e).attempts == s.attempts + if Increments(s, e) then 1 else 0
  {
    hide MayTick;
    var s' := Step(cfg, s, e);
    if Increments(s, e) {
      assert Incremented(s') == Incremented(s) + {e.r};
    } else {
      assert Incremented(s') == Incremented(s);
    }
  }

  /** A count, once handed out, stays with its request. */
  lemma CountKept(cfg: Config, s: State, e: Event, r: RequestId)
    requires r in Step(cfg, s, e).requests && HasCount(Step(cfg, s, e).requests[r])
    ensures if Increments(s, e) && e.r == r then Step(cfg, s, e).requests[r].count == s.attempts + 1
      else r in s.requests && HasCount(s.requests[r]) && s.requests[r].count == Step(cfg, s, e).requests[r].count
  {
  }

  lemma StepCounts(cfg: Config, base: nat, s: State, e: Event)
    requires Counting(base, s)
    ensures Counting(base, Step(cfg, s, e))
  {
    var s' := Step(cfg, s, e);
    IncrementedNext(cfg, s, e);
    forall r | r in s'.requests && HasCount(s'.requests[r])
      ensures base < s'.requests[r].count <= s'.attempts
    {
      CountKept(cfg, s, e, r);
    }
    forall r, q | r in s'.requests && q in s'.requests && r != q && HasCount(s'.requests[r]) && HasCount(s'.requests[q])
      ensures s'.requests[r].count != s'.requests[q].count
    {
      CountKept(cfg, s, e, r);
      CountKept(cfg, s, e, q);
    }
    hide Step, Incremented;
  }

  lemma StepLock(cfg: Config, base: nat, s: State, e: Event)
    requires Inv(cfg, base, s)
    ensures LockOk(cfg, Step(cfg, s, e))
  {
    if e.SetLock? && e.r in s.requests {
      assert PhaseOk(cfg, s, s.requests[e.r]);
    }
  }

  lemma PhaseNext(cfg: Config, s: State, e: Event, r: RequestId)
    requires 0 < cfg.patience <= cfg.lockTime && LockOk(cfg, s)
    requires r in s.requests && PhaseOk(cfg, s, s.requests[r])
    requires e.SetLock? && e.r in s.requests ==> PhaseOk(cfg, s, s.requests[e.r])
    ensures r in Step(cfg, s, e).requests && PhaseOk(cfg, Step(cfg, s, e), Step(cfg, s, e).requests[r])
  {
  }

  lemma StepPhases(cfg: Config, base: nat, s: State, e: Event)
    requires Inv(cfg, base, s) && 0 < cfg.patience <= cfg.lockTime
    ensures var s' := Step(cfg, s, e); forall r :: r in s'.requests ==> PhaseOk(cfg, s', s'.requests[r])
  {
    var s' := Step(cfg, s, e);
    assert forall r :: r in s'.requests && r !in s.requests ==>
        s'.requests[r] == Started(s.clock) && s'.clock == s.clock;
    forall r | r in s'.requests ensures PhaseOk(cfg, s', s'.requests[r]) {
      hide Step, LockOk, Counting;
      if r in s.requests {
        PhaseNext(cfg, s, e, r);
      }
    }
    hide Step, PhaseOk, Inv;
  }

  lemma {:induction false} RunKeeps(cfg: Config, s: State, events: seq<Event>)
    requires Initial(s) && 0 < cfg.patience <= cfg.lockTime
    ensures Inv(cfg, s.attempts, Run(cfg, s, events))
    decreases |events|
  {
    if events != [] {
      var n := |events| - 1;
      RunKeeps(cfg, s, events[..n]);
      var before := Run(cfg, s, events[..n]);
      StepCounts(cfg, s.attempts, before, events[n]);
      StepLock(cfg, s.attempts, before, events[n]);
      StepPhases(cfg, s.attempts, before, events[n]);
    }
  }

  // ---------------------------------------------------------------- results

  /** In every interleaving the counter has moved by exactly the number of requests counted: no
      increment is lost, and none is made twice. */
  lemma CounterIsExact(cfg: Config, s: State, events: seq<Event>)
    requires Initial(s) && 0 < cfg.patience <= cfg.lockTime
    ensures var s' := Run(cfg, s, events); s'.attempts == s.attempts + |Incremented(s')|
  {
    RunKeeps(cfg, s, events);
  }

  /** Replies: below the maximum a request learns how many attempts remain, at or above it that the
      account is locked, on the strength of a lock in force when it answers. */
  lemma Replies(cfg: Config, s: State, events: seq<Event>, r: RequestId)
    requires Initial(s) && 0 < cfg.patience <= cfg.lockTime
    requires var s' := Run(cfg, s, events); r in s'.requests && s'.requests[r].Answered?
    ensures var Answered(count, reply, at, relied, stored) := Run(cfg, s, events).requests[r];
      && (reply.Locked? <==> count >= cfg.max)
      && (count < cfg.max ==> reply == Remaining(cfg.max - count))
      && (reply.Locked? ==> Active(relied, at))
  {
    RunKeeps(cfg, s, events);
    assert PhaseOk(cfg, Run(cfg, s, events), Run(cfg, s, events).requests[r]);
  }

  /** No two requests are told the same positive number of remaining attempts. */
  lemma RemainingDistinct(cfg: Config, s: State, events: seq<Event>, r: RequestId, q: RequestId)
    requires Initial(s) && 0 < cfg.patience <= cfg.lockTime && r != q
    requires var s' := Run(cfg, s, events);
      && r in s'.requests && s'.requests[r].Answered? && s'.requests[r].reply.Remaining?
      && q in s'.requests && s'.requests[q].Answered? && s'.requests[q].reply.Remaining?
    ensures var s' := Run(cfg, s, events);
      s'.requests[r].reply.attempts != s'.requests[q].reply.attempts && s'.requests[r].reply.attempts > 0
  {
    RunKeeps(cfg, s, events);
    var s' := Run(cfg, s, events);
    assert PhaseOk(cfg, s', s'.requests[r]) && PhaseOk(cfg, s', s'.requests[q]);
  }

  /** A request of this run answered that the account is locked. */
  ghost predicate AnsweredLocked(cfg: Config, s: State, events: seq<Event>, r: RequestId) {
    var s' := Run(cfg, s, events);
    Initial(s) && r in s'.requests && s'.requests[r].Answered? && s'.requests[r].reply.Locked?
  }

  /** Whether the lock stored in the account was itself in force at that answer. */
  ghost predicate Backed(cfg: Config, s: State, events: seq<Event>, r: RequestId)
    requires AnsweredLocked(cfg, s, events, r)
  {
    var answer := Run(cfg, s, events).requests[r];
    Active(answer.stored, answer.at)
  }

  lemma StoredLockInForce(cfg: Config, s: State, events: seq<Event>, r: RequestId)
    requires 0 < cfg.patience <= cfg.lockTime && Outlasts(cfg) && AnsweredLocked(cfg, s, events, r)
    ensures Backed(cfg, s, events, r)
  {
    RunKeeps(cfg, s, events);
    assert PhaseOk(cfg, Run(cfg, s, events), Run(cfg, s, events).requests[r]);
  }

  /** The counter never falls, so once it has reached the maximum every later failure is locked. */
  lemma {:induction false} CounterNeverFalls(cfg: Config, s: State, events: seq<Event>)
    ensures Run(cfg, s, events).attempts >= s.attempts
    decreases |events|
  {
    if events != [] {
      CounterNeverFalls(cfg, s, events[..|events| - 1]);
    }
  }

  /** The five steps of a request with no other between them; those that do not apply do nothing. */
  function Alone(cfg: Config, s: State, r: RequestId): State {
    var counted := Step(cfg, Step(cfg, s, Start(r)), Increment(r));
    Step(cfg, Step(cfg, Step(cfg, counted, Examine(r)), SetLock(r)), Respond(r))
  }

  /** A failure with no other request between its steps, whatever the account holds: it is told the
      account is locked exactly when it brings the counter to the maximum, and it sets the lock, for
      a full lock time, exactly when in addition none is in force. So after a lock has run out one
      more failure locks again. */
  lemma LoneFailure(cfg: Config, s: State, r: RequestId)
    requires cfg.lockTime > 0 && r !in s.requests
    ensures var s' := Alone(cfg, s, r);
      && r in s'.requests && s'.requests[r].Answered?
      && (s'.requests[r].reply.Locked? <==> s.attempts + 1 >= cfg.max)
      && s'.attempts == s.attempts + 1
      && s'.lockUntil == (if s.attempts + 1 >= cfg.max && !Active(s.lockUntil, s.clock)
                          then Some(s.clock + cfg.lockTime) else s.lockUntil)
  {
    var s1 := Step(cfg, s, Start(r));
    var s2 := Step(cfg, s1, Increment(r));
    assert s2.requests[r] == Counted(s.clock, s.attempts + 1, s.lockUntil);
    var s3 := Step(cfg, s2, Examine(r));
    assert s3.requests[r].Locking? <==> s.attempts + 1 >= cfg.max && !Active(s.lockUntil, s.clock);
  }

  // ---------------------------------------------------------------- when an older lock wins

  /** One failure short of the maximum, nothing under way. */
  function NearlyLocked(cfg: Config): State {
    State(if cfg.max > 0 then cfg.max - 1 else 0, None, 0, map[], None)
  }

  /** Two requests as far apart as they can be while both are under way; the older one writes its
      lock last, and the newer one answers as late as it can. */
  function SlowOverwrite(cfg: Config): seq<Event>
    requires cfg.patience > 0
  {
    [Start(0), Tick(cfg.patience - 1), Start(1), Increment(0), Increment(1), Examine(0), Examine(1),
     SetLock(1), SetLock(0), Respond(0), Tick(cfg.patience - 1), Respond(1)]
  }

  function Reached(cfg: Config, n: nat): State
    requires cfg.patience > 0 && n <= |SlowOverwrite(cfg)|
  {
    Run(cfg, NearlyLocked(cfg), SlowOverwrite(cfg)[..n])
  }

  lemma ReachedNext(cfg: Config, n: nat)
    requires cfg.patience > 0 && n < |SlowOverwrite(cfg)|
    ensures Reached(cfg, n + 1) == Step(cfg, Reached(cfg, n), SlowOverwrite(cfg)[n])
  {
    assert SlowOverwrite(cfg)[..n + 1][..n] == SlowOverwrite(cfg)[..n];
  }

  lemma ReachedBothStarted(cfg: Config)
    requires cfg.patience > 0
    ensures Reached(cfg, 3)
         == NearlyLocked(cfg).(clock := cfg.patience - 1,
             requests := map[0 := Started(0), 1 := Started(cfg.patience - 1)])
  {
    assert SlowOverwrite(cfg)[..0] == [];
    assert Reached(cfg, 0) == NearlyLocked(cfg);
    hide Reached;
    ReachedNext(cfg, 0);
    ReachedNext(cfg, 1);
    ReachedNext(cfg, 2);
    assert Reached(cfg, 1) == NearlyLocked(cfg).(requests := map[0 := Started(0)]);
    assert MayTick(cfg, Reached(cfg, 1), cfg.patience - 1);
  }

  lemma ReachedBothLocking(cfg: Config)
    requires cfg.patience > 0
    ensures var first := NearlyLocked(cfg).attempts + 1;
      Reached(cfg, 7)
      == State(first + 1, None, cfg.patience - 1,
          map[0 := Locking(0, first), 1 := Locking(cfg.patience - 1, first + 1)], None)
  {
    hide Reached;
    ReachedBothStarted(cfg);
    ReachedNext(cfg, 3);
    ReachedNext(cfg, 4);
    var first := NearlyLocked(cfg).attempts + 1;
    assert Reached(cfg, 5) == State(first + 1, None, cfg.patience - 1,
      map[0 := Counted(0, first, None), 1 := Counted(cfg.patience - 1, first + 1, None)], None);
    ReachedNext(cfg, 5);
    ReachedNext(cfg, 6);
  }

  lemma ReachedOverwritten(cfg: Config)
    requires 0 < cfg.patience <= cfg.lockTime
    ensures var s := Reached(cfg, 10);
      && s.lockUntil == Some(cfg.lockTime) && s.clock == cfg.patience - 1
      && s.requests.Keys == {0, 1} && s.requests[0].Answered?
      && s.requests[1] == LockSet(cfg.patience - 1, NearlyLocked(cfg).attempts + 2, cfg.patience - 1 + cfg.lockTime,
          cfg.patience - 1)
  {
    hide Reached;
    ReachedBothLocking(cfg);
    ReachedNext(cfg, 7);
    ReachedNext(cfg, 8);
    ReachedNext(cfg, 9);
    assert Reached(cfg, 9).requests[0] == LockSet(0, NearlyLocked(cfg).attempts + 1, cfg.lockTime, cfg.patience - 1);
  }

  /** In that run the newer request answers that the account is locked, on the strength of the lock it
      wrote, while the one stored has run out by then unless the lock outlasts the two. */
  lemma OlderLockMayWin(cfg: Config)
    requires 0 < cfg.patience <= cfg.lockTime && !Outlasts(cfg)
    ensures AnsweredLocked(cfg, NearlyLocked(cfg), SlowOverwrite(cfg), 1)
    ensures !Backed(cfg, NearlyLocked(cfg), SlowOverwrite(cfg), 1)
  {
    assert SlowOverwrite(cfg)[..12] == SlowOverwrite(cfg);
    assert Run(cfg, NearlyLocked(cfg), SlowOverwrite(cfg)) == Reached(cfg, 12);
    hide Reached, Run;
    ReachedOverwritten(cfg);
    ReachedNext(cfg, 10);
    ReachedNext(cfg, 11);
    assert MayTick(cfg, Reached(cfg, 10), cfg.patience - 1);
  }

  /** When a locked reply can be taken at its word: for every maximum, the lock stored in the account
      is in force at every locked reply of every run if and only if twice a request's duration is at
      most one more than the lock time. */
  lemma StoredLockInForceExactly(cfg: Config)
    requires 0 < cfg.patience <= cfg.lockTime
    ensures (forall s, events, r :: AnsweredLocked(cfg, s, events, r) ==> Backed(cfg, s, events, r))
      <==> 2 * cfg.patience <= cfg.lockTime + 1
  {
    if Outlasts(cfg) {
      forall s, events, r | AnsweredLocked(cfg, s, events, r) ensures Backed(cfg, s, events, r) {
        StoredLockInForce(cfg, s, events, r);
      }
    } else {
      OlderLockMayWin(cfg);
    }
  }
}
