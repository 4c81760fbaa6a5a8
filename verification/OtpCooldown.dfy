/** The in-memory cooldown on login codes: one shared map holds a lock and a cached code per user,
    expired entries are evicted as the map is used, and a lock is granted at most once per window. */
module OtpCooldown {
  import opened Options

  const COOLDOWN_MS: nat := 30 * 1000

  datatype Entry = Entry(value: string, expiresAt: nat)
  type Cache = map<string, Entry>

  datatype Answer = Acquired | Wait(retryAfter: nat)

  function LockKey(firm: string, user: string): string {
    "otp_lock:" + firm + ":" + user
  }

  function OtpKey(firm: string, user: string): string {
    "otp:" + firm + ":" + user
  }

  // ---------------------------------------------------------------- the operations

  function Evict(m: Cache, now: nat): Cache {
    map k | k in m && m[k].expiresAt > now :: m[k]
  }

  function CeilSeconds(ms: nat): nat {
    (ms + 999) / 1000
  }

  /** The answer to an acquisition: refused while an entry is live. */
  function AnswerFor(m: Cache, key: string, now: nat): Answer {
    if key in m && m[key].expiresAt > now
    then Wait(if CeilSeconds(m[key].expiresAt - now) < 1 then 1 else CeilSeconds(m[key].expiresAt - now))
    else Acquired
  }

  /** The Map loginOtpCacheFallback and the functions that touch it. */
  class OtpCache {
    var entries: Cache

    constructor ()
      ensures entries == map[]
    {
      entries := map[];
    }

    /** cleanupExpiredCache: visit every entry, delete those expired. */
    method CleanupExpired(now: nat)
      modifies this
      ensures entries == Evict(old(entries), now)
    {
      var todo := entries.Keys;
      while todo != {}
        invariant todo <= entries.Keys <= old(entries).Keys
        invariant forall k :: k in entries ==> entries[k] == old(entries)[k]
        invariant forall k :: k in old(entries) && k !in todo ==> (k in entries <==> old(entries)[k].expiresAt > now)
        decreases todo
      {
        var key :| key in todo;
        if entries[key].expiresAt <= now {
          entries := entries - {key};
        }
        todo := todo - {key};
      }
    }

    /** acquireLoginOtpCooldownLock, in-memory path. */
    method AcquireLock(firm: string, user: string, token: string, evictAt: nat, now: nat) returns (answer: Answer)
      modifies this
      ensures answer == AnswerFor(Evict(old(entries), evictAt), LockKey(firm, user), now)
      ensures entries == Apply(true, old(entries), Event(evictAt, now, Acquire(firm, user, token)))
    {
      CleanupExpired(evictAt);
      var key := LockKey(firm, user);
      if key in entries && entries[key].expiresAt > now {
        var seconds := CeilSeconds(entries[key].expiresAt - now);
        answer := Wait(if seconds < 1 then 1 else seconds);
      } else {
        entries := entries[key := Entry(token, now + COOLDOWN_MS)];
        answer := Acquired;
      }
    }

    /** cacheLoginOtpState, in-memory path. */
    method CacheOtp(firm: string, user: string, payload: string, expiresAt: nat, evictAt: nat)
      modifies this
      ensures entries == Apply(true, old(entries), Event(evictAt, evictAt, Store(firm, user, payload, expiresAt)))
    {
      CleanupExpired(evictAt);
      entries := entries[OtpKey(firm, user) := Entry(payload, expiresAt)];
    }

    /** clearCachedLoginOtpState, in-memory path. */
    method Clear(firm: string, user: string)
      modifies this
      ensures forall now :: entries == Apply(true, old(entries), Event(now, now, Forget(firm, user)))
    {
      entries := entries - {LockKey(firm, user)};
      entries := entries - {OtpKey(firm, user)};
    }
  }

  // ---------------------------------------------------------------- runs

  datatype Op =
    | Acquire(firm: string, user: string, token: string)
    | Store(firm: string, user: string, payload: string, expiresAt: nat)
    | Forget(firm: string, user: string)

  /** A call; the clock is read once to evict and once more to decide. */
  datatype Event = Event(evictAt: nat, now: nat, op: Op)

  /** The clock never goes back. */
  predicate Ordered(events: seq<Event>) {
    && (forall i :: 0 <= i < |events| ==> events[i].evictAt <= events[i].now)
    && (forall i, j :: 0 <= i < j < |events| ==> events[i].now <= events[j].evictAt)
  }

  /** The map as an operation sees it: with eviction, or without. */
  function Seen(evict: bool, m: Cache, e: Event): Cache {
    if evict && !e.op.Forget? then Evict(m, e.evictAt) else m
  }

  function Apply(evict: bool, m: Cache, e: Event): Cache {
    var m' := Seen(evict, m, e);
    match e.op
    case Acquire(firm, user, token) =>
      var key := LockKey(firm, user);
      if AnswerFor(m', key, e.now).Acquired? then m'[key := Entry(token, e.now + COOLDOWN_MS)] else m'
    case Store(firm, user, payload, expiresAt) => m'[OtpKey(firm, user) := Entry(payload, expiresAt)]
    case Forget(firm, user) => m' - {LockKey(firm, user), OtpKey(firm, user)}
  }

  /** The map after the first `n` calls, starting empty. */
  function After(evict: bool, events: seq<Event>, n: nat): Cache
    requires n <= |events|
  {
    if n == 0 then map[] else Apply(evict, After(evict, events, n - 1), events[n - 1])
  }

  /** The answer given to call `i`. */
  function AnswerAt(evict: bool, events: seq<Event>, i: nat): Answer
    requires i < |events| && events[i].op.Acquire?
  {
    AnswerFor(Seen(evict, After(evict, events, i), events[i]), LockKey(events[i].op.firm, events[i].op.user),
        events[i].now)
  }

  predicate Acquires(events: seq<Event>, i: nat, key: string)
    requires i < |events|
  {
    events[i].op.Acquire? && LockKey(events[i].op.firm, events[i].op.user) == key
  }

  predicate Clears(events: seq<Event>, i: nat, key: string)
    requires i < |events|
  {
    events[i].op.Forget? && LockKey(events[i].op.firm, events[i].op.user) == key
  }

  predicate Grants(events: seq<Event>, i: nat, key: string)
    requires i < |events|
  {
    Acquires(events, i, key) && AnswerAt(true, events, i).Acquired?
  }

  /** A code is never stored under a lock's key. */
  lemma KeysDiffer(firm: string, user: string, firm': string, user': string)
    ensures LockKey(firm, user) != OtpKey(firm', user')
  {
    assert LockKey(firm, user)[3] == '_' && OtpKey(firm', user')[3] == ':';
  }

  // ---------------------------------------------------------------- eviction

  /** Two maps that agree on a key, unless its entries have expired. */
  predicate SameLive(a: Cache, b: Cache, key: string, now: nat) {
    && (key in a && a[key].expiresAt > now <==> key in b && b[key].expiresAt > now)
    && (key in a && a[key].expiresAt > now ==> a[key] == b[key])
  }

  lemma StepKeepsLive(a: Cache, b: Cache, e: Event, key: string, now: nat)
    requires SameLive(a, b, key, e.evictAt) && e.evictAt <= e.now <= now
    ensures SameLive(Apply(true, a, e), Apply(false, b, e), key, now)
  {
    hide LockKey, OtpKey;
  }

  lemma {:induction false} EvictionKeepsLive(events: seq<Event>, n: nat, key: string, now: nat)
    requires n <= |events| && Ordered(events)
    requires n > 0 ==> events[n - 1].now <= now
    ensures SameLive(After(true, events, n), After(false, events, n), key, now)
    decreases n
  {
    if n > 0 {
      var e := events[n - 1];
      EvictionKeepsLive(events, n - 1, key, e.evictAt);
      StepKeepsLive(After(true, events, n - 1), After(false, events, n - 1), e, key, now);
    }
  }

  /** Evicting expired entries, whosever they are, changes no answer. */
  lemma EvictionIsInvisible(events: seq<Event>, i: nat)
    requires i < |events| && events[i].op.Acquire? && Ordered(events)
    ensures AnswerAt(true, events, i) == AnswerAt(false, events, i)
  {
    var key := LockKey(events[i].op.firm, events[i].op.user);
    EvictionKeepsLive(events, i, key, events[i].evictAt);
  }

  // ---------------------------------------------------------------- spacing

  /** After `n` calls the lock is held up to `bound`, or that time has come. */
  predicate HeldUntil(events: seq<Event>, n: nat, key: string, bound: nat)
    requires n <= |events|
  {
    var m := After(true, events, n);
    || (key in m && m[key].expiresAt >= bound)
    || (n > 0 && events[n - 1].now >= bound)
  }

  lemma {:induction false} StaysHeld(events: seq<Event>, i: nat, n: nat, key: string, bound: nat)
    requires i <= n <= |events| && Ordered(events) && HeldUntil(events, i, key, bound)
    requires exists firm, user :: key == LockKey(firm, user)
    requires forall k :: i <= k < n ==> !Clears(events, k, key)
    ensures HeldUntil(events, n, key, bound)
    decreases n
  {
    if n > i {
      var e := events[n - 1];
      StaysHeld(events, i, n - 1, key, bound);
      assert !Clears(events, n - 1, key);
      var firm, user :| key == LockKey(firm, user);
      if e.op.Store? || e.op.Forget? {
        KeysDiffer(firm, user, e.op.firm, e.op.user);
      }
    }
  }

  /** Two grants of one lock, with no clearing between them, are at least thirty seconds apart. */
  lemma GrantsAreSpaced(events: seq<Event>, i: nat, j: nat, key: string)
    requires i < j < |events| && Ordered(events) && Grants(events, i, key) && Grants(events, j, key)
    requires forall k :: i < k < j ==> !Clears(events, k, key)
    ensures events[j].now - events[i].now >= 30 * 1000
  {
    StaysHeld(events, i + 1, j, key, events[i].now + COOLDOWN_MS);
  }

  lemma SplitAtColon(a: string, firm: string, user: string, firm': string, user': string)
    requires ':' !in firm && ':' !in firm' && a + firm + ":" + user == a + firm' + ":" + user'
    ensures firm == firm' && user == user'
  {
    var key, key' := a + firm + ":" + user, a + firm' + ":" + user';
    var n := |a|;
    assert key[n..n + |firm|] == firm && key'[n..n + |firm'|] == firm';
    assert key[n + |firm|] == ':' && key'[n + |firm'|] == ':';
    assert key[n + |firm| + 1..] == user && key'[n + |firm'| + 1..] == user';
  }

  /** The firm and the user identify a lock, and a code, as ids hold no colon. */
  lemma KeysArePerUser(firm: string, user: string, firm': string, user': string)
    requires ':' !in firm && ':' !in firm'
    ensures LockKey(firm, user) == LockKey(firm', user') <==> firm == firm' && user == user'
    ensures OtpKey(firm, user) == OtpKey(firm', user') <==> firm == firm' && user == user'
  {
    if LockKey(firm, user) == LockKey(firm', user') {
      SplitAtColon("otp_lock:", firm, user, firm', user');
    }
    if OtpKey(firm, user) == OtpKey(firm', user') {
      SplitAtColon("otp:", firm, user, firm', user');
    }
  }

  // ---------------------------------------------------------------- waiting

  lemma {:induction false} LocksAreShort(events: seq<Event>, n: nat, firm: string, user: string)
    requires n <= |events| && Ordered(events)
    ensures var m := After(true, events, n);
      var key := LockKey(firm, user);
      key in m ==> n > 0 && m[key].expiresAt <= events[n - 1].now + COOLDOWN_MS
  {
    if n > 0 {
      LocksAreShort(events, n - 1, firm, user);
      var e := events[n - 1];
      if e.op.Store? {
        KeysDiffer(firm, user, e.op.firm, e.op.user);
      }
    }
  }

  lemma {:induction false} NotExtended(events: seq<Event>, i: nat, n: nat, key: string, bound: nat)
    requires i <= n <= |events| && Ordered(events)
    requires exists firm, user :: key == LockKey(firm, user)
    requires key in After(true, events, i) ==> After(true, events, i)[key].expiresAt <= bound
    requires forall k :: i <= k < n ==> !Grants(events, k, key)
    ensures key in After(true, events, n) ==> After(true, events, n)[key].expiresAt <= bound
    decreases n
  {
    if n > i {
      NotExtended(events, i, n - 1, key, bound);
      var e := events[n - 1];
      assert !Grants(events, n - 1, key);
      if e.op.Store? {
        var firm, user :| key == LockKey(firm, user);
        KeysDiffer(firm, user, e.op.firm, e.op.user);
      }
    }
  }

  /** A refusal asks for a wait of one to thirty seconds, and whoever waits that long is granted the
      lock unless somebody else was in the meantime. */
  lemma WaitingSuffices(events: seq<Event>, i: nat, j: nat, key: string)
    requires i < j < |events| && Ordered(events) && Acquires(events, i, key) && Acquires(events, j, key)
    requires AnswerAt(true, events, i).Wait?
    ensures 1 <= AnswerAt(true, events, i).retryAfter <= 30
    ensures events[j].now >= events[i].now + AnswerAt(true, events, i).retryAfter * 1000
            && (forall k :: i < k < j ==> !Grants(events, k, key))
            ==> AnswerAt(true, events, j) == Acquired
  {
    var e := events[i];
    LocksAreShort(events, i, e.op.firm, e.op.user);
    var m := After(true, events, i);
    var left := m[key].expiresAt - e.now;
    assert left <= COOLDOWN_MS;
    if events[j].now >= e.now + AnswerAt(true, events, i).retryAfter * 1000
       && (forall k :: i < k < j ==> !Grants(events, k, key)) {
      NotExtended(events, i, j, key, m[key].expiresAt);
    }
  }

  /** And no longer than needed: whoever asks more than a second earlier, with no clearing in the
      meantime, is refused again. */
  lemma WaitingIsNeeded(events: seq<Event>, i: nat, j: nat, key: string)
    requires i < j < |events| && Ordered(events) && Acquires(events, i, key) && Acquires(events, j, key)
    requires AnswerAt(true, events, i).Wait?
    requires forall k :: i < k < j ==> !Clears(events, k, key)
    requires events[j].now <= events[i].now + (AnswerAt(true, events, i).retryAfter - 1) * 1000
    ensures AnswerAt(true, events, j).Wait?
  {
    var m := After(true, events, i);
    StaysHeld(events, i, j, key, m[key].expiresAt);
  }

  /** Clearing a user's entries frees the lock: the next acquisition is granted. */
  lemma ClearingFrees(events: seq<Event>, i: nat, j: nat, key: string)
    requires i < j < |events| && Ordered(events) && Clears(events, i, key) && Acquires(events, j, key)
    requires forall k :: i < k < j ==> !Grants(events, k, key)
    ensures AnswerAt(true, events, j) == Acquired
  {
    NotExtended(events, i + 1, j, key, 0);
  }

  // ---------------------------------------------------------------- codes

  /** The code last stored under `key` in the first `n` calls, unless its user was cleared since. */
  function LastCode(events: seq<Event>, n: nat, key: string): Option<Entry>
    requires n <= |events|
  {
    if n == 0 then None
    else match events[n - 1].op
      case Store(firm, user, payload, expiresAt) =>
        if OtpKey(firm, user) == key then Some(Entry(payload, expiresAt)) else LastCode(events, n - 1, key)
      case Forget(firm, user) => if OtpKey(firm, user) == key then None else LastCode(events, n - 1, key)
      case Acquire(_, _, _) => LastCode(events, n - 1, key)
  }

  lemma {:induction false} KeptCode(events: seq<Event>, n: nat, firm: string, user: string)
    requires n <= |events|
    ensures var key, m := OtpKey(firm, user), After(false, events, n);
      LastCode(events, n, key) == if key in m then Some(m[key]) else None
  {
    if n > 0 {
      KeptCode(events, n - 1, firm, user);
      var op := events[n - 1].op;
      KeysDiffer(op.firm, op.user, firm, user);
    }
  }

  /** Over any run a user's code is in the cache, until it expires, exactly when it was the last one
      stored and the user has not been cleared since. */
  lemma CodeIsTheLastStored(events: seq<Event>, n: nat, firm: string, user: string, now: nat)
    requires n <= |events| && Ordered(events)
    requires n > 0 ==> events[n - 1].now <= now
    ensures var key, m := OtpKey(firm, user), After(true, events, n);
      var code := LastCode(events, n, key);
      && (key in m && m[key].expiresAt > now <==> code.Some? && code.value.expiresAt > now)
      && (key in m && m[key].expiresAt > now ==> m[key] == code.value)
  {
    EvictionKeepsLive(events, n, OtpKey(firm, user), now);
    KeptCode(events, n, firm, user);
  }
}
