/** Account setup with a single-use token. Requests are interleaved at every database call: a setup
    request reads the account, then takes the token by one conditional update, then possibly reads
    again to explain a failure; a resend reads the account and later saves a fresh token. Tokens
    stand for their hashes. */
module SetupToken {
  import opened Options

  type UserId = nat
  type Token = nat
  type RequestId = nat

  /** setupTokenHash and passwordSetupTokenHash, their expiry times, and setupTokenUsedAt. */
  datatype Account = Account(hash: Option<Token>, legacyHash: Option<Token>, expiresAt: Option<nat>,
                             legacyExpiresAt: Option<nat>, usedAt: Option<nat>, active: bool)

  datatype Reply = Activated | TokenInvalid | AlreadyUsed | Expired

  datatype Phase =
    | Checked(user: UserId, token: Token, now: nat)     // passed the first checks
    | Refused(user: UserId, token: Token, now: nat)     // the conditional update matched nothing
    | Answered(token: Token, reply: Reply)
    | Loaded(user: UserId, snapshot: Account)           // a resend that has read the account
    | Resent

  /** A successful conditional update: when its request began, when it reached the database, and the
      account as it was just before. */
  datatype Activation = Activation(request: RequestId, user: UserId, token: Token, startedAt: nat, at: nat,
                                   before: Account)

  /** `issued` is every token handed out so far. */
  datatype State = State(accounts: map<UserId, Account>, requests: map<RequestId, Phase>,
                         issued: set<Token>, activations: seq<Activation>, clock: nat)

  datatype Event =
    | Tick(ms: nat)
    | StartSetup(request: RequestId, token: Token, found: Option<UserId>)
    | Swap(request: RequestId)
    | Explain(request: RequestId)
    | StartResend(request: RequestId, user: UserId)
    | SaveResend(request: RequestId, token: Token, expiry: nat)

  predicate Stores(a: Account, token: Token) {
    a.hash == Some(token) || a.legacyHash == Some(token)
  }

  /** The answer of a query by token: an account storing it, or none if there is none. */
  ghost predicate Finds(accounts: map<UserId, Account>, token: Token, found: Option<UserId>) {
    match found
    case Some(u) => u in accounts && Stores(accounts[u], token)
    case None => forall u :: u in accounts ==> !Stores(accounts[u], token)
  }

  // ---------------------------------------------------------------- the steps

  /** The checks between the first read and the update. */
  function FirstChecks(a: Account, user: UserId, token: Token, now: nat): Phase {
    if a.usedAt.Some? then Answered(token, AlreadyUsed)
    else
      var expiry := if a.expiresAt.Some? then a.expiresAt else a.legacyExpiresAt;
      if expiry.None? || expiry.value < now then Answered(token, Expired) else Checked(user, token, now)
  }

  predicate Takes(a: Account, token: Token, now: nat) {
    a.usedAt.None? && a.expiresAt.Some? && a.expiresAt.value > now && Stores(a, token)
  }

  function Activate(now: nat): Account {
    Account(None, None, None, None, Some(now), true)
  }

  function Explanation(a: Account, now: nat): Reply {
    if a.usedAt.Some? then AlreadyUsed
    else if a.expiresAt.Some? && a.expiresAt.value <= now then Expired
    else TokenInvalid
  }

  /** A save writes the fields that differ from what was loaded. */
  function Written<T(==)>(loaded: Option<T>, intended: Option<T>, stored: Option<T>): Option<T> {
    if loaded == intended then stored else intended
  }

  function Save(snapshot: Account, a: Account, token: Token, expiry: nat): Account {
    Account(Written(snapshot.hash, Some(token), a.hash), Written(snapshot.legacyHash, Some(token), a.legacyHash),
            Written(snapshot.expiresAt, Some(expiry), a.expiresAt),
            Written(snapshot.legacyExpiresAt, Some(expiry), a.legacyExpiresAt),
            Written(snapshot.usedAt, None, a.usedAt), a.active)
  }

  /** One step; an event that cannot happen in `s` changes nothing. */
  ghost function Step(s: State, e: Event): State {
    match e
    case Tick(ms) => s.(clock := s.clock + ms)
    case StartSetup(r, token, found) =>
      if r in s.requests || !Finds(s.accounts, token, found) then s
      else if found.None? then s.(requests := s.requests[r := Answered(token, TokenInvalid)])
      else s.(requests := s.requests[r := FirstChecks(s.accounts[found.value], found.value, token, s.clock)])
    case Swap(r) =>
      if r !in s.requests || !s.requests[r].Checked? || s.requests[r].user !in s.accounts then s
      else
        var Checked(user, token, now) := s.requests[r];
        var a := s.accounts[user];
        if Takes(a, token, now)
        then s.(accounts := s.accounts[user := Activate(now)], requests := s.requests[r := Answered(token, Activated)],
                activations := s.activations + [Activation(r, user, token, now, s.clock, a)])
        else s.(requests := s.requests[r := Refused(user, token, now)])
    case Explain(r) =>
      if r !in s.requests || !s.requests[r].Refused? || s.requests[r].user !in s.accounts then s
      else
        var Refused(user, token, now) := s.requests[r];
        s.(requests := s.requests[r := Answered(token, Explanation(s.accounts[user], now))])
    case StartResend(r, user) =>
      if r in s.requests || user !in s.accounts then s
      else s.(requests := s.requests[r := Loaded(user, s.accounts[user])])
    case SaveResend(r, token, expiry) =>
      if r !in s.requests || !s.requests[r].Loaded? || s.requests[r].user !in s.accounts || token in s.issued then s
      else
        var Loaded(user, snapshot) := s.requests[r];
        s.(accounts := s.accounts[user := Save(snapshot, s.accounts[user], token, expiry)],
           requests := s.requests[r := Resent], issued := s.issued + {token})
  }

  ghost function Run(s: State, events: seq<Event>): State {
    if events == [] then s else Step(Run(s, events[..|events| - 1]), events[|events| - 1])
  }

  // ---------------------------------------------------------------- the invariant

  /** The start: no request under way, and each stored token was issued, to one account. */
  ghost predicate Initial(s: State) {
    s.requests == map[] && s.activations == [] && StoredOnce(s)
  }

  ghost predicate StoredOnce(s: State) {
    && (forall u, t :: u in s.accounts && Stores(s.accounts[u], t) ==> t in s.issued)
    && (forall u, v, t | u in s.accounts && v in s.accounts ::
          Stores(s.accounts[u], t) && Stores(s.accounts[v], t) ==> u == v)
  }

  /** A token that has activated an account is stored nowhere, and was issued. */
  ghost predicate Spent(s: State) {
    && (forall k :: 0 <= k < |s.activations| ==> s.activations[k].token in s.issued)
    && (forall k, u :: 0 <= k < |s.activations| && u in s.accounts ==> !Stores(s.accounts[u], s.activations[k].token))
    && (forall j, k :: 0 <= j < k < |s.activations| ==> s.activations[j].token != s.activations[k].token)
  }

  /** Every activation matched a stored, unused token not expired when its request began. */
  ghost predicate Justified(s: State) {
    && (forall k :: 0 <= k < |s.activations| ==>
          Takes(s.activations[k].before, s.activations[k].token, s.activations[k].startedAt))
    && (forall k :: 0 <= k < |s.activations| ==> s.activations[k].startedAt <= s.clock)
    && (forall r :: r in s.requests && s.requests[r].Checked? ==> s.requests[r].now <= s.clock)
  }

  ghost predicate HasActivation(s: State, r: RequestId, token: Token) {
    exists k :: 0 <= k < |s.activations| && s.activations[k].request == r && s.activations[k].token == token
  }

  /** A request was told it activated the account if and only if an activation records it. */
  ghost predicate Recorded(s: State) {
    && (forall r :: r in s.requests && s.requests[r].Answered? && s.requests[r].reply.Activated? ==>
          HasActivation(s, r, s.requests[r].token))
    && (forall k :: 0 <= k < |s.activations| ==>
          s.activations[k].request in s.requests
          && s.requests[s.activations[k].request] == Answered(s.activations[k].token, Activated))
  }

  /** What a resend under way has read were tokens issued before. */
  ghost predicate LoadsIssued(s: State) {
    forall r, t :: r in s.requests && s.requests[r].Loaded? && Stores(s.requests[r].snapshot, t) ==> t in s.issued
  }

  /** Whoever has activated an account finds it active from then on. */
  ghost predicate StaysActive(s: State) {
    forall k :: 0 <= k < |s.activations| ==>
        s.activations[k].user in s.accounts && s.accounts[s.activations[k].user].active
  }

  lemma SwapSpent(s: State, r: RequestId)
    requires StoredOnce(s) && Spent(s)
    ensures StoredOnce(Step(s, Swap(r))) && Spent(Step(s, Swap(r)))
  {
    var s' := Step(s, Swap(r));
    if s'.activations != s.activations {
      var Checked(user, token, now) := s.requests[r];
      assert forall t :: !Stores(Activate(now), t);
      assert Stores(s.accounts[user], token);
      assert forall u, t :: u in s'.accounts && Stores(s'.accounts[u], t) ==> u != user && Stores(s.accounts[u], t);
    }
  }

  lemma SaveSpent(s: State, r: RequestId, token: Token, expiry: nat)
    requires StoredOnce(s) && Spent(s)
    ensures StoredOnce(Step(s, SaveResend(r, token, expiry))) && Spent(Step(s, SaveResend(r, token, expiry)))
  {
    var s' := Step(s, SaveResend(r, token, expiry));
    if s'.issued != s.issued {
      var user := s.requests[r].user;
      assert forall t :: Stores(s'.accounts[user], t) ==> t == token || Stores(s.accounts[user], t);
    }
  }

  lemma StepSpent(s: State, e: Event)
    requires StoredOnce(s) && Spent(s)
    ensures StoredOnce(Step(s, e)) && Spent(Step(s, e))
  {
    if e.Swap? {
      SwapSpent(s, e.request);
    } else if e.SaveResend? {
      SaveSpent(s, e.request, e.token, e.expiry);
    } else {
      assert Step(s, e).accounts == s.accounts && Step(s, e).activations == s.activations
          && Step(s, e).issued == s.issued;
    }
  }

  lemma StepJustified(s: State, e: Event)
    requires Justified(s)
    ensures Justified(Step(s, e))
  {
  }

  lemma StepRecorded(s: State, e: Event)
    requires Recorded(s)
    ensures Recorded(Step(s, e))
  {
    var s' := Step(s, e);
    forall r | r in s'.requests && s'.requests[r].Answered? && s'.requests[r].reply.Activated?
      ensures HasActivation(s', r, s'.requests[r].token)
    {
      if r in s.requests && s.requests[r] == s'.requests[r] {
        var k :| 0 <= k < |s.activations| && s.activations[k].request == r
            && s.activations[k].token == s.requests[r].token;
        assert s'.activations[k] == s.activations[k];
      } else {
        assert s'.activations[|s.activations|].request == r;
      }
    }
  }

  lemma StepLoads(s: State, e: Event)
    requires StoredOnce(s) && LoadsIssued(s)
    ensures LoadsIssued(Step(s, e))
  {
  }

  lemma StepActive(s: State, e: Event)
    requires StaysActive(s)
    ensures StaysActive(Step(s, e))
  {
  }

  lemma {:induction false} RunKeeps(s: State, events: seq<Event>)
    requires Initial(s)
    ensures var s' := Run(s, events);
      StoredOnce(s') && Spent(s') && Justified(s') && Recorded(s') && LoadsIssued(s') && StaysActive(s')
    decreases |events|
  {
    if events != [] {
      var n := |events| - 1;
      RunKeeps(s, events[..n]);
      var before := Run(s, events[..n]);
      StepSpent(before, events[n]);
      StepJustified(before, events[n]);
      StepRecorded(before, events[n]);
      StepLoads(before, events[n]);
      StepActive(before, events[n]);
      hide Step, StoredOnce, Spent, Justified, Recorded, LoadsIssued, StaysActive;
    }
  }

  // ---------------------------------------------------------------- results

  /** Single use, in every interleaving of setups and resends: no two requests activate with the
      same token. */
  lemma TokenActivatesOnce(s: State, events: seq<Event>, r: RequestId, r': RequestId, token: Token)
    requires Initial(s)
    requires var s' := Run(s, events);
      && r in s'.requests && s'.requests[r] == Answered(token, Activated)
      && r' in s'.requests && s'.requests[r'] == Answered(token, Activated)
    ensures r == r'
  {
    RunKeeps(s, events);
    hide Step, Run, StoredOnce, Justified, LoadsIssued, StaysActive;
    var s' := Run(s, events);
    var j :| 0 <= j < |s'.activations| && s'.activations[j].request == r && s'.activations[j].token == token;
    var k :| 0 <= k < |s'.activations| && s'.activations[k].request == r' && s'.activations[k].token == token;
    assert !(j < k) && !(k < j);
  }

  /** What an activation proves: at its conditional update the account stored the token, unused, and
      its setup expiry lay beyond the start of the request. Expiry kept in the legacy field alone
      never suffices. */
  lemma ActivationWasAllowed(s: State, events: seq<Event>, r: RequestId, token: Token)
    requires Initial(s)
    requires var s' := Run(s, events); r in s'.requests && s'.requests[r] == Answered(token, Activated)
    ensures var s' := Run(s, events);
      exists k :: 0 <= k < |s'.activations| && s'.activations[k].request == r && s'.activations[k].token == token
        && Stores(s'.activations[k].before, token) && s'.activations[k].before.usedAt.None?
        && s'.activations[k].before.expiresAt.Some?
        && s'.activations[k].startedAt < s'.activations[k].before.expiresAt.value
        && s'.activations[k].startedAt <= s'.clock
  {
    RunKeeps(s, events);
  }

  /** Once a token has activated, it never works again: whoever presents it from then on finds no
      account at all. */
  lemma SpentTokenIsUnknown(s: State, events: seq<Event>, k: nat, r: RequestId, found: Option<UserId>)
    requires Initial(s) && k < |Run(s, events).activations|
    requires var s' := Run(s, events); r !in s'.requests && Finds(s'.accounts, s'.activations[k].token, found)
    ensures var s' := Run(s, events);
      var t := s'.activations[k].token;
      Step(s', StartSetup(r, t, found)).requests[r] == Answered(t, TokenInvalid)
  {
    RunKeeps(s, events);
  }

  /** Left alone, a request succeeds exactly when the token is stored, unused, and its setup expiry
      lies ahead; otherwise it is told why. */
  lemma UndisturbedSetup(s: State, r: RequestId, token: Token, user: UserId)
    requires r !in s.requests && user in s.accounts && Stores(s.accounts[user], token)
    ensures var a := s.accounts[user];
      var s' := Step(Step(Step(s, StartSetup(r, token, Some(user))), Swap(r)), Explain(r));
      && r in s'.requests && s'.requests[r].Answered?
      && (s'.requests[r].reply == Activated <==> a.usedAt.None? && a.expiresAt.Some? && a.expiresAt.value > s.clock)
      && (s'.requests[r].reply == AlreadyUsed <==> a.usedAt.Some?)
      && (s'.requests[r].reply == TokenInvalid <==>
            a.usedAt.None? && a.expiresAt.None? && a.legacyExpiresAt.Some? && a.legacyExpiresAt.value >= s.clock)
      && (s'.requests[r].reply == Activated
          <==> s'.activations == s.activations + [Activation(r, user, token, s.clock, s.clock, a)])
  {
  }

  /** Two requests past their first checks: once one has activated the account, the other is told
      that the link has been used. */
  lemma LoserIsToldUsed(s: State, r: RequestId, r': RequestId)
    requires r in s.requests && r' in s.requests && r != r' && s.requests[r].Checked? && s.requests[r'].Checked?
    requires s.requests[r].user == s.requests[r'].user && Step(s, Swap(r)).activations != s.activations
    ensures var done := Step(Step(Step(s, Swap(r)), Swap(r')), Explain(r'));
      && done.requests[r] == Answered(s.requests[r].token, Activated)
      && done.requests[r'] == Answered(s.requests[r'].token, AlreadyUsed)
  {
  }

  /** In every interleaving an account that has been set up is active, and stays so through any
      later resend. */
  lemma ActivatedIsActive(s: State, events: seq<Event>, k: nat)
    requires Initial(s) && k < |Run(s, events).activations|
    ensures var s' := Run(s, events);
      s'.activations[k].user in s'.accounts && s'.accounts[s'.activations[k].user].active
  {
    RunKeeps(s, events);
  }

  // ---------------------------------------------------------------- resending

  /** The save of a resend goes through: its token is fresh and its account was loaded. */
  ghost predicate Saves(s: State, r: RequestId, token: Token) {
    r in s.requests && s.requests[r].Loaded? && s.requests[r].user in s.accounts && token !in s.issued
  }

  /** A lone setup with `token`, from its first read to its answer. */
  ghost function Setup(s: State, r: RequestId, token: Token, found: Option<UserId>): State {
    Step(Step(Step(s, StartSetup(r, token, found)), Swap(r)), Explain(r))
  }

  /** Whatever happened between load and save, in any interleaving: once the save is done the account
      stores the fresh token, in both places, and no other account has changed. A field that already
      was as the resend wants it when loaded is not written, so a change in between stays. */
  lemma ResendStoresItsToken(s: State, events: seq<Event>, r: RequestId, token: Token, expiry: nat)
    requires Initial(s) && Saves(Run(s, events), r, token)
    ensures var s' := Run(s, events);
      var user, loaded := s'.requests[r].user, s'.requests[r].snapshot;
      var after := Step(s', SaveResend(r, token, expiry));
      var was, now := s'.accounts[user], after.accounts[user];
      && after.requests[r] == Resent && after.accounts.Keys == s'.accounts.Keys
      && now.hash == now.legacyHash == Some(token) && now.active == was.active
      && (loaded.expiresAt == Some(expiry) ==> now.expiresAt == was.expiresAt)
      && (loaded.expiresAt != Some(expiry) ==> now.expiresAt == Some(expiry))
      && (loaded.legacyExpiresAt == Some(expiry) ==> now.legacyExpiresAt == was.legacyExpiresAt)
      && (loaded.legacyExpiresAt != Some(expiry) ==> now.legacyExpiresAt == Some(expiry))
      && (loaded.usedAt == None ==> now.usedAt == was.usedAt) && (loaded.usedAt != None ==> now.usedAt == None)
      && forall u :: u in s'.accounts && u != user ==> after.accounts[u] == s'.accounts[u]
  {
    RunKeeps(s, events);
    var s' := Run(s, events);
    assert !Stores(s'.requests[r].snapshot, token);
  }

  /** With nothing between load and save the fresh token replaces whatever the account stored, and
      the account is unused and expires at the given time. */
  lemma ResendReplaces(s: State, events: seq<Event>, r: RequestId, user: UserId, token: Token, expiry: nat)
    requires Initial(s)
    requires var s' := Run(s, events); r !in s'.requests && user in s'.accounts && token !in s'.issued
    ensures var s' := Run(s, events);
      var after := Step(Step(s', StartResend(r, user)), SaveResend(r, token, expiry));
      && after.accounts == s'.accounts[user := after.accounts[user]]
      && (forall t :: Stores(after.accounts[user], t) <==> t == token)
      && after.accounts[user].usedAt.None?
      && after.accounts[user].expiresAt == after.accounts[user].legacyExpiresAt == Some(expiry)
      && after.clock == s'.clock && after.requests == s'.requests[r := Resent]
  {
    RunKeeps(s, events);
    var s' := Run(s, events);
    assert !Stores(s'.accounts[user], token);
  }

  /** So a lone setup with the fresh token before that time activates the account ... */
  lemma FreshTokenActivates(s: State, events: seq<Event>, r: RequestId, user: UserId, token: Token, expiry: nat,
                            r': RequestId)
    requires Initial(s)
    requires var s' := Run(s, events);
      r !in s'.requests && user in s'.accounts && token !in s'.issued && r' !in s'.requests && r' != r
    requires Run(s, events).clock < expiry
    ensures var after := Step(Step(Run(s, events), StartResend(r, user)), SaveResend(r, token, expiry));
      var done := Setup(after, r', token, Some(user));
      && done.requests[r'] == Answered(token, Activated)
      && done.accounts[user].active && done.accounts[user].usedAt == Some(after.clock)
      && forall t :: !Stores(done.accounts[user], t)
  {
    ResendReplaces(s, events, r, user, token, expiry);
    var after := Step(Step(Run(s, events), StartResend(r, user)), SaveResend(r, token, expiry));
    assert Stores(after.accounts[user], token);
  }

  /** ... and a superseded token finds no account: whatever a query for it can answer, it is invalid. */
  lemma SupersededTokenIsUnknown(s: State, events: seq<Event>, r: RequestId, user: UserId, token: Token, expiry: nat,
                                 r': RequestId, old_: Token, found: Option<UserId>)
    requires Initial(s)
    requires var s' := Run(s, events);
      && r !in s'.requests && user in s'.accounts && token !in s'.issued && r' !in s'.requests && r' != r
      && Stores(s'.accounts[user], old_)
    requires Finds(Step(Step(Run(s, events), StartResend(r, user)), SaveResend(r, token, expiry)).accounts, old_, found)
    ensures var after := Step(Step(Run(s, events), StartResend(r, user)), SaveResend(r, token, expiry));
      Setup(after, r', old_, found).requests[r'] == Answered(old_, TokenInvalid)
  {
    RunKeeps(s, events);
    ResendReplaces(s, events, r, user, token, expiry);
    assert old_ in Run(s, events).issued;
  }

  /** A setup between load and save: the save does not clear the mark of use, since the account was
      unused when loaded. So a lone setup with the fresh token is answered as already used exactly
      when the account was set up in between. */
  lemma ResendOverSetup(s: State, events: seq<Event>, r: RequestId, token: Token, expiry: nat, r': RequestId)
    requires Initial(s) && Saves(Run(s, events), r, token) && r' !in Run(s, events).requests
    ensures var s' := Run(s, events);
      var user, loaded := s'.requests[r].user, s'.requests[r].snapshot;
      var done := Setup(Step(s', SaveResend(r, token, expiry)), r', token, Some(user));
      && r' in done.requests
      && (done.requests[r'] == Answered(token, AlreadyUsed)
          <==> loaded.usedAt.None? && s'.accounts[user].usedAt.Some?)
  {
    ResendStoresItsToken(s, events, r, token, expiry);
    var s' := Run(s, events);
    var user := s'.requests[r].user;
    UndisturbedSetup(Step(s', SaveResend(r, token, expiry)), r', token, user);
  }

  // ---------------------------------------------------------------- expiry at the update

  /** No request waits `patience` or longer between its first read and its update. */
  ghost predicate Prompt(s: State, patience: nat) {
    forall r :: r in s.requests && s.requests[r].Checked? ==> s.clock < s.requests[r].now + patience
  }

  ghost predicate PromptRun(s: State, events: seq<Event>, patience: nat) {
    forall n :: 0 <= n <= |events| ==> Prompt(Run(s, events[..n]), patience)
  }

  ghost predicate SwapsInTime(s: State, patience: nat) {
    forall k :: 0 <= k < |s.activations| ==>
        s.activations[k].startedAt <= s.activations[k].at < s.activations[k].startedAt + patience
  }

  lemma StepInTime(s: State, e: Event, patience: nat)
    requires Justified(s) && Prompt(s, patience) && SwapsInTime(s, patience)
    ensures SwapsInTime(Step(s, e), patience)
  {
    var s' := Step(s, e);
    if e.Swap? && s'.activations != s.activations {
      assert s.requests[e.request].Checked?;
    } else {
      assert s'.activations == s.activations;
    }
  }

  lemma {:induction false} PromptSwaps(s: State, events: seq<Event>, patience: nat)
    requires Initial(s) && PromptRun(s, events, patience)
    ensures SwapsInTime(Run(s, events), patience)
    decreases |events|
  {
    if events != [] {
      var n := |events| - 1;
      forall m | 0 <= m <= n ensures Prompt(Run(s, events[..n][..m]), patience) {
        assert events[..n][..m] == events[..m];
      }
      PromptSwaps(s, events[..n], patience);
      RunKeeps(s, events[..n]);
      StepInTime(Run(s, events[..n]), events[n], patience);
      hide Step, Prompt, SwapsInTime, Justified, Spent, StoredOnce, Recorded;
    }
  }

  /** In a prompt run the `k`-th activation, of a request begun at `start` on an account whose setup
      expiry was `expiry`, reached the database at or after that expiry. */
  ghost predicate LateIn(s: State, events: seq<Event>, k: nat, start: nat, expiry: nat, patience: nat) {
    && Initial(s) && PromptRun(s, events, patience)
    && k < |Run(s, events).activations|
    && var activation := Run(s, events).activations[k];
       activation.startedAt == start && activation.before.expiresAt == Some(expiry) && activation.at >= expiry
  }

  /** An account that stores token 7 until `expiry`, at time `start`. */
  function Waiting(start: nat, expiry: nat): State {
    State(map[1 := Account(Some(7), Some(7), Some(expiry), Some(expiry), None, false)], map[], {7}, [], start)
  }

  /** A request begun at `start` whose update arrives exactly at the expiry. */
  function LateRun(start: nat, expiry: nat): seq<Event>
    requires start <= expiry
  {
    [StartSetup(0, 7, Some(1)), Tick(expiry - start), Swap(0)]
  }

  lemma LateActivation(start: nat, expiry: nat, patience: nat)
    requires start < expiry < start + patience
    ensures LateIn(Waiting(start, expiry), LateRun(start, expiry), 0, start, expiry, patience)
  {
    var s, events := Waiting(start, expiry), LateRun(start, expiry);
    var s1, s2, s3 := Step(s, events[0]), Step(Step(s, events[0]), events[1]),
        Step(Step(Step(s, events[0]), events[1]), events[2]);
    assert Run(s, events[..0]) == s;
    assert events[..1][..0] == events[..0] && Run(s, events[..1]) == s1;
    assert events[..2][..1] == events[..1] && Run(s, events[..2]) == s2;
    assert events[..3][..2] == events[..2] && events[..3] == events && Run(s, events) == s3;
    assert Stores(s.accounts[1], 7) && Finds(s.accounts, 7, Some(1));
    assert s1.requests == map[0 := Checked(1, 7, start)] && s1.accounts == s.accounts;
    assert s2 == s1.(clock := expiry);
    assert Takes(s2.accounts[1], 7, start);
    assert s3.activations == [Activation(0, 1, 7, start, expiry, s.accounts[1])];
    assert Prompt(s, patience) && Prompt(s1, patience) && Prompt(s2, patience) && Prompt(s3, patience);
    forall n | 0 <= n <= |events| ensures Prompt(Run(s, events[..n]), patience) {
      assert n == 0 || n == 1 || n == 2 || n == 3;
    }
  }

  /** Some run within the bound activates at or after the expiry. */
  ghost predicate CanBeLate(start: nat, expiry: nat, patience: nat) {
    exists s: State, events: seq<Event>, k: nat :: LateIn(s, events, k, start, expiry, patience)
  }

  /** The expiry is compared with the time at the start of the request. So when an activation can be
      late: for every start, expiry and bound on the time a request takes, some run within that bound
      activates at or after the expiry if and only if the expiry falls after the start and before the
      bound runs out. A request begun at least that long before the expiry is always in time. */
  lemma LateExactly(start: nat, expiry: nat, patience: nat)
    ensures CanBeLate(start, expiry, patience) <==> start < expiry < start + patience
  {
    if CanBeLate(start, expiry, patience) {
      var s: State, events: seq<Event>, k: nat :| LateIn(s, events, k, start, expiry, patience);
      RunKeeps(s, events);
      PromptSwaps(s, events, patience);
    }
    if start < expiry < start + patience {
      LateActivation(start, expiry, patience);
    }
  }
}
