/** The password history window: changing a password and resetting it by token share the rule that
    a new password may repeat neither the current one nor any of the last five superseded ones.
    Comparison with a stored hash is equality of passwords. */
module PasswordHistory {
  import opened Options

  /** Passwords are only ever compared. */
  type Password = nat

  const LIMIT: nat := 5

  datatype Reply = Updated | WeakPassword | SetupRequired | WrongPassword | NoCurrentPassword
                 | InvalidToken | InHistory | SameAsCurrent

  datatype Account = Account(current: Option<Password>, history: seq<Password>, mustSetPassword: bool)

  /** A change carries the current password; a reset carries whether its token was found. */
  datatype Request =
    | Change(currentPassword: Password, newPassword: Password)
    | Reset(tokenFound: bool, newPassword: Password)

  // ---------------------------------------------------------------- the rule

  /** `slice(-n)`. */
  function Last(s: seq<Password>, n: nat): seq<Password> {
    if |s| > n then s[|s| - n..] else s
  }

  function LastFew(s: seq<Password>): seq<Password> {
    Last(s, LIMIT)
  }

  function Reuse(a: Account, p: Password): Reply {
    if p in LastFew(a.history) then InHistory
    else if a.current == Some(p) then SameAsCurrent
    else Updated
  }

  function Decide(strong: Password -> bool, a: Account, r: Request): Reply {
    if !strong(r.newPassword) then WeakPassword
    else match r
      case Change(currentPassword, newPassword) =>
        if a.mustSetPassword then SetupRequired
        else if a.current.None? then NoCurrentPassword
        else if a.current.value != currentPassword then WrongPassword
        else Reuse(a, newPassword)
      case Reset(tokenFound, newPassword) =>
        if !tokenFound then InvalidToken else Reuse(a, newPassword)
  }

  function Replace(a: Account, p: Password): Account {
    Account(Some(p), if a.current.Some? then LastFew(a.history + [a.current.value]) else a.history, false)
  }

  function Apply(strong: Password -> bool, a: Account, r: Request): Account {
    if Decide(strong, a, r).Updated? then Replace(a, r.newPassword) else a
  }

  /** The user document as the handlers hold it. */
  class User {
    var passwordHash: Option<Password>
    var passwordHistory: seq<Password>
    var mustSetPassword: bool

    function Value(): Account
      reads this
    {
      Account(passwordHash, passwordHistory, mustSetPassword)
    }

    constructor (current: Option<Password>, mustSetPassword: bool)
      ensures Value() == Account(current, [], mustSetPassword)
    {
      this.passwordHash := current;
      this.passwordHistory := [];
      this.mustSetPassword := mustSetPassword;
    }

    /** Whether the new password matches any entry of the window, compared one by one. */
    method MatchesHistory(p: Password) returns (found: bool)
      ensures found <==> p in LastFew(passwordHistory)
    {
      var window := LastFew(passwordHistory);
      found := false;
      var i := 0;
      while i < |window|
        invariant 0 <= i <= |window|
        invariant found <==> p in window[..i]
      {
        if window[i] == p {
          found := true;
        }
        i := i + 1;
      }
    }

    /** Push the superseded password and cut the history back to its limit. */
    method Supersede(old_: Password)
      modifies this`passwordHistory
      ensures passwordHistory == LastFew(old(passwordHistory) + [old_])
    {
      passwordHistory := passwordHistory + [old_];
      if |passwordHistory| > LIMIT {
        passwordHistory := LastFew(passwordHistory);
      }
    }

    method ChangePassword(strong: Password -> bool, currentPassword: Password, newPassword: Password)
      returns (reply: Reply)
      modifies this
      ensures reply == Decide(strong, old(Value()), Change(currentPassword, newPassword))
      ensures Value() == Apply(strong, old(Value()), Change(currentPassword, newPassword))
    {
      if !strong(newPassword) { return WeakPassword; }
      if mustSetPassword { return SetupRequired; }
      if passwordHash.None? { return NoCurrentPassword; }
      if passwordHash.value != currentPassword { return WrongPassword; }
      var reused := MatchesHistory(newPassword);
      if reused { return InHistory; }
      if passwordHash.value == newPassword { return SameAsCurrent; }
      Supersede(passwordHash.value);
      passwordHash := Some(newPassword);
      mustSetPassword := false;
      reply := Updated;
    }

    method ResetPasswordWithToken(strong: Password -> bool, tokenFound: bool, newPassword: Password)
      returns (reply: Reply)
      modifies this
      ensures reply == Decide(strong, old(Value()), Reset(tokenFound, newPassword))
      ensures Value() == Apply(strong, old(Value()), Reset(tokenFound, newPassword))
    {
      if !strong(newPassword) { return WeakPassword; }
      if !tokenFound { return InvalidToken; }
      var reused := MatchesHistory(newPassword);
      if reused { return InHistory; }
      if passwordHash.Some? {
        if passwordHash.value == newPassword { return SameAsCurrent; }
        Supersede(passwordHash.value);
      }
      passwordHash := Some(newPassword);
      mustSetPassword := false;
      reply := Updated;
    }
  }

  // ---------------------------------------------------------------- runs

  /** The account after the first `n` requests. */
  function After(strong: Password -> bool, start: Account, requests: seq<Request>, n: nat): Account
    requires n <= |requests|
  {
    if n == 0 then start else Apply(strong, After(strong, start, requests, n - 1), requests[n - 1])
  }

  /** Every password the account has had, in order, the current one last. */
  function Passwords(strong: Password -> bool, start: Account, requests: seq<Request>, n: nat): seq<Password>
    requires n <= |requests|
  {
    if n == 0 then (if start.current.Some? then [start.current.value] else [])
    else
      var a := After(strong, start, requests, n - 1);
      var before := Passwords(strong, start, requests, n - 1);
      if Decide(strong, a, requests[n - 1]).Updated? then before + [requests[n - 1].newPassword] else before
  }

  /** Where the window of the last `size` of `m` passwords begins. */
  function From(m: nat, size: nat): (start: nat)
    ensures start <= m
  {
    if m > size then m - size else 0
  }

  /** An account whose history is exactly the five passwords behind its current one. */
  predicate Tracks(a: Account, passwords: seq<Password>) {
    var m := |passwords|;
    if m == 0 then a.current.None? && a.history == []
    else a.current == Some(passwords[m - 1]) && a.history == passwords[From(m - 1, 5)..m - 1]
  }

  lemma TracksNext(a: Account, passwords: seq<Password>, p: Password)
    requires Tracks(a, passwords)
    ensures Tracks(Replace(a, p), passwords + [p])
  {
    var m := |passwords|;
    if m > 0 {
      assert a.history + [a.current.value] == passwords[From(m - 1, 5)..];
      assert (passwords + [p])[From(m, 5)..m] == passwords[From(m, 5)..];
    }
  }

  /** The stored history is the last at most five superseded passwords, in order. */
  lemma {:induction false} HistoryIsTheWindow(strong: Password -> bool, start: Account, requests: seq<Request>, n: nat)
    requires n <= |requests| && start.history == []
    ensures Tracks(After(strong, start, requests, n), Passwords(strong, start, requests, n))
  {
    if n > 0 {
      HistoryIsTheWindow(strong, start, requests, n - 1);
      TracksNext(After(strong, start, requests, n - 1), Passwords(strong, start, requests, n - 1),
          requests[n - 1].newPassword);
    }
  }

  /** None of the last six passwords, the current one included. */
  predicate Fresh(passwords: seq<Password>, p: Password) {
    p !in passwords[From(|passwords|, 6)..]
  }

  lemma WindowIsWhole(a: Account, passwords: seq<Password>)
    requires Tracks(a, passwords)
    ensures LastFew(a.history) == a.history
    ensures passwords != [] ==> passwords[From(|passwords|, 6)..] == a.history + [passwords[|passwords| - 1]]
  {
  }

  lemma ReuseIsSeen(a: Account, passwords: seq<Password>, p: Password)
    requires Tracks(a, passwords)
    ensures Reuse(a, p).Updated? <==> Fresh(passwords, p)
  {
    WindowIsWhole(a, passwords);
  }

  /** Passwords fewer than seven apart differ. */
  predicate DistinctWindow(passwords: seq<Password>) {
    forall i, j :: 0 <= i < j < |passwords| && j - i < 7 ==> passwords[i] != passwords[j]
  }

  /** Any seven consecutive passwords are pairwise distinct. */
  lemma {:induction false} SevenInARowDistinct(strong: Password -> bool, start: Account, requests: seq<Request>, n: nat)
    requires n <= |requests| && start.history == []
    ensures DistinctWindow(Passwords(strong, start, requests, n))
  {
    if n > 0 {
      SevenInARowDistinct(strong, start, requests, n - 1);
      HistoryIsTheWindow(strong, start, requests, n - 1);
      ReuseIsSeen(After(strong, start, requests, n - 1), Passwords(strong, start, requests, n - 1),
          requests[n - 1].newPassword);
      var before, p := Passwords(strong, start, requests, n - 1), requests[n - 1].newPassword;
      var last := before[From(|before|, 6)..];
      forall i: nat | Fresh(before, p) && From(|before|, 6) <= i < |before| ensures before[i] != p {
        assert last[i - From(|before|, 6)] == before[i];
      }
    }
  }

  /** And no stricter: once past the other checks, a password is accepted exactly when it is none of
      the last six the account has had. */
  lemma AcceptedExactly(strong: Password -> bool, start: Account, requests: seq<Request>, n: nat, r: Request)
    requires n <= |requests| && start.history == [] && strong(r.newPassword)
    requires var a := After(strong, start, requests, n);
      match r
      case Change(currentPassword, _) => !a.mustSetPassword && a.current == Some(currentPassword)
      case Reset(tokenFound, _) => tokenFound
    ensures Decide(strong, After(strong, start, requests, n), r).Updated?
      <==> Fresh(Passwords(strong, start, requests, n), r.newPassword)
  {
    HistoryIsTheWindow(strong, start, requests, n);
    ReuseIsSeen(After(strong, start, requests, n), Passwords(strong, start, requests, n), r.newPassword);
  }

  /** Whether the account still has to set its first password: no request has been granted. */
  predicate StillToSet(strong: Password -> bool, start: Account, requests: seq<Request>, n: nat)
    requires n <= |requests|
  {
    start.mustSetPassword && |Passwords(strong, start, requests, n)| == |Passwords(strong, start, requests, 0)|
  }

  lemma {:induction false} FirstPasswordClears(strong: Password -> bool, start: Account, requests: seq<Request>, n: nat)
    requires n <= |requests|
    ensures |Passwords(strong, start, requests, n)| >= |Passwords(strong, start, requests, 0)|
    ensures After(strong, start, requests, n).mustSetPassword <==> StillToSet(strong, start, requests, n)
  {
    if n > 0 {
      FirstPasswordClears(strong, start, requests, n - 1);
    }
  }

  /** What a change is told, read off the passwords the account has had: too weak; still to be set up;
      no password to compare with; the wrong current password, which must be the last of them; the
      last of them again; one of the five before it; and otherwise granted. */
  lemma ChangeIsTold(strong: Password -> bool, start: Account, requests: seq<Request>, n: nat, given: Password,
                     p: Password)
    requires n <= |requests| && start.history == []
    ensures var had := Passwords(strong, start, requests, n);
      var m := |had|;
      var checked := strong(p) && !StillToSet(strong, start, requests, n);
      var known := checked && m > 0 && had[m - 1] == given;
      var reply := Decide(strong, After(strong, start, requests, n), Change(given, p));
      && (reply == WeakPassword <==> !strong(p))
      && (reply == SetupRequired <==> strong(p) && StillToSet(strong, start, requests, n))
      && (reply == NoCurrentPassword <==> checked && m == 0)
      && (reply == WrongPassword <==> checked && m > 0 && had[m - 1] != given)
      && (reply == SameAsCurrent <==> known && had[m - 1] == p)
      && (reply == InHistory <==> known && p in had[From(m - 1, 5)..m - 1])
      && (reply == Updated <==> known && Fresh(had, p))
  {
    HistoryIsTheWindow(strong, start, requests, n);
    FirstPasswordClears(strong, start, requests, n);
    SevenInARowDistinct(strong, start, requests, n);
    WindowIsWhole(After(strong, start, requests, n), Passwords(strong, start, requests, n));
    hide StillToSet;
  }

  /** What a reset is told: too weak; no such token; and then the same rule, without a current
      password to be given. */
  lemma ResetIsTold(strong: Password -> bool, start: Account, requests: seq<Request>, n: nat, found: bool, p: Password)
    requires n <= |requests| && start.history == []
    ensures var had := Passwords(strong, start, requests, n);
      var m := |had|;
      var known := strong(p) && found;
      var reply := Decide(strong, After(strong, start, requests, n), Reset(found, p));
      && (reply == WeakPassword <==> !strong(p))
      && (reply == InvalidToken <==> strong(p) && !found)
      && (reply == SameAsCurrent <==> known && m > 0 && had[m - 1] == p)
      && (reply == InHistory <==> known && m > 0 && p in had[From(m - 1, 5)..m - 1])
      && (reply == Updated <==> known && Fresh(had, p))
  {
    HistoryIsTheWindow(strong, start, requests, n);
    SevenInARowDistinct(strong, start, requests, n);
    WindowIsWhole(After(strong, start, requests, n), Passwords(strong, start, requests, n));
  }
}
