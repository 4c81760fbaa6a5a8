/** The one-time use of client status verifications: a map from the identifier of each used token
    to the moment it may be forgotten, pruned at every call. Calls run one at a time; each reads the
    clock four times. */
module ReplayGuard {
  import opened Text
  import opened Options

  /** The payload of a token whose signature, issuer and audience are right; `exp` is in seconds
      (section 4.1.4 of RFC 7519). */
  datatype Token = Token(kind: string, purpose: string, jti: string, identifier: string, exp: Option<nat>)

  /** The identifier of the signed-in user: found, empty when there is none, or the look-up failed. */
  datatype Lookup = LookupFailed | Identifier(identifier: string)

  /** One call: the text sent, what the signature check makes of it, the outcome of looking up the
      user's identifier, and the clock readings, in milliseconds, at pruning, at the signature check, at the reuse
      check and at recording. */
  datatype Call = Call(text: string, token: Option<Token>, expected: Lookup,
                       pruned: nat, verified: nat, checked: nat, recorded: nat)

  datatype Reply = Required | Invalid | Reused | Mismatch | Accepted

  type Used = map<string, nat>

  const KIND := "otp_verification"
  const PURPOSE := "client_status_change"

  // ---------------------------------------------------------------- one call

  function ExpiryMs(token: Token): nat {
    if token.exp.Some? then token.exp.value * 1000 else 0
  }

  /** The token a call presents, if it passes every check but those on reuse and identity. */
  function Presented(call: Call): Option<Token> {
    if Trim(call.text) == "" then None
    else
      match call.token
      case None => None
      case Some(token) =>
        if token.exp.Some? && call.verified >= token.exp.value * 1000 then None
        else if token.kind != KIND || token.purpose != PURPOSE || Trim(token.jti) == "" then None
        else Some(token)
  }

  function Judge(call: Call, reused: bool): Reply {
    if Trim(call.text) == "" then Required
    else
      match Presented(call)
      case None => Invalid
      case Some(token) =>
        if reused then Reused
        else if call.expected.LookupFailed? then Invalid
        else if call.expected.identifier == "" || token.identifier != call.expected.identifier then Mismatch
        else Accepted
  }

  function Jti(call: Call): string {
    match Presented(call)
    case None => ""
    case Some(token) => Trim(token.jti)
  }

  function Pruned(used: Used, now: nat): Used {
    map j | j in used && used[j] > now :: used[j]
  }

  predicate Blocked(used: Used, jti: string, now: nat) {
    jti in used && used[jti] > now
  }

  function ReplyTo(used: Used, call: Call): Reply {
    Judge(call, Blocked(Pruned(used, call.pruned), Jti(call), call.checked))
  }

  function After(used: Used, call: Call): Used {
    if Trim(call.text) == "" then used
    else
      var kept := Pruned(used, call.pruned);
      if ReplyTo(used, call).Accepted? && ExpiryMs(Presented(call).value) > call.recorded
      then kept[Jti(call) := ExpiryMs(Presented(call).value)]
      else kept
  }

  /** The shared map of the controller. */
  class Guard {
    var used: Used

    constructor ()
      ensures used == map[]
    {
      used := map[];
    }

    /** pruneUsedClientStatusOtpJti. */
    method Prune(now: nat)
      modifies this
      ensures used == Pruned(old(used), now)
    {
      var left := used.Keys;
      while left != {}
        invariant left <= used.Keys <= old(used).Keys
        invariant forall j :: j in used ==> used[j] == old(used)[j]
        invariant forall j :: j in old(used) && j !in left ==> (j in used <==> old(used)[j] > now)
        decreases |left|
      {
        var jti :| jti in left;
        left := left - {jti};
        if used[jti] <= now {
          used := used - {jti};
        }
      }
    }

    /** ensureClientStatusOtpVerification. */
    method Ensure(call: Call) returns (reply: Reply)
      modifies this
      ensures reply == ReplyTo(old(used), call)
      ensures used == After(old(used), call)
    {
      hide Trim;
      if Trim(call.text) == "" { return Required; }
      Prune(call.pruned);
      if call.token.None? { return Invalid; }
      var token := call.token.value;
      if token.exp.Some? && call.verified >= token.exp.value * 1000 { return Invalid; }
      if token.kind != KIND || token.purpose != PURPOSE { return Invalid; }
      var jti := Trim(token.jti);
      if jti == "" { return Invalid; }
      if jti in used && used[jti] > call.checked { return Reused; }
      if call.expected.LookupFailed? { return Invalid; }
      if call.expected.identifier == "" || token.identifier != call.expected.identifier { return Mismatch; }
      var expiryMs := if token.exp.Some? then token.exp.value * 1000 else 0;
      if expiryMs > call.recorded {
        used := used[jti := expiryMs];
      }
      reply := Accepted;
    }
  }

  // ---------------------------------------------------------------- the log that never forgets

  function LogReply(log: Used, call: Call): Reply {
    Judge(call, Jti(call) in log)
  }

  function LogAfter(log: Used, call: Call): Used {
    if LogReply(log, call).Accepted? then log[Jti(call) := ExpiryMs(Presented(call).value)] else log
  }

  /** The pruned map, and the log, after the first `n` calls. */
  function Run(calls: seq<Call>, n: nat): Used
    requires n <= |calls|
  {
    if n == 0 then map[] else After(Run(calls, n - 1), calls[n - 1])
  }

  function LogRun(calls: seq<Call>, n: nat): Used
    requires n <= |calls|
  {
    if n == 0 then map[] else LogAfter(LogRun(calls, n - 1), calls[n - 1])
  }

  /** Tokens as the one-time password service issues them: each has an expiry, and no identifier is
      issued with two of them. */
  predicate Issued(calls: seq<Call>) {
    && (forall i :: 0 <= i < |calls| && calls[i].token.Some? ==> calls[i].token.value.exp.Some?)
    && (forall i, k | 0 <= i < |calls| && 0 <= k < |calls| && calls[i].token.Some? && calls[k].token.Some? ::
          Trim(calls[i].token.value.jti) == Trim(calls[k].token.value.jti) ==>
              calls[i].token.value.exp == calls[k].token.value.exp)
  }

  /** The clock never goes backwards. */
  predicate Timely(calls: seq<Call>) {
    && (forall i :: 0 <= i < |calls| ==>
          calls[i].pruned <= calls[i].verified <= calls[i].checked <= calls[i].recorded)
    && (forall i, k :: 0 <= i < k < |calls| ==> calls[i].recorded <= calls[k].pruned)
  }

  /** What the map has kept of the log at a moment: all that has not expired, unchanged. */
  ghost predicate Covers(used: Used, log: Used, now: nat) {
    && (forall j :: j in used ==> j in log && used[j] == log[j])
    && (forall j :: j in log && log[j] > now ==> j in used)
  }

  /** The log holds the expiry that every call's token of that identifier carries. */
  predicate Faithful(calls: seq<Call>, log: Used) {
    forall i | 0 <= i < |calls| && calls[i].token.Some? ::
      Trim(calls[i].token.value.jti) in log ==> log[Trim(calls[i].token.value.jti)] == ExpiryMs(calls[i].token.value)
  }

  /** The call presents a token already in the log and its expiry passes between the signature check
      and the reuse check. */
  predicate Straddles(log: Used, call: Call) {
    Presented(call).Some? && Jti(call) in log && ExpiryMs(Presented(call).value) <= call.checked
  }

  lemma OneCall(used: Used, log: Used, call: Call)
    requires Covers(used, log, call.pruned)
    requires call.token.Some? ==> call.token.value.exp.Some?
    requires call.token.Some? && Trim(call.token.value.jti) in log ==>
        log[Trim(call.token.value.jti)] == ExpiryMs(call.token.value)
    requires call.pruned <= call.verified <= call.checked <= call.recorded
    ensures ReplyTo(used, call) == LogReply(log, call) <==> !Straddles(log, call)
    ensures Covers(After(used, call), LogAfter(log, call), call.recorded)
  {
    hide Trim;
  }

  lemma LogStaysFaithful(calls: seq<Call>, log: Used, i: nat)
    requires Issued(calls) && Faithful(calls, log) && i < |calls|
    ensures Faithful(calls, LogAfter(log, calls[i]))
  {
    hide Trim;
  }

  lemma {:induction false} RunCovers(calls: seq<Call>, n: nat, now: nat)
    requires Issued(calls) && Timely(calls) && n <= |calls|
    requires n > 0 ==> calls[n - 1].recorded <= now
    ensures Covers(Run(calls, n), LogRun(calls, n), now) && Faithful(calls, LogRun(calls, n))
    decreases n
  {
    if n > 0 {
      RunCovers(calls, n - 1, calls[n - 1].pruned);
      OneCall(Run(calls, n - 1), LogRun(calls, n - 1), calls[n - 1]);
      LogStaysFaithful(calls, LogRun(calls, n - 1), n - 1);
    }
  }

  function ReplyAt(calls: seq<Call>, i: nat): Reply
    requires i < |calls|
  {
    ReplyTo(Run(calls, i), calls[i])
  }

  function LogReplyAt(calls: seq<Call>, i: nat): Reply
    requires i < |calls|
  {
    LogReply(LogRun(calls, i), calls[i])
  }

  /** Over any run, the pruned map answers a call as the log that never forgets would, except exactly
      when the call presents a used token whose expiry passes between its signature check and its
      reuse check. */
  lemma PruningIsInvisible(calls: seq<Call>, i: nat)
    requires Issued(calls) && Timely(calls) && i < |calls|
    ensures ReplyAt(calls, i) == LogReplyAt(calls, i) <==> !Straddles(LogRun(calls, i), calls[i])
  {
    RunCovers(calls, i, calls[i].pruned);
    OneCall(Run(calls, i), LogRun(calls, i), calls[i]);
  }

  lemma {:induction false} AcceptedIsLogged(calls: seq<Call>, i: nat, n: nat)
    requires Issued(calls) && Timely(calls) && i < n <= |calls| && ReplyAt(calls, i).Accepted?
    ensures Jti(calls[i]) in LogRun(calls, n)
    decreases n
  {
    hide Judge, Presented, Jti, Run;
    if i < n - 1 {
      AcceptedIsLogged(calls, i, n - 1);
    } else {
      PruningIsInvisible(calls, i);
    }
  }

  /** No identifier is accepted twice, even when its expiry passes between the reuse check and the
      recording: a second acceptance needs the expiry to pass between the second call's signature
      check and its reuse check. */
  lemma AcceptedOnce(calls: seq<Call>, i: nat, k: nat)
    requires Issued(calls) && Timely(calls) && i < k < |calls| && Jti(calls[i]) == Jti(calls[k])
    requires ReplyAt(calls, i).Accepted? && ReplyAt(calls, k).Accepted?
    ensures Presented(calls[k]).Some?
    ensures calls[k].verified < ExpiryMs(Presented(calls[k]).value) <= calls[k].checked
  {
    hide Trim, Run, LogRun;
    AcceptedIsLogged(calls, i, k);
    PruningIsInvisible(calls, k);
  }

  // ---------------------------------------------------------------- every reply

  /** The call carries a token of the right kind and purpose, with an identifier, that had not
      expired when its signature was checked. */
  predicate Genuine(call: Call) {
    && call.token.Some? && call.token.value.kind == "otp_verification"
    && call.token.value.purpose == "client_status_change" && Trim(call.token.value.jti) != ""
    && (call.token.value.exp.Some? ==> call.verified < call.token.value.exp.value * 1000)
  }

  /** An earlier call was accepted with the same identifier. */
  predicate UsedBefore(calls: seq<Call>, i: nat)
    requires i < |calls| && calls[i].token.Some?
  {
    exists k :: 0 <= k < i && ReplyAt(calls, k).Accepted? && calls[k].token.Some?
                && Trim(calls[k].token.value.jti) == Trim(calls[i].token.value.jti)
  }

  lemma {:induction false} LoggedWasAccepted(calls: seq<Call>, n: nat, jti: string) returns (k: nat)
    requires Issued(calls) && Timely(calls) && n <= |calls| && jti in LogRun(calls, n)
    ensures k < n && ReplyAt(calls, k).Accepted? && calls[k].token.Some? && Trim(calls[k].token.value.jti) == jti
  {
    hide Trim, Run;
    if jti in LogRun(calls, n - 1) {
      k := LoggedWasAccepted(calls, n - 1, jti);
    } else {
      k := n - 1;
      PruningIsInvisible(calls, k);
    }
  }

  lemma UsedIsLogged(calls: seq<Call>, i: nat)
    requires Issued(calls) && Timely(calls) && i < |calls| && calls[i].token.Some?
    ensures Trim(calls[i].token.value.jti) in LogRun(calls, i) <==> UsedBefore(calls, i)
  {
    hide Trim, Run, LogRun;
    if Trim(calls[i].token.value.jti) in LogRun(calls, i) {
      var k := LoggedWasAccepted(calls, i, Trim(calls[i].token.value.jti));
    }
    forall k: nat | k < i && ReplyAt(calls, k).Accepted? ensures Jti(calls[k]) in LogRun(calls, i) {
      AcceptedIsLogged(calls, k, i);
    }
  }

  /** Over any run, every reply, read off the call and the calls accepted before it: no text sent;
      no genuine token, or a failed identifier look-up; used before and still in force at the reuse
      check; the wrong user or none; and otherwise accepted. */
  lemma RepliesExactly(calls: seq<Call>, i: nat)
    requires Issued(calls) && Timely(calls) && i < |calls|
    ensures var call, reply := calls[i], ReplyAt(calls, i);
      var sent := Trim(call.text) != "";
      var reused := Genuine(call) && UsedBefore(calls, i) && call.token.value.exp.value * 1000 > call.checked;
      var open_ := sent && Genuine(call) && !reused;
      && (reply == Required <==> !sent)
      && (reply == Invalid <==> (sent && !Genuine(call)) || (open_ && call.expected.LookupFailed?))
      && (reply == Reused <==> sent && reused)
      && (reply == Mismatch <==>
          (open_ && call.expected.Identifier?
           && (call.expected.identifier == "" || call.expected.identifier != call.token.value.identifier)))
      && (reply == Accepted <==>
          (open_ && call.expected.Identifier? && call.expected.identifier == call.token.value.identifier != ""))
  {
    hide Trim, Run, LogRun, UsedBefore;
    RunCovers(calls, i, calls[i].pruned);
    if calls[i].token.Some? {
      UsedIsLogged(calls, i);
    }
  }

  /** Only an acceptance is remembered, only while it is in force, and until its token expires. */
  lemma OnlyLiveIsRecorded(used: Used, call: Call, jti: string)
    requires jti in After(used, call) && (jti !in used || After(used, call)[jti] != used[jti])
    ensures ReplyTo(used, call).Accepted? && call.token.Some? && jti == Trim(call.token.value.jti)
    ensures call.token.value.exp.Some? && After(used, call)[jti] == call.token.value.exp.value * 1000 > call.recorded
  {
    hide Trim;
  }

  // ---------------------------------------------------------------- what the guarantee rests on

  const SAMPLE := Token(KIND, PURPOSE, "j", "a@b.in", Some(1))

  /** The exception happens: a token that expires at 1000 is accepted at 500 and again by a call that
      checks its signature at 999 and its reuse at 1000. */
  lemma StraddlingCallReplays()
    ensures var calls := [Call("t", Some(SAMPLE), Identifier("a@b.in"), 500, 500, 500, 500),
                          Call("t", Some(SAMPLE), Identifier("a@b.in"), 999, 999, 1000, 1000)];
      Issued(calls) && Timely(calls) && ReplyAt(calls, 0).Accepted? && ReplyAt(calls, 1).Accepted?
  {
    var calls := [Call("t", Some(SAMPLE), Identifier("a@b.in"), 500, 500, 500, 500),
                  Call("t", Some(SAMPLE), Identifier("a@b.in"), 999, 999, 1000, 1000)];
    assert Trim("t") == "t" && Trim("j") == "j";
    assert Run(calls, 0) == map[];
    assert Run(calls, 1) == After(map[], calls[0]);
  }

  /** A token without an expiry is never remembered: whoever holds it is accepted at every call. */
  lemma NoExpiryIsNeverRemembered(used: Used, call: Call)
    requires Presented(call).Some? && Presented(call).value.exp.None?
    ensures After(used, call) == Pruned(used, call.pruned)
    ensures Jti(call) !in used && Presented(call).value.identifier != ""
        && call.expected == Identifier(Presented(call).value.identifier)
      ==> ReplyTo(used, call).Accepted? && Jti(call) !in After(used, call)
  {
    hide Trim;
  }
}
