/** The claim evaluator (scripts/coordination/ledger-claim-state.py): who may act on an issue. */
module Claims {
  import opened Json
  import opened Replay
  import opened Chain

  datatype Kind =
    | ClaimAccepted
    | HeartbeatEvidence
    | Revocation
    | TakeoverAccepted
    | TakeoverCommitted
    | TakeoverRejected
    | Closure
    | Unrelated

  function KindOf(eventType: Value): Kind {
    if !eventType.Str? then Unrelated
    else if eventType.s == "CLAIM_ACCEPTED" then ClaimAccepted
    else if eventType.s == "HEARTBEAT_EVIDENCE" then HeartbeatEvidence
    else if eventType.s in ["CLAIM_STALE", "CLAIM_EXPIRED", "MIRROR_DRIFT_DETECTED",
                            "MIRROR_ORPHAN_DETECTED", "BLOCKED_FAIL_CLOSED"] then Revocation
    else if eventType.s == "TAKEOVER_ACCEPTED" then TakeoverAccepted
    else if eventType.s == "TAKEOVER_COMMITTED" then TakeoverCommitted
    else if eventType.s == "TAKEOVER_REJECTED" then TakeoverRejected
    else if eventType.s in ["TOMBSTONE_CHAIN", "SUPERSEDE_ISSUE"] then Closure
    else Unrelated
  }

  datatype Lease = Unreadable | NoLease | Until(at: int)

  /** What the evaluator reads from one event. */
  datatype Ev = Ev(
    kind: Kind,
    repo: Option<string>,
    issue: Option<int>,
    session: Option<string>,
    oldSession: Option<string>,
    newSession: Option<string>,
    at: int,
    lease: Lease,
    interval: Option<int>,
    grace: Option<int>)

  function PayloadOf(e: Object): Object {
    if Get(e, Payload).Obj? then Get(e, Payload).fields else map[]
  }

  function RepoOf(data: Object): Option<string> {
    NonEmptyString(Or(Get(data, Repository), Get(data, Repo)))
  }

  function SessionOf(data: Object): Option<string> {
    if NonEmptyString(Get(data, Session)).Some? then NonEmptyString(Get(data, Session))
    else NonEmptyString(Get(data, ClaimSession))
  }

  function LeaseOf(env: Env, data: Object): Lease {
    var v := Or(Get(data, ClaimExpiresAt), Get(data, ExpiresAt));
    if v.Null? || v == Str("") then NoLease
    else if v.Str? && env.time(v.s).Some? then Until(env.time(v.s).value)
    else Unreadable
  }

  /** `int(value or default)`, or nothing where that raises. */
  function MinutesOf(env: Env, v: Value, default: int): Option<int> {
    if !Truthy(v) then Some(default)
    else
      match v
      case Num(n) => Some(n)
      case Bool(_) => Some(1)
      case Str(s) => env.number(s)
      case _ => None
  }

  function Read(env: Env, e: Object): Ev {
    var data := PayloadOf(e);
    Ev(KindOf(Get(e, EventType)),
       RepoOf(data),
       PositiveInt(Get(data, Issue)),
       SessionOf(data),
       NonEmptyString(Get(data, OldSession)),
       NonEmptyString(Get(data, NewSession)),
       TimeOf(env, e),
       LeaseOf(env, data),
       MinutesOf(env, Get(data, HeartbeatInterval), 30),
       MinutesOf(env, Get(data, HeartbeatGrace), 45))
  }

  function ReadAll(env: Env, events: seq<Object>): seq<Ev> {
    seq(|events|, i requires 0 <= i < |events| => Read(env, events[i]))
  }

  const SECOND: int := 1_000_000

  /** `utc_z` drops the fraction of a second. */
  function Trunc(t: int): int {
    t - t % SECOND
  }

  datatype Standing = NoClaim | ActiveWinner | Revoked | TakeoverPending | Superseded

  /** The state dictionary of `current_issue_state`. */
  datatype Claim = Claim(
    standing: Standing,
    active: Option<string>,
    lease: Option<int>,
    beat: Option<int>,
    interval: int,
    grace: int)

  const NO_CLAIM := Claim(NoClaim, None, None, None, 30, 45)

  predicate Concerns(ev: Ev, repo: string, issue: int) {
    ev.repo == Some(repo) && ev.issue == Some(issue)
  }

  predicate FieldsReadable(ev: Ev) {
    !ev.lease.Unreadable? && ev.interval.Some? && ev.grace.Some?
  }

  function GrantTo(session: string, ev: Ev): Claim
    requires FieldsReadable(ev)
  {
    Claim(ActiveWinner, Some(session), if ev.lease.Until? then Some(Trunc(ev.lease.at)) else None,
          Some(Trunc(ev.at)), ev.interval.value, ev.grace.value)
  }

  /** One iteration of the loop in `current_issue_state`; a failure is a raised error. */
  function StepClaim(c: Claim, ev: Ev, repo: string, issue: int): Result<Claim, ()> {
    if !Concerns(ev, repo, issue) then Ok(c)
    else
      match ev.kind
      case ClaimAccepted =>
        if ev.session.None? then Ok(c)
        else if FieldsReadable(ev) then Ok(GrantTo(ev.session.value, ev)) else Fail(())
      case HeartbeatEvidence =>
        Ok(if ev.session.Some? && ev.session == c.active then c.(beat := Some(Trunc(ev.at))) else c)
      case Revocation =>
        Ok(if ev.session.Some? && ev.session != c.active then c else c.(standing := Revoked))
      case TakeoverAccepted =>
        Ok(if c.active == ev.oldSession || c.active == ev.newSession
           then c.(standing := TakeoverPending, active := None) else c)
      case TakeoverCommitted =>
        if ev.newSession.None? then Ok(c)
        else if FieldsReadable(ev) then Ok(GrantTo(ev.newSession.value, ev)) else Fail(())
      case Closure => Ok(c.(standing := Superseded, active := None))
      case _ => Ok(c)
  }

  function Fold(evs: seq<Ev>, repo: string, issue: int): Result<Claim, ()> {
    if evs == [] then Ok(NO_CLAIM)
    else
      var c :- Fold(evs[..|evs| - 1], repo, issue);
      StepClaim(c, evs[|evs| - 1], repo, issue)
  }

  lemma {:induction false} FailureStays(evs: seq<Ev>, more: seq<Ev>, repo: string, issue: int)
    requires Fold(evs, repo, issue).Fail?
    ensures Fold(evs + more, repo, issue) == Fold(evs, repo, issue)
  {
    if more == [] {
      assert evs + more == evs;
    } else {
      FailureStays(evs, more[..|more| - 1], repo, issue);
      assert (evs + more)[..|evs + more| - 1] == evs + more[..|more| - 1];
    }
  }

  /** The loop itself. */
  method CurrentIssueState(env: Env, events: seq<Object>, repo: string, issue: int) returns (r: Result<Claim, ()>)
    ensures r == Fold(ReadAll(env, events), repo, issue)
  {
    ghost var evs := ReadAll(env, events);
    var c := NO_CLAIM;
    var i := 0;
    while i < |events|
      invariant 0 <= i <= |events|
      invariant Fold(evs[..i], repo, issue) == Ok(c)
    {
      var ev := Read(env, events[i]);
      assert evs[..i + 1][..i] == evs[..i] && evs[i] == ev;
      var next := StepClaim(c, ev, repo, issue);
      if next.Fail? {
        FailureStays(evs[..i + 1], evs[i + 1..], repo, issue);
        assert evs[..i + 1] + evs[i + 1..] == evs;
        return next;
      }
      c := next.value;
      i := i + 1;
    }
    assert evs[..i] == evs;
    return Ok(c);
  }

  datatype DenyCode =
    | NoActiveClaim | ClaimRevoked | TakeoverIsPending | IssueSuperseded
    | SessionMismatch | ClaimHasExpired | ClaimIsStale

  datatype Decision = Permitted | Denied(code: DenyCode)

  function OrDefault(n: int, default: int): int {
    if n == 0 then default else n
  }

  function Patience(interval: int, grace: int): int {
    (OrDefault(interval, 30) + OrDefault(grace, 45)) * MINUTE
  }

  /** `evaluate_state` */
  function Evaluate(c: Claim, session: string, now: int): Decision {
    match c.standing
    case NoClaim => Denied(NoActiveClaim)
    case Revoked => Denied(ClaimRevoked)
    case TakeoverPending => Denied(TakeoverIsPending)
    case Superseded => Denied(IssueSuperseded)
    case ActiveWinner =>
      if c.active != Some(session) then Denied(SessionMismatch)
      else if c.lease.Some? && now > c.lease.value then Denied(ClaimHasExpired)
      else if c.beat.Some? && now > c.beat.value + Patience(c.interval, c.grace) then Denied(ClaimIsStale)
      else Permitted
  }

  // ----- the same decision, said about the ledger

  function Grantee(ev: Ev): Option<string> {
    match ev.kind
    case ClaimAccepted => ev.session
    case TakeoverCommitted => ev.newSession
    case _ => None
  }

  predicate Grants(ev: Ev, repo: string, issue: int) {
    Concerns(ev, repo, issue) && Grantee(ev).Some?
  }

  /** The events that take the issue away from `session`. */
  predicate Withdraws(ev: Ev, repo: string, issue: int, session: string) {
    && Concerns(ev, repo, issue)
    && match ev.kind
       case Revocation => ev.session.None? || ev.session == Some(session)
       case TakeoverAccepted => ev.oldSession == Some(session) || ev.newSession == Some(session)
       case Closure => true
       case _ => false
  }

  predicate Beats(ev: Ev, repo: string, issue: int, session: string) {
    Concerns(ev, repo, issue) && ev.kind.HeartbeatEvidence? && ev.session == Some(session)
  }

  /** Event `g` is the last grant of the issue, it names `session`, and nothing after it takes
      the issue away again. */
  ghost predicate HoldsFrom(evs: seq<Ev>, repo: string, issue: int, session: string, g: int) {
    && 0 <= g < |evs|
    && Grants(evs[g], repo, issue) && Grantee(evs[g]) == Some(session)
    && forall j :: g < j < |evs| ==> !Grants(evs[j], repo, issue) && !Withdraws(evs[j], repo, issue, session)
  }

  /** Event `k` is the last sign of life since the grant `g`: the grant, or a heartbeat. */
  ghost predicate LastSign(evs: seq<Ev>, repo: string, issue: int, session: string, g: int, k: int) {
    && 0 <= g <= k < |evs|
    && (k == g || Beats(evs[k], repo, issue, session))
    && forall j :: k < j < |evs| ==> !Beats(evs[j], repo, issue, session)
  }

  ghost predicate InTime(grant: Ev, sign: Ev, now: int) {
    && FieldsReadable(grant)
    && (grant.lease.Until? ==> now <= Trunc(grant.lease.at))
    && now <= Trunc(sign.at) + Patience(grant.interval.value, grant.grace.value)
  }

  /** A session may act on an issue when the last grant names it and has not been withdrawn,
      its lease has not run out, and its last sign of life is recent enough. */
  ghost predicate MayAct(evs: seq<Ev>, repo: string, issue: int, session: string, now: int) {
    exists g, k ::
      HoldsFrom(evs, repo, issue, session, g) && LastSign(evs, repo, issue, session, g, k) &&
      InTime(evs[g], evs[k], now)
  }

  lemma HolderIsUnique(evs: seq<Ev>, repo: string, issue: int, s: string, g: int, s': string, g': int)
    requires HoldsFrom(evs, repo, issue, s, g) && HoldsFrom(evs, repo, issue, s', g')
    ensures s == s' && g == g'
  {
  }

  lemma HeldBefore(evs: seq<Ev>, repo: string, issue: int, s: string, g: int)
    requires HoldsFrom(evs, repo, issue, s, g) && g < |evs| - 1
    ensures HoldsFrom(evs[..|evs| - 1], repo, issue, s, g)
    ensures !Grants(evs[|evs| - 1], repo, issue) && !Withdraws(evs[|evs| - 1], repo, issue, s)
  {
  }

  lemma HeldAfter(evs: seq<Ev>, repo: string, issue: int, s: string, g: int)
    requires evs != [] && HoldsFrom(evs[..|evs| - 1], repo, issue, s, g)
    requires !Grants(evs[|evs| - 1], repo, issue) && !Withdraws(evs[|evs| - 1], repo, issue, s)
    ensures HoldsFrom(evs, repo, issue, s, g)
  {
    forall j | g < j < |evs| ensures !Grants(evs[j], repo, issue) && !Withdraws(evs[j], repo, issue, s) {
      assert j < |evs| - 1 ==> evs[j] == evs[..|evs| - 1][j];
    }
  }

  lemma SignAfter(evs: seq<Ev>, repo: string, issue: int, s: string, g: int, k: int)
    requires evs != [] && LastSign(evs[..|evs| - 1], repo, issue, s, g, k)
    ensures LastSign(evs, repo, issue, s, g,
                     if Beats(evs[|evs| - 1], repo, issue, s) then |evs| - 1 else k)
  {
    forall j | k < j < |evs| - 1 ensures !Beats(evs[j], repo, issue, s) {
      assert evs[j] == evs[..|evs| - 1][j];
    }
  }

  /** The state records the grant and the last sign of life of the session it calls active. */
  ghost predicate Describes(c: Claim, evs: seq<Ev>, repo: string, issue: int, g: int, k: int) {
    && c.active.Some?
    && HoldsFrom(evs, repo, issue, c.active.value, g)
    && LastSign(evs, repo, issue, c.active.value, g, k)
    && FieldsReadable(evs[g])
    && c == GrantTo(c.active.value, evs[g]).(beat := Some(Trunc(evs[k].at)))
  }

  ghost predicate Unheld(evs: seq<Ev>, repo: string, issue: int) {
    forall s, g :: !HoldsFrom(evs, repo, issue, s, g)
  }

  /** What the fold's state means: an active standing describes the one holder; any other
      standing means nobody holds the issue. */
  lemma {:induction false} FoldMeaning(evs: seq<Ev>, repo: string, issue: int) returns (g: int, k: int)
    requires Fold(evs, repo, issue).Ok?
    ensures var c := Fold(evs, repo, issue).value;
            if c.standing.ActiveWinner? then Describes(c, evs, repo, issue, g, k) else Unheld(evs, repo, issue)
  {
    g, k := -1, -1;
    if evs != [] {
      var n := |evs|;
      var shorter, ev := evs[..n - 1], evs[n - 1];
      var c0 := Fold(shorter, repo, issue).value;
      g, k := FoldMeaning(shorter, repo, issue);
      if Grants(ev, repo, issue) {
        g, k := n - 1, n - 1;
      } else if c0.standing.ActiveWinner? {
        var s := c0.active.value;
        if Withdraws(ev, repo, issue, s) {
          NobodyAfterWithdrawal(evs, repo, issue, s, g);
        } else {
          HeldAfter(evs, repo, issue, s, g);
          SignAfter(evs, repo, issue, s, g, k);
          k := if Beats(ev, repo, issue, s) then n - 1 else k;
        }
      } else {
        StillUnheld(evs, repo, issue);
      }
    }
  }

  lemma NobodyAfterWithdrawal(evs: seq<Ev>, repo: string, issue: int, s: string, g: int)
    requires evs != [] && HoldsFrom(evs[..|evs| - 1], repo, issue, s, g)
    requires !Grants(evs[|evs| - 1], repo, issue) && Withdraws(evs[|evs| - 1], repo, issue, s)
    ensures Unheld(evs, repo, issue)
  {
    forall s', g' | HoldsFrom(evs, repo, issue, s', g') ensures false {
      HeldBefore(evs, repo, issue, s', g');
      HolderIsUnique(evs[..|evs| - 1], repo, issue, s, g, s', g');
    }
  }

  lemma StillUnheld(evs: seq<Ev>, repo: string, issue: int)
    requires evs != [] && Unheld(evs[..|evs| - 1], repo, issue) && !Grants(evs[|evs| - 1], repo, issue)
    ensures Unheld(evs, repo, issue)
  {
    forall s, g | HoldsFrom(evs, repo, issue, s, g) ensures false {
      HeldBefore(evs, repo, issue, s, g);
    }
  }

  /** The fold and its evaluation allow exactly the sessions that may act, on every ledger and
      at every time. */
  lemma AllowedIffMayAct(evs: seq<Ev>, repo: string, issue: int, session: string, now: int)
    requires Fold(evs, repo, issue).Ok?
    ensures Evaluate(Fold(evs, repo, issue).value, session, now).Permitted? <==>
            MayAct(evs, repo, issue, session, now)
  {
    var c := Fold(evs, repo, issue).value;
    var g, k := FoldMeaning(evs, repo, issue);
    if MayAct(evs, repo, issue, session, now) {
      var g', k' :| HoldsFrom(evs, repo, issue, session, g') && LastSign(evs, repo, issue, session, g', k') &&
                    InTime(evs[g'], evs[k'], now);
      assert c.standing.ActiveWinner?;
      HolderIsUnique(evs, repo, issue, session, g', c.active.value, g);
      assert k == k';
    }
  }

  /** The evaluation raises exactly when some grant of the issue carries an unreadable lease or
      heartbeat setting. */
  lemma {:induction false} RaisesIffUnreadableGrant(evs: seq<Ev>, repo: string, issue: int)
    ensures Fold(evs, repo, issue).Fail? <==>
            exists i :: 0 <= i < |evs| && Grants(evs[i], repo, issue) && !FieldsReadable(evs[i])
  {
    if evs != [] {
      var shorter := evs[..|evs| - 1];
      RaisesIffUnreadableGrant(shorter, repo, issue);
      if exists i :: 0 <= i < |shorter| && Grants(shorter[i], repo, issue) && !FieldsReadable(shorter[i]) {
        var i :| 0 <= i < |shorter| && Grants(shorter[i], repo, issue) && !FieldsReadable(shorter[i]);
        assert evs[i] == shorter[i];
      }
      if exists i :: 0 <= i < |evs| && Grants(evs[i], repo, issue) && !FieldsReadable(evs[i]) {
        var i :| 0 <= i < |evs| && Grants(evs[i], repo, issue) && !FieldsReadable(evs[i]);
        assert i < |evs| - 1 ==> shorter[i] == evs[i];
      }
    }
  }

  /** Permission only ever runs out: whoever may act now could act at every earlier time, and
      nobody else can act on the issue at any time. */
  lemma PermissionOnlyRunsOut(evs: seq<Ev>, repo: string, issue: int, session: string, now: int, other: string, t: int)
    requires MayAct(evs, repo, issue, session, now)
    ensures t <= now ==> MayAct(evs, repo, issue, session, t)
    ensures MayAct(evs, repo, issue, other, t) ==> other == session
  {
    var g, k :| HoldsFrom(evs, repo, issue, session, g) && LastSign(evs, repo, issue, session, g, k) &&
                InTime(evs[g], evs[k], now);
    if t <= now {
      assert InTime(evs[g], evs[k], t);
    }
    if MayAct(evs, repo, issue, other, t) {
      var g', k' :| HoldsFrom(evs, repo, issue, other, g') && LastSign(evs, repo, issue, other, g', k') &&
                    InTime(evs[g'], evs[k'], t);
      HolderIsUnique(evs, repo, issue, session, g, other, g');
    }
  }
}
