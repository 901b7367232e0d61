/** What the readers of the ledger make of an event, said about its members alone
    (scripts/coordination/ledger-claim-state.py, takeover-recovery-flow.py, reap-ledger-state.py),
    and the two-phase takeover from the written events to the decision. */
module Readings {
  import opened Json
  import opened Replay
  import opened Claims
  import opened Takeover
  import opened Repeats
  import Reaper

  // ----- event types

  const REVOCATIONS := ["CLAIM_STALE", "CLAIM_EXPIRED", "MIRROR_DRIFT_DETECTED", "MIRROR_ORPHAN_DETECTED",
                        "BLOCKED_FAIL_CLOSED"]

  /** Which types the evaluator acts on, and as what. */
  lemma KindMeans(v: Value)
    ensures KindOf(v) == ClaimAccepted <==> v == Str("CLAIM_ACCEPTED")
    ensures KindOf(v) == HeartbeatEvidence <==> v == Str("HEARTBEAT_EVIDENCE")
    ensures KindOf(v) == TakeoverAccepted <==> v == Str("TAKEOVER_ACCEPTED")
    ensures KindOf(v) == TakeoverCommitted <==> v == Str("TAKEOVER_COMMITTED")
    ensures KindOf(v) == TakeoverRejected <==> v == Str("TAKEOVER_REJECTED")
    ensures KindOf(v) == Closure <==> v in {Str("TOMBSTONE_CHAIN"), Str("SUPERSEDE_ISSUE")}
    ensures KindOf(v) == Revocation <==> v.Str? && v.s in REVOCATIONS
  {
  }

  // ----- payload members

  /** The values that Python takes for false. */
  predicate IsFalse(v: Value) {
    || v == Null || v == Bool(false) || v == Num(0) || v == Str("") || v == Arr([]) || v == Obj(map[])
  }

  predicate NamesRepo(data: Object, repo: string) {
    && repo != ""
    && (Get(data, Repository) == Str(repo) || (IsFalse(Get(data, Repository)) && Get(data, Repo) == Str(repo)))
  }

  predicate NamesSession(data: Object, session: string) {
    && session != ""
    && (Get(data, Session) == Str(session) ||
        (!IsText(Get(data, Session)) && Get(data, ClaimSession) == Str(session)))
  }

  predicate IsBlank(v: Value) {
    v.Null? || v == Str("")
  }

  /** The lease text: `claim_expires_at`, or `expires_at` when that is blank. */
  predicate NamesLease(data: Object, text: string) {
    && text != ""
    && (Get(data, ClaimExpiresAt) == Str(text) ||
        (IsBlank(Get(data, ClaimExpiresAt)) && Get(data, ExpiresAt) == Str(text)))
  }

  /** What the evaluator reads for repository, issue and sessions. */
  lemma ReadNames(env: Env, e: Object)
    ensures forall r :: Read(env, e).repo == Some(r) <==> NamesRepo(PayloadOf(e), r)
    ensures forall n :: Read(env, e).issue == Some(n) <==> n > 0 && Get(PayloadOf(e), Issue) == Num(n)
    ensures forall s :: Read(env, e).session == Some(s) <==> NamesSession(PayloadOf(e), s)
    ensures forall s :: Read(env, e).oldSession == Some(s) <==> s != "" && Get(PayloadOf(e), OldSession) == Str(s)
    ensures forall s :: Read(env, e).newSession == Some(s) <==> s != "" && Get(PayloadOf(e), NewSession) == Str(s)
  {
  }

  /** What it reads for times and terms: the defaults are 30 and 45 minutes. */
  lemma ReadTerms(env: Env, e: Object)
    ensures Get(e, CommittedAt).Str? && env.time(Get(e, CommittedAt).s).Some? ==>
              Some(Read(env, e).at) == env.time(Get(e, CommittedAt).s)
    ensures forall text :: NamesLease(PayloadOf(e), text) ==>
              Read(env, e).lease == if env.time(text).Some? then Until(env.time(text).value) else Unreadable
    ensures IsBlank(Get(PayloadOf(e), ClaimExpiresAt)) && IsBlank(Get(PayloadOf(e), ExpiresAt)) ==>
              Read(env, e).lease == NoLease
    ensures forall n :: n > 0 && Get(PayloadOf(e), HeartbeatInterval) == Num(n) ==> Read(env, e).interval == Some(n)
    ensures forall n :: n > 0 && Get(PayloadOf(e), HeartbeatGrace) == Num(n) ==> Read(env, e).grace == Some(n)
    ensures Get(PayloadOf(e), HeartbeatInterval).Null? ==> Read(env, e).interval == Some(30)
    ensures Get(PayloadOf(e), HeartbeatGrace).Null? ==> Read(env, e).grace == Some(45)
  {
  }

  /** What the reaper reads: the same names, with a stand-in for a missing repository, and its own
      defaults for terms that are not positive numbers. */
  lemma ReaperReads(env: Env, e: Object)
    ensures var data, rev := PayloadOf(e), Reaper.ReadForReaper(env, e);
            && rev.kind == KindOf(Get(e, EventType))
            && (forall r :: NamesRepo(data, r) ==> rev.repo == Some(r))
            && ((forall r :: !NamesRepo(data, r)) ==> rev.repo == Some("UNKNOWN/UNKNOWN"))
            && (forall n :: rev.issue == Some(n) <==> n > 0 && Get(data, Issue) == Num(n))
            && (forall s :: s != "" && Get(data, Session) == Str(s) ==> rev.session == Some(s))
            && (forall s :: s != "" && IsFalse(Get(data, Session)) && Get(data, ClaimSession) == Str(s) ==>
                  rev.session == Some(s))
            && (forall text :: NamesLease(data, text) ==>
                  rev.lease == if env.time(text).Some? then Until(env.time(text).value) else Unreadable)
            && (Get(e, CommittedAt).Str? && env.time(Get(e, CommittedAt).s).Some? ==>
                  Some(rev.at) == env.time(Get(e, CommittedAt).s))
            && (forall n :: n > 0 && Get(data, HeartbeatInterval) == Num(n) ==> rev.interval == Some(n))
            && (forall n :: n > 0 && Get(data, HeartbeatGrace) == Num(n) ==> rev.grace == Some(n))
            && (!IsCount(Get(data, HeartbeatInterval)) ==> rev.interval == Some(30))
            && (!IsCount(Get(data, HeartbeatGrace)) ==> rev.grace == Some(45))
  {
    if RepoOf(PayloadOf(e)).Some? {
      assert NamesRepo(PayloadOf(e), RepoOf(PayloadOf(e)).value);
    }
  }

  // ----- what each event does to an issue

  /** An event of the type, about the issue. */
  predicate IsEvent(e: Object, eventType: string, repo: string, issue: int) {
    && Get(e, EventType) == Str(eventType) && Get(e, Payload).Obj?
    && NamesRepo(PayloadOf(e), repo) && issue > 0 && Get(PayloadOf(e), Issue) == Num(issue)
  }

  lemma ConcernsIts(env: Env, e: Object, eventType: string, repo: string, issue: int)
    requires IsEvent(e, eventType, repo, issue)
    ensures Concerns(Read(env, e), repo, issue) && Read(env, e).kind == KindOf(Str(eventType))
  {
    ReadNames(env, e);
  }

  lemma ClaimGrants(env: Env, e: Object, repo: string, issue: int, session: string)
    requires IsEvent(e, "CLAIM_ACCEPTED", repo, issue) && NamesSession(PayloadOf(e), session)
    ensures Grants(Read(env, e), repo, issue) && Grantee(Read(env, e)) == Some(session)
  {
    ConcernsIts(env, e, "CLAIM_ACCEPTED", repo, issue);
    KindMeans(Get(e, EventType));
    ReadNames(env, e);
  }

  lemma CommitGrants(env: Env, e: Object, repo: string, issue: int, taker: string)
    requires IsEvent(e, "TAKEOVER_COMMITTED", repo, issue) && taker != "" && Get(PayloadOf(e), NewSession) == Str(taker)
    ensures Grants(Read(env, e), repo, issue) && Grantee(Read(env, e)) == Some(taker)
  {
    ConcernsIts(env, e, "TAKEOVER_COMMITTED", repo, issue);
    KindMeans(Get(e, EventType));
    ReadNames(env, e);
  }

  lemma HeartbeatBeats(env: Env, e: Object, repo: string, issue: int, session: string)
    requires IsEvent(e, "HEARTBEAT_EVIDENCE", repo, issue) && NamesSession(PayloadOf(e), session)
    ensures Beats(Read(env, e), repo, issue, session) && !Grants(Read(env, e), repo, issue)
  {
    ConcernsIts(env, e, "HEARTBEAT_EVIDENCE", repo, issue);
    KindMeans(Get(e, EventType));
    ReadNames(env, e);
  }

  /** A revocation withdraws from the session it names, or from everybody when it names none. */
  lemma RevocationWithdraws(env: Env, e: Object, eventType: string, repo: string, issue: int, session: string)
    requires eventType in REVOCATIONS && IsEvent(e, eventType, repo, issue)
    ensures Withdraws(Read(env, e), repo, issue, session) <==>
            NamesSession(PayloadOf(e), session) || forall s :: !NamesSession(PayloadOf(e), s)
  {
    ConcernsIts(env, e, eventType, repo, issue);
    KindMeans(Get(e, EventType));
    ReadNames(env, e);
    if Read(env, e).session.Some? {
      assert NamesSession(PayloadOf(e), Read(env, e).session.value);
    }
  }

  lemma ClosureWithdraws(env: Env, e: Object, eventType: string, repo: string, issue: int, session: string)
    requires eventType in {"TOMBSTONE_CHAIN", "SUPERSEDE_ISSUE"} && IsEvent(e, eventType, repo, issue)
    ensures Withdraws(Read(env, e), repo, issue, session)
  {
    ConcernsIts(env, e, eventType, repo, issue);
    KindMeans(Get(e, EventType));
  }

  /** An accepted takeover withdraws from exactly the old and the new session. */
  lemma AcceptanceWithdraws(env: Env, e: Object, repo: string, issue: int, session: string)
    requires IsEvent(e, "TAKEOVER_ACCEPTED", repo, issue) && session != ""
    ensures Withdraws(Read(env, e), repo, issue, session) <==>
            Get(PayloadOf(e), OldSession) == Str(session) || Get(PayloadOf(e), NewSession) == Str(session)
  {
    ConcernsIts(env, e, "TAKEOVER_ACCEPTED", repo, issue);
    KindMeans(Get(e, EventType));
    ReadNames(env, e);
  }

  /** In time, in microseconds: before the lease, dropped to a whole second, and within interval plus
      grace of the last sign of life. */
  lemma InTimeMeans(grant: Ev, sign: Ev, now: int)
    requires FieldsReadable(grant) && grant.interval.value > 0 && grant.grace.value > 0
    ensures InTime(grant, sign, now) <==>
            && (grant.lease.Until? ==> now <= grant.lease.at - grant.lease.at % 1_000_000)
            && now <= sign.at - sign.at % 1_000_000 + (grant.interval.value + grant.grace.value) * 60_000_000
  {
  }

  // ----- planned takeovers

  lemma PlannedIsEvent(e: Object, eventType: string, p: Pair)
    requires Get(e, EventType) == Str(eventType) && Get(e, Payload).Obj? && PlannedPayload(PayloadOf(e), p)
    requires p.repo != "" && p.issue > 0
    ensures IsEvent(e, eventType, p.repo, p.issue)
    ensures Get(PayloadOf(e), OldSession) == Str(p.holder) && Get(PayloadOf(e), NewSession) == Str(p.taker)
  {
  }

  /** The planner recognises its own events, and only events of the three types that name its
      repository, issue and both sessions in their places. */
  lemma TouchesMeans(e: Object, p: Pair)
    requires p.repo != ""
    ensures Touches(e, p) <==>
            && Get(e, EventType) in {Str("TAKEOVER_ACCEPTED"), Str("TAKEOVER_COMMITTED"), Str("TAKEOVER_REJECTED")}
            && NamesRepo(PayloadOf(e), p.repo)
            && (Get(PayloadOf(e), Issue) == Num(p.issue) || (p.issue == 1 && Get(PayloadOf(e), Issue) == Bool(true)))
            && Get(PayloadOf(e), OldSession) == Str(p.holder) && Get(PayloadOf(e), NewSession) == Str(p.taker)
    ensures Accepts(e, p) <==> Touches(e, p) && Get(e, EventType) == Str("TAKEOVER_ACCEPTED")
    ensures Commits(e, p) <==> Touches(e, p) && Get(e, EventType) == Str("TAKEOVER_COMMITTED")
    ensures Rejects(e, p) <==> Touches(e, p) && Get(e, EventType) == Str("TAKEOVER_REJECTED")
  {
    KindMeans(Get(e, EventType));
  }

  /** What the planner takes for a claim of the session. */
  lemma ClaimsForMeans(e: Object, p: Pair, session: string)
    requires p.repo != ""
    ensures ClaimsFor(e, p, session) <==>
            && Get(e, EventType) == Str("CLAIM_ACCEPTED") && NamesRepo(PayloadOf(e), p.repo)
            && (Get(PayloadOf(e), Issue) == Num(p.issue) || (p.issue == 1 && Get(PayloadOf(e), Issue) == Bool(true)))
            && NamesSession(PayloadOf(e), session)
  {
    KindMeans(Get(e, EventType));
  }

  /** Appending a planned event moves the plan on: after an acceptance only a commit may follow, after
      a commit neither, and after a rejection an acceptance again if the old session has a claim. */
  lemma PlanMovesOn(events: seq<Object>, e: Object, p: Pair)
    requires Touches(e, p) && p.repo != ""
    ensures MayCommit(events + [e], p) <==> Get(e, EventType) == Str("TAKEOVER_ACCEPTED")
    ensures MayAccept(events + [e], p) <==>
            && Get(e, EventType) == Str("TAKEOVER_REJECTED")
            && exists i :: 0 <= i < |events| && ClaimsFor(events[i], p, p.holder)
  {
    var longer := events + [e];
    TouchesMeans(e, p);
    KindMeans(Get(e, EventType));
    assert longer[|events|] == e;
    assert IsLatest(longer, p, |events|);
    LatestUnique(longer, p);
    if i :| 0 <= i < |longer| && ClaimsFor(longer[i], p, p.holder) {
      assert events[i] == longer[i];
    }
    if i :| 0 <= i < |events| && ClaimsFor(events[i], p, p.holder) {
      assert longer[i] == events[i];
    }
  }

  /** The mirror evidence a commit needs, flag by flag. */
  lemma MirrorsMean(env: Env, m: Object, p: Pair)
    ensures MirrorsVerified(env, m, p) <==>
            && Get(m, Named("issue_body_verified")) == Bool(true)
            && Get(m, Named("project_verified")) == Bool(true)
            && Get(m, Named("pr_mirrors_verified")) == Bool(true)
            && Get(m, Repository) == Str(p.repo)
            && (Get(m, Issue) == Num(p.issue) || (p.issue == 1 && Get(m, Issue) == Bool(true)))
            && Get(m, OldSession) == Str(p.holder) && Get(m, NewSession) == Str(p.taker)
            && Get(m, Named("verified_at")).Str? && env.time(Get(m, Named("verified_at")).s).Some?
  {
  }

  /** A committed takeover gives the issue to exactly the taker: as long as nothing later grants the
      issue or withdraws it from the taker, a session may act if and only if it is the taker, and
      the commit's lease and the taker's last sign of life are in time. */
  lemma CommitPermitsTaker(env: Env, before: seq<Object>, commit: Object, after: seq<Object>, p: Pair,
                           session: string, now: int)
    requires Get(commit, EventType) == Str("TAKEOVER_COMMITTED") && Get(commit, Payload).Obj?
    requires PlannedPayload(PayloadOf(commit), p) && p.repo != "" && p.issue > 0 && p.taker != ""
    requires forall i :: 0 <= i < |after| ==>
               && !Grants(Read(env, after[i]), p.repo, p.issue)
               && !Withdraws(Read(env, after[i]), p.repo, p.issue, p.taker)
    ensures var evs := ReadAll(env, before + [commit] + after);
            MayAct(evs, p.repo, p.issue, session, now) <==>
            && session == p.taker
            && exists k :: LastSign(evs, p.repo, p.issue, p.taker, |before|, k) && InTime(evs[|before|], evs[k], now)
  {
    var events := before + [commit] + after;
    var evs, g := ReadAll(env, events), |before|;
    PlannedIsEvent(commit, "TAKEOVER_COMMITTED", p);
    CommitGrants(env, commit, p.repo, p.issue, p.taker);
    assert events[g] == commit;
    forall j | g < j < |evs|
      ensures !Grants(evs[j], p.repo, p.issue) && !Withdraws(evs[j], p.repo, p.issue, p.taker)
    {
      assert events[j] == after[j - g - 1];
    }
    assert HoldsFrom(evs, p.repo, p.issue, p.taker, g);
    forall s, g' | HoldsFrom(evs, p.repo, p.issue, s, g') ensures s == p.taker && g' == g {
      HolderIsUnique(evs, p.repo, p.issue, s, g', p.taker, g);
    }
  }

  /** The two phases together: once the takeover is accepted neither session may act until the commit,
      and right after it the taker may, and nobody else, for as long as its terms last. */
  lemma TwoPhases(env: Env, before: seq<Object>, accept: Object, mid: seq<Object>, commit: Object, p: Pair,
                  session: string, now: int)
    requires p.repo != "" && p.issue > 0 && p.holder != "" && p.taker != ""
    requires Get(accept, EventType) == Str("TAKEOVER_ACCEPTED") && Get(accept, Payload).Obj?
    requires Get(commit, EventType) == Str("TAKEOVER_COMMITTED") && Get(commit, Payload).Obj?
    requires PlannedPayload(PayloadOf(accept), p) && PlannedPayload(PayloadOf(commit), p)
    requires forall i :: 0 <= i < |mid| ==> !Grants(Read(env, mid[i]), p.repo, p.issue)
    ensures var pending := ReadAll(env, before + [accept] + mid);
            session in {p.holder, p.taker} ==> !MayAct(pending, p.repo, p.issue, session, now)
    ensures MayAct(ReadAll(env, before + [accept] + mid + [commit]), p.repo, p.issue, session, now) <==>
            session == p.taker && InTime(Read(env, commit), Read(env, commit), now)
  {
    var events := before + [accept] + mid;
    KindMeans(Get(accept, EventType));
    assert events[|before|] == accept;
    forall j | |before| < j < |events| ensures !Grants(Read(env, events[j]), p.repo, p.issue) {
      assert events[j] == mid[j - |before| - 1];
    }
    NeitherActsWhilePending(env, events, p, |before|, now);
    PlannedIsEvent(commit, "TAKEOVER_COMMITTED", p);
    CommitGrants(env, commit, p.repo, p.issue, p.taker);
    ReadAllSnoc(env, events, commit);
    DecisionAfter(ReadAll(env, events), Read(env, commit), p.repo, p.issue, session, now);
  }
}
