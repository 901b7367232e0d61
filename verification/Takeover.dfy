/** The two-phase takeover planner (scripts/coordination/takeover-recovery-flow.py) over ledgers
    whose takeover events it planned. */
module Takeover {
  import opened Json
  import opened Replay
  import opened Chain
  import opened Appender
  import opened Claims

  /** The takeover a call is about.  `main` insists on a positive issue and an old session. */
  datatype Pair = Pair(repo: string, issue: int, holder: string, taker: string)

  /** Python `value == n` for a decoded value: `True` equals 1. */
  predicate EqualsInt(v: Value, n: int) {
    v == Num(n) || (v == Bool(true) && n == 1)
  }

  predicate IssueMatches(data: Object, p: Pair) {
    Or(Get(data, Repository), Get(data, Repo)) == Str(p.repo) && EqualsInt(Get(data, Issue), p.issue)
  }

  /** A takeover event of the pair. */
  predicate Touches(e: Object, p: Pair) {
    && (var kind := KindOf(Get(e, EventType));
        kind.TakeoverAccepted? || kind.TakeoverCommitted? || kind.TakeoverRejected?)
    && IssueMatches(PayloadOf(e), p)
    && Get(PayloadOf(e), OldSession) == Str(p.holder)
    && Get(PayloadOf(e), NewSession) == Str(p.taker)
  }

  predicate Accepts(e: Object, p: Pair) {
    Touches(e, p) && KindOf(Get(e, EventType)).TakeoverAccepted?
  }

  predicate Commits(e: Object, p: Pair) {
    Touches(e, p) && KindOf(Get(e, EventType)).TakeoverCommitted?
  }

  predicate Rejects(e: Object, p: Pair) {
    Touches(e, p) && KindOf(Get(e, EventType)).TakeoverRejected?
  }

  predicate ClaimsFor(e: Object, p: Pair, session: string) {
    && KindOf(Get(e, EventType)).ClaimAccepted?
    && IssueMatches(PayloadOf(e), p)
    && SessionOf(PayloadOf(e)) == Some(session)
  }

  /** `latest_takeover`: the last takeover event of the pair, if any. */
  method LatestTakeover(events: seq<Object>, p: Pair) returns (latest: Option<Object>)
    ensures latest.None? ==> forall i :: 0 <= i < |events| ==> !Touches(events[i], p)
    ensures latest.Some? ==> exists i :: IsLatest(events, p, i) && events[i] == latest.value
  {
    latest := None;
    ghost var at := -1;
    for k := 0 to |events|
      invariant latest.None? ==> forall i :: 0 <= i < k ==> !Touches(events[i], p)
      invariant latest.Some? ==>
                  && 0 <= at < k && Touches(events[at], p) && events[at] == latest.value
                  && forall i :: at < i < k ==> !Touches(events[i], p)
    {
      if Touches(events[k], p) {
        latest := Some(events[k]);
        at := k;
      }
    }
    assert latest.Some? ==> IsLatest(events, p, at);
  }

  ghost predicate IsLatest(events: seq<Object>, p: Pair, i: int) {
    && 0 <= i < |events| && Touches(events[i], p)
    && forall j :: i < j < |events| ==> !Touches(events[j], p)
  }

  ghost predicate Untouched(events: seq<Object>, p: Pair) {
    forall i :: 0 <= i < |events| ==> !Touches(events[i], p)
  }

  /** `latest_claim`: the last claim of the session on the issue, if any. */
  method LatestClaim(events: seq<Object>, p: Pair, session: string) returns (latest: Option<Object>)
    ensures latest.None? ==> forall i :: 0 <= i < |events| ==> !ClaimsFor(events[i], p, session)
    ensures latest.Some? ==> exists i :: IsLatestClaim(events, p, session, i) && events[i] == latest.value
  {
    latest := None;
    ghost var at := -1;
    for k := 0 to |events|
      invariant latest.None? ==> forall i :: 0 <= i < k ==> !ClaimsFor(events[i], p, session)
      invariant latest.Some? ==>
                  && 0 <= at < k && ClaimsFor(events[at], p, session) && events[at] == latest.value
                  && forall i :: at < i < k ==> !ClaimsFor(events[i], p, session)
    {
      if ClaimsFor(events[k], p, session) {
        latest := Some(events[k]);
        at := k;
      }
    }
    assert latest.Some? ==> IsLatestClaim(events, p, session, at);
  }

  ghost predicate IsLatestClaim(events: seq<Object>, p: Pair, session: string, i: int) {
    && 0 <= i < |events| && ClaimsFor(events[i], p, session)
    && forall j :: i < j < |events| ==> !ClaimsFor(events[j], p, session)
  }

  /** When `cmd_accept` plans a TAKEOVER_ACCEPTED. */
  ghost predicate MayAccept(events: seq<Object>, p: Pair) {
    && (exists i :: 0 <= i < |events| && ClaimsFor(events[i], p, p.holder))
    && (Untouched(events, p) || exists i :: IsLatest(events, p, i) && Rejects(events[i], p))
  }

  /** When `cmd_commit` may plan a TAKEOVER_COMMITTED, mirror evidence aside. */
  ghost predicate MayCommit(events: seq<Object>, p: Pair) {
    exists i :: IsLatest(events, p, i) && Accepts(events[i], p)
  }

  const ISSUE_BODY_VERIFIED := Named("issue_body_verified")
  const PROJECT_VERIFIED := Named("project_verified")
  const PR_MIRRORS_VERIFIED := Named("pr_mirrors_verified")
  const VERIFIED_AT := Named("verified_at")

  /** `validate_mirror_verification` */
  predicate MirrorsVerified(env: Env, m: Object, p: Pair) {
    && Get(m, ISSUE_BODY_VERIFIED) == Bool(true)
    && Get(m, PROJECT_VERIFIED) == Bool(true)
    && Get(m, PR_MIRRORS_VERIFIED) == Bool(true)
    && Get(m, Repository) == Str(p.repo) && EqualsInt(Get(m, Issue), p.issue)
    && Get(m, OldSession) == Str(p.holder) && Get(m, NewSession) == Str(p.taker)
    && ReadTime(env, m, VERIFIED_AT).Ok?
  }

  /** The members of a planned payload that the evaluator and the planner read back. */
  predicate PlannedPayload(data: Object, p: Pair) {
    && Get(data, Repository) == Str(p.repo) && Get(data, Issue) == Num(p.issue)
    && Get(data, OldSession) == Str(p.holder) && Get(data, NewSession) == Str(p.taker)
  }

  method PlanAccept(events: seq<Object>, p: Pair, rest: Object) returns (r: Option<Object>)
    ensures r.Some? <==> MayAccept(events, p)
    ensures r.Some? ==> PlannedPayload(r.value, p)
    ensures r.Some? ==> forall k :: k !in {Repository, Issue, OldSession, NewSession} ==>
              Get(r.value, k) == Get(rest, k)
  {
    var claim := LatestClaim(events, p, p.holder);
    if claim.None? {
      return None;
    }
    var latest := LatestTakeover(events, p);
    if latest.Some? && !KindOf(Get(latest.value, EventType)).TakeoverRejected? {
      LatestUnique(events, p);
      return None;
    }
    return Some(rest[Repository := Str(p.repo)][Issue := Num(p.issue)]
                    [OldSession := Str(p.holder)][NewSession := Str(p.taker)]);
  }

  method PlanCommit(env: Env, events: seq<Object>, p: Pair, mirror: Object, rest: Object) returns (r: Option<Object>)
    ensures r.Some? <==> MayCommit(events, p) && MirrorsVerified(env, mirror, p)
    ensures r.Some? ==> PlannedPayload(r.value, p)
    ensures r.Some? ==> forall k :: k !in {Repository, Issue, OldSession, NewSession} ==>
              Get(r.value, k) == Get(rest, k)
  {
    var latest := LatestTakeover(events, p);
    if latest.None? || !KindOf(Get(latest.value, EventType)).TakeoverAccepted? {
      LatestUnique(events, p);
      return None;
    }
    if !MirrorsVerified(env, mirror, p) {
      return None;
    }
    return Some(rest[Repository := Str(p.repo)][Issue := Num(p.issue)]
                    [OldSession := Str(p.holder)][NewSession := Str(p.taker)]);
  }

  lemma LatestUnique(events: seq<Object>, p: Pair)
    ensures forall i, j :: IsLatest(events, p, i) && IsLatest(events, p, j) ==> i == j
    ensures Untouched(events, p) ==> forall i :: !IsLatest(events, p, i)
  {
  }

  // ----- whole runs

  /** Every acceptance and every commit in the ledger was plannable on the events before it. */
  ghost predicate Planned(events: seq<Object>) {
    forall i, p :: 0 <= i < |events| ==> PlannedAt(events, i, p)
  }

  ghost predicate PlannedAt(events: seq<Object>, i: nat, p: Pair)
    requires i < |events|
  {
    && (Accepts(events[i], p) ==> MayAccept(events[..i], p))
    && (Commits(events[i], p) ==> MayCommit(events[..i], p))
  }

  /** A commit directly follows an acceptance among the takeover events of its pair. */
  lemma CommitFollowsAccept(events: seq<Object>, p: Pair, c: nat) returns (a: nat)
    requires Planned(events) && c < |events| && Commits(events[c], p)
    ensures a < c && Accepts(events[a], p)
    ensures forall j :: a < j < c ==> !Touches(events[j], p)
  {
    assert PlannedAt(events, c, p);
    var i :| IsLatest(events[..c], p, i) && Accepts(events[..c][i], p);
    a := i;
    forall j | a < j < c ensures !Touches(events[j], p) {
      assert events[..c][j] == events[j];
    }
  }

  /** An acceptance that is not the first takeover event of its pair directly follows a rejection. */
  lemma AcceptFollowsReject(events: seq<Object>, p: Pair, c: nat, a: nat) returns (r: nat)
    requires Planned(events) && c < a < |events| && Touches(events[c], p) && Accepts(events[a], p)
    ensures c <= r < a && Rejects(events[r], p)
    ensures forall j :: r < j < a ==> !Touches(events[j], p)
  {
    var before := events[..a];
    assert PlannedAt(events, a, p) && before[c] == events[c];
    var i :| IsLatest(before, p, i) && Rejects(before[i], p);
    r := i;
    forall j | r < j < a ensures !Touches(events[j], p) {
      assert before[j] == events[j];
    }
  }

  /** Between two commits of one pair there are a rejection and, after it, a fresh acceptance. */
  lemma CommitsAreSeparated(events: seq<Object>, p: Pair, c: nat, c': nat) returns (r: nat, a: nat)
    requires Planned(events) && c < c' < |events| && Commits(events[c], p) && Commits(events[c'], p)
    ensures c < r < a < c' && Rejects(events[r], p) && Accepts(events[a], p)
    ensures forall j :: r < j < a || a < j < c' ==> !Touches(events[j], p)
  {
    a := CommitFollowsAccept(events, p, c');
    assert c < a;
    r := AcceptFollowsReject(events, p, c, a);
  }

  /** From an acceptance that names a session until the next grant to it, the evaluator allows
      that session at no time. */
  lemma PendingBlocks(evs: seq<Ev>, repo: string, issue: int, session: string, i: nat, now: int)
    requires i < |evs| && Concerns(evs[i], repo, issue) && evs[i].kind.TakeoverAccepted?
    requires evs[i].oldSession == Some(session) || evs[i].newSession == Some(session)
    requires forall j :: i < j < |evs| ==> !(Grants(evs[j], repo, issue) && Grantee(evs[j]) == Some(session))
    ensures !MayAct(evs, repo, issue, session, now)
    ensures Fold(evs, repo, issue).Ok? ==> Evaluate(Fold(evs, repo, issue).value, session, now).Denied?
  {
    if exists g :: HoldsFrom(evs, repo, issue, session, g) {
      var g :| HoldsFrom(evs, repo, issue, session, g);
      assert g != i;
      assert g < i ==> Withdraws(evs[i], repo, issue, session);
      assert false;
    }
    if Fold(evs, repo, issue).Ok? {
      AllowedIffMayAct(evs, repo, issue, session, now);
    }
  }

  /** The evaluator reads a planned acceptance as one that names both sessions, so between it
      and the next grant to either of them neither may act. */
  lemma NeitherActsWhilePending(env: Env, events: seq<Object>, p: Pair, i: nat, now: int)
    requires p.repo != "" && p.issue > 0 && p.holder != "" && i < |events|
    requires KindOf(Get(events[i], EventType)).TakeoverAccepted? && PlannedPayload(PayloadOf(events[i]), p)
    requires forall j :: i < j < |events| ==>
               !(Grants(Read(env, events[j]), p.repo, p.issue) &&
                 Grantee(Read(env, events[j])) in {Some(p.holder), Some(p.taker)})
    ensures !MayAct(ReadAll(env, events), p.repo, p.issue, p.holder, now)
    ensures p.taker != "" ==> !MayAct(ReadAll(env, events), p.repo, p.issue, p.taker, now)
  {
    var evs := ReadAll(env, events);
    assert evs[i] == Read(env, events[i]);
    PendingBlocks(evs, p.repo, p.issue, p.holder, i, now);
    if p.taker != "" {
      PendingBlocks(evs, p.repo, p.issue, p.taker, i, now);
    }
  }

  // ----- planned on a head, appended on that head

  /** Request `i` of the run is a takeover step of `p` of the given kind. */
  predicate Asks(req: Request, kind: Kind, p: Pair) {
    && KindOf(Str(req.eventType)) == kind
    && IssueMatches(req.payload, p)
    && Get(req.payload, OldSession) == Str(p.holder) && Get(req.payload, NewSession) == Str(p.taker)
  }

  /** Every takeover request was planned on some earlier version of the ledger, grown from `base`, and is guarded
      by the head of that version. */
  ghost predicate Disciplined(env: Env, base: seq<string>, reqs: seq<Request>) {
    forall i, p :: 0 <= i < |reqs| ==> DisciplinedAt(env, base, reqs, i, p)
  }

  ghost predicate DisciplinedAt(env: Env, base: seq<string>, reqs: seq<Request>, i: nat, p: Pair)
    requires i < |reqs|
  {
    && (Asks(reqs[i], TakeoverAccepted, p) ==> exists v :: PlannedOn(env, base, reqs, i, v, p, false))
    && (Asks(reqs[i], TakeoverCommitted, p) ==> exists v :: PlannedOn(env, base, reqs, i, v, p, true))
  }

  ghost predicate PlannedOn(env: Env, base: seq<string>, reqs: seq<Request>, i: nat, v: int, p: Pair, commit: bool)
    requires i < |reqs|
  {
    && 0 <= v <= i
    && (var seen := Serve(env, base, reqs[..v]);
        && reqs[i].guard == Exactly(Run(env, seen).st.lastHash)
        && (if commit then MayCommit(Accepted(env, seen), p) else MayAccept(Accepted(env, seen), p)))
  }

  /** A planned request that is appended was still right about the events before it. */
  lemma PlanStillHolds(env: Env, base: seq<string>, reqs: seq<Request>, i: nat, v: int, p: Pair, commit: bool)
    requires env.Valid() && Replays(env, base) && i < |reqs| && PlannedOn(env, base, reqs, i, v, p, commit)
    requires Unforged(env, Serve(env, base, reqs[..i]))
    requires Append(env, Serve(env, base, reqs[..i]), reqs[i]).Ok?
    ensures var evs := Accepted(env, Serve(env, base, reqs[..i]));
            if commit then MayCommit(evs, p) else MayAccept(evs, p)
  {
    VersionsGrow(env, base, reqs, v, i);
    GuardMeansUnchanged(env, Serve(env, base, reqs[..v]), Serve(env, base, reqs[..i]), reqs[i]);
  }

  lemma VersionsGrow(env: Env, base: seq<string>, reqs: seq<Request>, v: nat, i: nat)
    requires Replays(env, base) && v <= i <= |reqs|
    ensures Serve(env, base, reqs[..v]) <= Serve(env, base, reqs[..i])
    ensures Replays(env, Serve(env, base, reqs[..v])) && Replays(env, Serve(env, base, reqs[..i]))
  {
    ServeGrows(env, base, reqs[..i], v);
    ServeGrows(env, base, reqs[..v], 0);
    assert reqs[..i][..v] == reqs[..v];
  }

  lemma AppendedTouches(env: Env, e: Object, req: Request, previous: Option<string>, p: Pair)
    requires Carries(env, e, req, previous)
    ensures Accepts(e, p) <==> Asks(req, TakeoverAccepted, p)
    ensures Commits(e, p) <==> Asks(req, TakeoverCommitted, p)
  {
  }

  lemma PlannedSnoc(events: seq<Object>, e: Object)
    requires Planned(events)
    requires forall p :: (Accepts(e, p) ==> MayAccept(events, p)) && (Commits(e, p) ==> MayCommit(events, p))
    ensures Planned(events + [e])
  {
    var longer := events + [e];
    forall i, p | 0 <= i < |longer| ensures PlannedAt(longer, i, p) {
      if i < |events| {
        assert longer[..i] == events[..i];
        assert PlannedAt(events, i, p);
      } else {
        assert longer[..i] == events;
      }
    }
  }

  lemma AppendedEvent(env: Env, lines: seq<string>, req: Request) returns (e: Object)
    requires env.Valid() && Unforged(env, lines) && Append(env, lines, req).Ok?
    ensures Accepted(env, Append(env, lines, req).value) == Accepted(env, lines) + [e]
    ensures Carries(env, e, req, Run(env, lines).st.lastHash)
  {
    AppendAddsOne(env, lines, req);
    e := Build(env, req, Run(env, lines).st.lastHash);
    BuiltMembers(env, req, Run(env, lines).st.lastHash);
  }

  /** From any valid ledger that obeys the two-phase discipline, in every interleaving in which
      takeover steps are planned on a version of the ledger and guarded by its head, the resulting
      ledger obeys it too. */
  lemma {:induction false} DisciplinedRunIsPlanned(env: Env, base: seq<string>, reqs: seq<Request>)
    requires env.Valid() && Replays(env, base) && Planned(Accepted(env, base)) && Disciplined(env, base, reqs)
    requires Unforged(env, Serve(env, base, reqs))
    ensures Planned(Accepted(env, Serve(env, base, reqs)))
  {
    if reqs != [] {
      var n := |reqs| - 1;
      var shorter := reqs[..n];
      var before := Serve(env, base, shorter);
      ServeGrows(env, base, reqs, n);
      UnforgedPrefix(env, before, Serve(env, base, reqs));
      ShorterDisciplined(env, base, reqs);
      DisciplinedRunIsPlanned(env, base, shorter);
      if Append(env, before, reqs[n]).Ok? {
        var e := AppendedEvent(env, before, reqs[n]);
        forall p
          ensures Accepts(e, p) ==> MayAccept(Accepted(env, before), p)
          ensures Commits(e, p) ==> MayCommit(Accepted(env, before), p)
        {
          AppendedTouches(env, e, reqs[n], Run(env, before).st.lastHash, p);
          assert DisciplinedAt(env, base, reqs, n, p);
          if Accepts(e, p) {
            var v :| PlannedOn(env, base, reqs, n, v, p, false);
            PlanStillHolds(env, base, reqs, n, v, p, false);
          }
          if Commits(e, p) {
            var v :| PlannedOn(env, base, reqs, n, v, p, true);
            PlanStillHolds(env, base, reqs, n, v, p, true);
          }
        }
        PlannedSnoc(Accepted(env, before), e);
      }
    }
  }

  lemma ShorterDisciplined(env: Env, base: seq<string>, reqs: seq<Request>)
    requires reqs != [] && Disciplined(env, base, reqs)
    ensures Disciplined(env, base, reqs[..|reqs| - 1])
  {
    var shorter := reqs[..|reqs| - 1];
    forall i, p | 0 <= i < |shorter| ensures DisciplinedAt(env, base, shorter, i, p) {
      assert DisciplinedAt(env, base, reqs, i, p);
      forall v, commit | PlannedOn(env, base, reqs, i, v, p, commit)
        ensures PlannedOn(env, base, shorter, i, v, p, commit)
      {
        assert shorter[..v] == reqs[..v];
      }
    }
  }
}
