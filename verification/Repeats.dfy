/** Repeated lines: a no-op to replay, but folded again by the claim evaluator
    (scripts/coordination/verify-ledger-replay.py, scripts/coordination/ledger-claim-state.py). */
module Repeats {
  import opened Json
  import opened Replay
  import opened Chain
  import opened Enforcer
  import opened Claims

  /** Any line of a valid ledger may be repeated at its end: replay counts a duplicate and
      nothing else, while the readers of raw lines see the event once more. */
  lemma RepeatedLine(env: Env, lines: seq<string>, i: nat)
    requires Replays(env, lines) && i < |lines| && lines[i] != ""
    ensures var longer := lines + [lines[i]];
            && Replays(env, longer) && Readable(env, lines[i])
            && Run(env, longer).st == Run(env, lines).st.(dup := Run(env, lines).st.dup + 1)
            && Accepted(env, longer) == Accepted(env, lines)
            && RawEvents(env, longer) == RawEvents(env, lines) + [EventOf(env, lines[i])]
  {
    var text := lines[i];
    var st := Run(env, lines).st;
    ReplayedReadable(env, lines, i);
    SeenAgrees(env, lines, i);
    assert Step(env, st, text) == Ok(st.(dup := st.dup + 1));
    RunSnoc(env, lines, text);
    AcceptedSnoc(env, lines, text);
    ReplayedSummary(env, lines);
    assert (lines + [text])[..|lines|] == lines;
  }

  // ----- one more event, said about decisions

  lemma HeldSnoc(evs: seq<Ev>, ev: Ev, repo: string, issue: int, session: string, g: int)
    ensures HoldsFrom(evs + [ev], repo, issue, session, g) <==>
            if Grants(ev, repo, issue) then g == |evs| && Grantee(ev) == Some(session)
            else HoldsFrom(evs, repo, issue, session, g) && !Withdraws(ev, repo, issue, session)
  {
    var longer := evs + [ev];
    assert longer[|evs|] == ev;
    assert forall j :: 0 <= j < |evs| ==> longer[j] == evs[j];
  }

  lemma SignSnoc(evs: seq<Ev>, ev: Ev, repo: string, issue: int, session: string, g: int, k: int)
    requires g < |evs|
    ensures LastSign(evs + [ev], repo, issue, session, g, k) <==>
            if Beats(ev, repo, issue, session) then 0 <= g && k == |evs|
            else LastSign(evs, repo, issue, session, g, k)
  {
    var longer := evs + [ev];
    assert longer[|evs|] == ev;
    assert forall j :: 0 <= j < |evs| ==> longer[j] == evs[j];
  }

  /** The session held the issue and, judged by `sign`, would be in time. */
  ghost predicate HoldsWithSign(evs: seq<Ev>, sign: Ev, repo: string, issue: int, session: string, now: int) {
    exists g :: HoldsFrom(evs, repo, issue, session, g) && InTime(evs[g], sign, now)
  }

  /** Exactly what one more event does to a decision: a grant decides anew, a withdrawal from the
      session denies it, its heartbeat renews it, and any other event leaves it as it was. */
  lemma DecisionAfter(evs: seq<Ev>, ev: Ev, repo: string, issue: int, session: string, now: int)
    ensures MayAct(evs + [ev], repo, issue, session, now) <==>
            if Grants(ev, repo, issue) then Grantee(ev) == Some(session) && InTime(ev, ev, now)
            else if Withdraws(ev, repo, issue, session) then false
            else if Beats(ev, repo, issue, session) then HoldsWithSign(evs, ev, repo, issue, session, now)
            else MayAct(evs, repo, issue, session, now)
  {
    var longer, n := evs + [ev], |evs|;
    assert longer[n] == ev;
    if Grants(ev, repo, issue) {
      HeldSnoc(evs, ev, repo, issue, session, n);
      GrantDecides(evs, ev, repo, issue, session, now);
    } else {
      NoGrantDecides(evs, ev, repo, issue, session, now);
    }
  }

  lemma GrantDecides(evs: seq<Ev>, ev: Ev, repo: string, issue: int, session: string, now: int)
    requires Grants(ev, repo, issue)
    ensures MayAct(evs + [ev], repo, issue, session, now) <==> Grantee(ev) == Some(session) && InTime(ev, ev, now)
  {
    var longer, n := evs + [ev], |evs|;
    assert longer[n] == ev;
    forall g, k | HoldsFrom(longer, repo, issue, session, g) && LastSign(longer, repo, issue, session, g, k)
      ensures g == n && k == n
    {
      HeldSnoc(evs, ev, repo, issue, session, g);
    }
    if Grantee(ev) == Some(session) {
      HeldSnoc(evs, ev, repo, issue, session, n);
      assert LastSign(longer, repo, issue, session, n, n);
    }
  }

  lemma NoGrantDecides(evs: seq<Ev>, ev: Ev, repo: string, issue: int, session: string, now: int)
    requires !Grants(ev, repo, issue)
    ensures MayAct(evs + [ev], repo, issue, session, now) <==>
            && !Withdraws(ev, repo, issue, session)
            && if Beats(ev, repo, issue, session) then HoldsWithSign(evs, ev, repo, issue, session, now)
               else MayAct(evs, repo, issue, session, now)
  {
    var longer, n := evs + [ev], |evs|;
    assert longer[n] == ev;
    assert forall j :: 0 <= j < n ==> longer[j] == evs[j];
    forall g, k
      ensures HoldsFrom(longer, repo, issue, session, g) && LastSign(longer, repo, issue, session, g, k) <==>
              && HoldsFrom(evs, repo, issue, session, g) && !Withdraws(ev, repo, issue, session)
              && if Beats(ev, repo, issue, session) then k == n else LastSign(evs, repo, issue, session, g, k)
    {
      HeldSnoc(evs, ev, repo, issue, session, g);
      if HoldsFrom(evs, repo, issue, session, g) {
        SignSnoc(evs, ev, repo, issue, session, g, k);
      }
    }
    if HoldsWithSign(evs, ev, repo, issue, session, now) && Beats(ev, repo, issue, session)
       && !Withdraws(ev, repo, issue, session)
    {
      var g :| HoldsFrom(evs, repo, issue, session, g) && InTime(evs[g], ev, now);
      assert HoldsFrom(longer, repo, issue, session, g) && LastSign(longer, repo, issue, session, g, n);
    }
    if MayAct(evs, repo, issue, session, now) && !Beats(ev, repo, issue, session)
       && !Withdraws(ev, repo, issue, session)
    {
      var g, k :| HoldsFrom(evs, repo, issue, session, g) && LastSign(evs, repo, issue, session, g, k) &&
                  InTime(evs[g], evs[k], now);
      assert HoldsFrom(longer, repo, issue, session, g) && LastSign(longer, repo, issue, session, g, k);
    }
  }

  // ----- repeated events and decisions

  /** Re-folding event `i` changes the decision exactly when it is a grant that decides otherwise,
      a withdrawal from a session that may act, or a heartbeat whose time decides otherwise. */
  lemma RepeatChangesDecisionIff(evs: seq<Ev>, i: nat, repo: string, issue: int, session: string, now: int)
    requires i < |evs|
    ensures var ev, before := evs[i], MayAct(evs, repo, issue, session, now);
            MayAct(evs + [ev], repo, issue, session, now) != before <==>
            || (Grants(ev, repo, issue) && before != (Grantee(ev) == Some(session) && InTime(ev, ev, now)))
            || (Withdraws(ev, repo, issue, session) && before)
            || (Beats(ev, repo, issue, session) && before != HoldsWithSign(evs, ev, repo, issue, session, now))
  {
    DecisionAfter(evs, evs[i], repo, issue, session, now);
  }

  /** On a valid ledger whose holder was revoked, repeating the line of the claim leaves the
      ledger valid and its accepted events the same, and yet the evaluator, which reads raw
      lines, allows the session again. */
  lemma RepeatedLineRestores(env: Env, lines: seq<string>, i: nat, repo: string, issue: int, session: string, now: int)
    requires Replays(env, lines) && i < |lines| && lines[i] != "" && Readable(env, lines[i])
    requires var ev := Read(env, EventOf(env, lines[i]));
             Grants(ev, repo, issue) && Grantee(ev) == Some(session) && InTime(ev, ev, now)
    requires Fold(ReadAll(env, RawEvents(env, lines)), repo, issue).Ok?
    ensures var longer := lines + [lines[i]];
            && Replays(env, longer) && Accepted(env, longer) == Accepted(env, lines)
            && Fold(ReadAll(env, RawEvents(env, longer)), repo, issue).Ok?
            && Evaluate(Fold(ReadAll(env, RawEvents(env, longer)), repo, issue).value, session, now).Permitted?
  {
    RepeatedLine(env, lines, i);
    var raw, e := RawEvents(env, lines), EventOf(env, lines[i]);
    ReadAllSnoc(env, raw, e);
    var evs, ev := ReadAll(env, raw), Read(env, e);
    assert (evs + [ev])[..|evs|] == evs;
    assert Fold(evs + [ev], repo, issue) == StepClaim(Fold(evs, repo, issue).value, ev, repo, issue);
    DecisionAfter(evs, ev, repo, issue, session, now);
    AllowedIffMayAct(evs + [ev], repo, issue, session, now);
  }

  lemma ReadAllSnoc(env: Env, events: seq<Object>, e: Object)
    ensures ReadAll(env, events + [e]) == ReadAll(env, events) + [Read(env, e)]
  {
  }

  /** The smallest case: a claim, its revocation, and the claim once more. */
  lemma ClaimRevokedClaimed(claim: Ev, revoke: Ev, repo: string, issue: int, session: string, now: int)
    requires Grants(claim, repo, issue) && Grantee(claim) == Some(session) && InTime(claim, claim, now)
    requires Withdraws(revoke, repo, issue, session)
    ensures !MayAct([claim, revoke], repo, issue, session, now)
    ensures MayAct([claim, revoke, claim], repo, issue, session, now)
  {
    assert [claim] + [revoke] == [claim, revoke] && [claim, revoke] + [claim] == [claim, revoke, claim];
    DecisionAfter([claim], revoke, repo, issue, session, now);
    DecisionAfter([claim, revoke], claim, repo, issue, session, now);
  }

  /** Events that leave the state of the issue as it is. */
  predicate Inert(ev: Ev, repo: string, issue: int) {
    Concerns(ev, repo, issue) ==>
      match ev.kind
      case ClaimAccepted => ev.session.None?
      case HeartbeatEvidence => ev.session.None?
      case TakeoverCommitted => ev.newSession.None?
      case TakeoverRejected => true
      case Unrelated => true
      case _ => false
  }

  /** Every line that repeats an earlier event is inert for the issue. */
  ghost predicate RepeatsInert(env: Env, lines: seq<string>, repo: string, issue: int) {
    forall i, j :: 0 <= i < j < |lines| && Repeat(env, lines, i, j) ==>
      Inert(Read(env, EventOf(env, lines[j])), repo, issue)
  }

  predicate Repeat(env: Env, lines: seq<string>, i: nat, j: nat)
    requires i < j < |lines|
  {
    && lines[i] != "" && lines[j] != "" && Readable(env, lines[i]) && Readable(env, lines[j])
    && EventOf(env, lines[i]) == EventOf(env, lines[j])
  }

  /** Folding the raw lines and folding the accepted events give the same state of the issue as
      long as the repeated lines do not bear on it. */
  lemma {:induction false} FoldsAgree(env: Env, lines: seq<string>, repo: string, issue: int)
    requires Replays(env, lines) && RepeatsInert(env, lines, repo, issue)
    ensures Fold(ReadAll(env, RawEvents(env, lines)), repo, issue) ==
            Fold(ReadAll(env, Accepted(env, lines)), repo, issue)
  {
    if lines != [] {
      var n := |lines| - 1;
      var init, text := lines[..n], lines[n];
      InitRepeatsInert(env, lines, repo, issue);
      FoldsAgree(env, init, repo, issue);
      if text != "" {
        ReplayedReadable(env, lines, n);
        LastFolded(env, lines, init, EventOf(env, text), repo, issue);
      }
    }
  }

  lemma InitRepeatsInert(env: Env, lines: seq<string>, repo: string, issue: int)
    requires lines != [] && RepeatsInert(env, lines, repo, issue)
    ensures RepeatsInert(env, lines[..|lines| - 1], repo, issue)
  {
    var init := lines[..|lines| - 1];
    forall i, j | 0 <= i < j < |init| && Repeat(env, init, i, j)
      ensures Inert(Read(env, EventOf(env, init[j])), repo, issue)
    {
      assert Repeat(env, lines, i, j);
    }
  }

  lemma LastFolded(env: Env, lines: seq<string>, init: seq<string>, e: Object, repo: string, issue: int)
    requires Replays(env, lines) && lines != [] && init == lines[..|lines| - 1] && RepeatsInert(env, lines, repo, issue)
    requires lines[|lines| - 1] != "" && Readable(env, lines[|lines| - 1]) && e == EventOf(env, lines[|lines| - 1])
    requires Fold(ReadAll(env, RawEvents(env, init)), repo, issue) ==
             Fold(ReadAll(env, Accepted(env, init)), repo, issue)
    ensures Fold(ReadAll(env, RawEvents(env, lines)), repo, issue) ==
            Fold(ReadAll(env, Accepted(env, lines)), repo, issue)
  {
    var raw, evs := RawEvents(env, init), Accepted(env, init);
    FoldReadSnoc(env, raw, e, repo, issue);
    if HasUuid(evs, UuidOf(e)) {
      var i := LastIsRepeat(env, lines, init, e);
      InertStep(Fold(ReadAll(env, raw), repo, issue), Read(env, e), repo, issue);
    } else {
      FoldReadSnoc(env, evs, e, repo, issue);
    }
  }

  function Then(r: Result<Claim, ()>, ev: Ev, repo: string, issue: int): Result<Claim, ()> {
    if r.Fail? then r else StepClaim(r.value, ev, repo, issue)
  }

  lemma FoldReadSnoc(env: Env, events: seq<Object>, e: Object, repo: string, issue: int)
    ensures Fold(ReadAll(env, events + [e]), repo, issue) ==
            Then(Fold(ReadAll(env, events), repo, issue), Read(env, e), repo, issue)
  {
    ReadAllSnoc(env, events, e);
    var evs := ReadAll(env, events);
    assert (evs + [Read(env, e)])[..|evs|] == evs;
  }

  lemma InertStep(r: Result<Claim, ()>, ev: Ev, repo: string, issue: int)
    requires Inert(ev, repo, issue)
    ensures Then(r, ev, repo, issue) == r
  {
  }

  lemma LastIsRepeat(env: Env, lines: seq<string>, init: seq<string>, e: Object) returns (i: nat)
    requires Replays(env, lines) && lines != [] && init == lines[..|lines| - 1]
    requires lines[|lines| - 1] != "" && Readable(env, lines[|lines| - 1]) && e == EventOf(env, lines[|lines| - 1])
    requires HasUuid(Accepted(env, init), UuidOf(e))
    ensures i < |lines| - 1 && Repeat(env, lines, i, |lines| - 1)
  {
    i := KnownLine(env, init, UuidOf(e));
    assert lines[i] == init[i];
    SeenAgrees(env, lines, i);
    SeenAgrees(env, lines, |lines| - 1);
  }
}
