/** Why the claim evaluator denies (scripts/coordination/ledger-claim-state.py): every deny code,
    read off the ledger. */
module Denials {
  import opened Json
  import opened Replay
  import opened Claims

  /** The events that make a session stop being the active one. */
  predicate Clears(ev: Ev, repo: string, issue: int, session: string) {
    && Concerns(ev, repo, issue)
    && match ev.kind
       case TakeoverAccepted => ev.oldSession == Some(session) || ev.newSession == Some(session)
       case Closure => true
       case _ => false
  }

  /** Event `g` is the last grant, it names `session`, and nothing has cleared it since; unlike a
      holder, the session may have been revoked. */
  ghost predicate ActiveFrom(evs: seq<Ev>, repo: string, issue: int, session: string, g: int) {
    && 0 <= g < |evs| && Grants(evs[g], repo, issue) && Grantee(evs[g]) == Some(session)
    && forall j :: g < j < |evs| ==> !Grants(evs[j], repo, issue) && !Clears(evs[j], repo, issue, session)
  }

  ghost predicate Active(evs: seq<Ev>, repo: string, issue: int, session: Option<string>) {
    match session
    case Some(s) => exists g :: ActiveFrom(evs, repo, issue, s, g)
    case None => forall s, g :: !ActiveFrom(evs, repo, issue, s, g)
  }

  lemma ActiveSnoc(evs: seq<Ev>, init: seq<Ev>, ev: Ev, repo: string, issue: int, session: string, g: int)
    requires evs == init + [ev]
    ensures ActiveFrom(evs, repo, issue, session, g) <==>
            if Grants(ev, repo, issue) then g == |init| && Grantee(ev) == Some(session)
            else ActiveFrom(init, repo, issue, session, g) && !Clears(ev, repo, issue, session)
  {
    assert evs[|init|] == ev;
    assert forall j :: 0 <= j < |init| ==> evs[j] == init[j];
  }

  lemma OneActive(evs: seq<Ev>, repo: string, issue: int, s: string, g: int, s': string, g': int)
    requires ActiveFrom(evs, repo, issue, s, g) && ActiveFrom(evs, repo, issue, s', g')
    ensures s == s' && g == g'
  {
  }

  /** The active session of the state is the one the ledger has active. */
  lemma {:induction false} ActiveMeans(evs: seq<Ev>, repo: string, issue: int)
    requires Fold(evs, repo, issue).Ok?
    ensures Active(evs, repo, issue, Fold(evs, repo, issue).value.active)
  {
    if evs != [] {
      var n := |evs| - 1;
      var init, ev := evs[..n], evs[n];
      ActiveMeans(init, repo, issue);
      var c := Fold(init, repo, issue).value;
      forall s, g
        ensures ActiveFrom(evs, repo, issue, s, g) <==>
                if Grants(ev, repo, issue) then g == n && Grantee(ev) == Some(s)
                else ActiveFrom(init, repo, issue, s, g) && !Clears(ev, repo, issue, s)
      {
        assert evs == init + [ev];
        ActiveSnoc(evs, init, ev, repo, issue, s, g);
      }
      if Grants(ev, repo, issue) {
        assert ActiveFrom(evs, repo, issue, Grantee(ev).value, n);
      } else if c.active.Some? {
        var g :| ActiveFrom(init, repo, issue, c.active.value, g);
        forall s, g' | ActiveFrom(init, repo, issue, s, g') ensures s == c.active.value {
          OneActive(init, repo, issue, s, g', c.active.value, g);
        }
        assert !Clears(ev, repo, issue, c.active.value) ==> ActiveFrom(evs, repo, issue, c.active.value, g);
      }
    }
  }

  /** Event `i` moves the standing of the issue: a grant, a closure, a revocation that is unnamed or
      names the active session, or an accepted takeover of the active session (or, with nobody
      active, one that leaves a session unnamed). */
  ghost predicate Moves(evs: seq<Ev>, repo: string, issue: int, i: int) {
    && 0 <= i < |evs| && Concerns(evs[i], repo, issue)
    && match evs[i].kind
       case ClaimAccepted => evs[i].session.Some?
       case TakeoverCommitted => evs[i].newSession.Some?
       case Closure => true
       case Revocation => evs[i].session.None? || Active(evs[..i], repo, issue, evs[i].session)
       case TakeoverAccepted =>
         Active(evs[..i], repo, issue, evs[i].oldSession) || Active(evs[..i], repo, issue, evs[i].newSession)
       case _ => false
  }

  ghost predicate LastMove(evs: seq<Ev>, repo: string, issue: int, i: int) {
    Moves(evs, repo, issue, i) && forall j :: i < j ==> !Moves(evs, repo, issue, j)
  }

  ghost predicate Unmoved(evs: seq<Ev>, repo: string, issue: int) {
    forall i :: !Moves(evs, repo, issue, i)
  }

  function MovedTo(kind: Kind): Standing {
    match kind
    case ClaimAccepted => ActiveWinner
    case TakeoverCommitted => ActiveWinner
    case Revocation => Revoked
    case TakeoverAccepted => TakeoverPending
    case Closure => Superseded
    case _ => NoClaim
  }

  lemma MovesInit(evs: seq<Ev>, init: seq<Ev>, repo: string, issue: int, i: int)
    requires evs != [] && init == evs[..|evs| - 1] && i < |init|
    ensures Moves(evs, repo, issue, i) <==> Moves(init, repo, issue, i)
  {
    if 0 <= i {
      assert evs[..i] == init[..i] && evs[i] == init[i];
    }
  }

  lemma ActiveUnique(evs: seq<Ev>, repo: string, issue: int, a: Option<string>, b: Option<string>)
    requires Active(evs, repo, issue, a) && Active(evs, repo, issue, b)
    ensures a == b
  {
    if a.Some? && b.Some? {
      var g :| ActiveFrom(evs, repo, issue, a.value, g);
      var g' :| ActiveFrom(evs, repo, issue, b.value, g');
      OneActive(evs, repo, issue, a.value, g, b.value, g');
    }
  }

  /** One event changes the standing exactly when it moves it, and then to what its kind says. */
  lemma LastMoves(evs: seq<Ev>, init: seq<Ev>, repo: string, issue: int, c: Claim, next: Claim)
    requires evs != [] && init == evs[..|evs| - 1]
    requires Fold(init, repo, issue) == Ok(c) && StepClaim(c, evs[|init|], repo, issue) == Ok(next)
    ensures next.standing == if Moves(evs, repo, issue, |init|) then MovedTo(evs[|init|].kind) else c.standing
  {
    var ev := evs[|init|];
    ActiveMeans(init, repo, issue);
    forall a | Active(init, repo, issue, a) ensures a == c.active {
      ActiveUnique(init, repo, issue, a, c.active);
    }
    assert evs[..|init|] == init;
  }

  /** The standing is what the last moving event made it, and `no_claim` when none has moved it. */
  lemma {:induction false} StandingMeans(evs: seq<Ev>, repo: string, issue: int)
    requires Fold(evs, repo, issue).Ok?
    ensures Unmoved(evs, repo, issue) ==> Fold(evs, repo, issue).value.standing == NoClaim
    ensures forall i :: LastMove(evs, repo, issue, i) ==>
              Fold(evs, repo, issue).value.standing == MovedTo(evs[i].kind)
    ensures !Unmoved(evs, repo, issue) ==> exists i :: LastMove(evs, repo, issue, i)
  {
    if evs != [] {
      var n := |evs| - 1;
      var init := evs[..n];
      StandingMeans(init, repo, issue);
      LastMoves(evs, init, repo, issue, Fold(init, repo, issue).value, Fold(evs, repo, issue).value);
      forall i | i < n ensures Moves(evs, repo, issue, i) <==> Moves(init, repo, issue, i) {
        MovesInit(evs, init, repo, issue, i);
      }
      if Moves(evs, repo, issue, n) {
        assert LastMove(evs, repo, issue, n);
      } else {
        assert forall i :: LastMove(evs, repo, issue, i) <==> LastMove(init, repo, issue, i);
        assert Unmoved(evs, repo, issue) <==> Unmoved(init, repo, issue);
      }
    }
  }

  ghost predicate LastMoveIs(evs: seq<Ev>, repo: string, issue: int, standing: Standing) {
    exists i :: LastMove(evs, repo, issue, i) && MovedTo(evs[i].kind) == standing
  }

  lemma StandingIff(evs: seq<Ev>, repo: string, issue: int)
    requires Fold(evs, repo, issue).Ok?
    ensures Fold(evs, repo, issue).value.standing == NoClaim <==> Unmoved(evs, repo, issue)
    ensures forall standing :: standing != NoClaim ==>
              (Fold(evs, repo, issue).value.standing == standing <==> LastMoveIs(evs, repo, issue, standing))
  {
    StandingMeans(evs, repo, issue);
    if !Unmoved(evs, repo, issue) {
      var i :| LastMove(evs, repo, issue, i);
      assert MovedTo(evs[i].kind) != NoClaim;
    }
  }

  /** The session holds the issue by grant `g` but its lease has passed. */
  ghost predicate LeasePassed(evs: seq<Ev>, repo: string, issue: int, session: string, now: int) {
    exists g :: HoldsFrom(evs, repo, issue, session, g) && evs[g].lease.Until? && now > Trunc(evs[g].lease.at)
  }

  /** What every decision of the evaluator means for the ledger. */
  lemma DenialMeans(evs: seq<Ev>, repo: string, issue: int, session: string, now: int)
    requires Fold(evs, repo, issue).Ok?
    ensures var decision := Evaluate(Fold(evs, repo, issue).value, session, now);
            && (decision == Denied(NoActiveClaim) <==> Unmoved(evs, repo, issue))
            && (decision == Denied(ClaimRevoked) <==> LastMoveIs(evs, repo, issue, Revoked))
            && (decision == Denied(TakeoverIsPending) <==> LastMoveIs(evs, repo, issue, TakeoverPending))
            && (decision == Denied(IssueSuperseded) <==> LastMoveIs(evs, repo, issue, Superseded))
            && (decision == Denied(SessionMismatch) <==>
                exists s, g :: s != session && HoldsFrom(evs, repo, issue, s, g))
            && (decision == Denied(ClaimHasExpired) <==> LeasePassed(evs, repo, issue, session, now))
            && (decision == Denied(ClaimIsStale) <==>
                && (exists g :: HoldsFrom(evs, repo, issue, session, g))
                && !LeasePassed(evs, repo, issue, session, now) && !MayAct(evs, repo, issue, session, now))
  {
    var c := Fold(evs, repo, issue).value;
    StandingIff(evs, repo, issue);
    var g, k := FoldMeaning(evs, repo, issue);
    AllowedIffMayAct(evs, repo, issue, session, now);
    if c.standing.ActiveWinner? {
      forall s, g' | HoldsFrom(evs, repo, issue, s, g') ensures s == c.active.value && g' == g {
        HolderIsUnique(evs, repo, issue, s, g', c.active.value, g);
      }
    }
  }
}
