/** What the reaper's book says about the ledger (scripts/coordination/reap-ledger-state.py), and
    exactly when the reaper and the claim evaluator agree on a holder, by claim or by takeover. */
module Projections {
  import opened Json
  import opened Replay
  import opened Claims
  import opened Reaper

  // ----- the book in terms of the ledger

  /** The event is about the session itself on the issue. */
  predicate Own(ev: Ev, repo: string, issue: nat, session: string) {
    ev.repo == Some(repo) && ev.issue == Some(issue) && ev.session == Some(session)
  }

  predicate OwnClaim(ev: Ev, repo: string, issue: nat, session: string) {
    ev.kind.ClaimAccepted? && Own(ev, repo, issue, session)
  }

  predicate OwnBeat(ev: Ev, repo: string, issue: nat, session: string) {
    ev.kind.HeartbeatEvidence? && Own(ev, repo, issue, session)
  }

  predicate OwnRevocation(ev: Ev, repo: string, issue: nat, session: string) {
    ev.kind.Revocation? && Own(ev, repo, issue, session)
  }

  ghost predicate LastOwnClaim(revs: seq<Ev>, repo: string, issue: nat, session: string, g: int) {
    && 0 <= g < |revs| && OwnClaim(revs[g], repo, issue, session)
    && forall j :: g < j < |revs| ==> !OwnClaim(revs[j], repo, issue, session)
  }

  /** Event `k` is the last own sign of life since the claim `g`: the claim, or a heartbeat. */
  ghost predicate LastOwnSign(revs: seq<Ev>, repo: string, issue: nat, session: string, g: int, k: int) {
    && 0 <= g <= k < |revs|
    && (k == g || OwnBeat(revs[k], repo, issue, session))
    && forall j :: k < j < |revs| ==> !OwnBeat(revs[j], repo, issue, session)
  }

  ghost predicate RevokedSince(revs: seq<Ev>, repo: string, issue: nat, session: string, g: int) {
    exists j :: 0 <= j < |revs| && g < j && OwnRevocation(revs[j], repo, issue, session)
  }

  ghost predicate Claimed(revs: seq<Ev>, repo: string, issue: nat, session: string) {
    exists i :: 0 <= i < |revs| && OwnClaim(revs[i], repo, issue, session)
  }

  /** The entry holds the terms of claim `g`, the last own heartbeat since it, if any, and whether
      a revocation named the session since it. */
  ghost predicate Records(t: Tracked, revs: seq<Ev>, repo: string, issue: nat, session: string, g: int, k: int) {
    && LastOwnClaim(revs, repo, issue, session, g) && LastOwnSign(revs, repo, issue, session, g, k)
    && FieldsReadable(revs[g])
    && t == Tracked(repo, issue, session, revs[g].at,
                    if revs[g].lease.Until? then Some(revs[g].lease.at) else None,
                    revs[g].interval.value, revs[g].grace.value,
                    if k == g then None else Some(revs[k].at),
                    RevokedSince(revs, repo, issue, session, g))
  }

  /** What the book says: it has an entry for exactly the sessions that claimed the issue
      themselves, with the terms of their last own claim and what happened to it since. */
  lemma {:induction false} BookMeaning(revs: seq<Ev>, repo: string, issue: nat, session: string)
    returns (g: int, k: int)
    requires FoldBook(revs).Ok? && Unmixed(revs, repo) && issue > 0
    ensures var key, claims := ClaimKey(repo, issue, session), FoldBook(revs).value.claims;
            && (key in claims <==> Claimed(revs, repo, issue, session))
            && (key in claims ==> Records(claims[key], revs, repo, issue, session, g, k))
  {
    g, k := -1, -1;
    if revs != [] {
      var n := |revs| - 1;
      var init, last := revs[..n], revs[n];
      var b := FoldBook(init).value;
      g, k := BookMeaning(init, repo, issue, session);
      ClaimedSnoc(revs, init, last, repo, issue, session);
      if OwnClaim(last, repo, issue, session) {
        g, k := n, n;
      } else {
        if Own(last, repo, issue, session) && ReadByReaper(last.kind) {
          assert KeyOf(last) == ClaimKey(repo, issue, session);
        } else {
          OtherKeyUntouched(b, last, repo, issue, session);
        }
        if ClaimKey(repo, issue, session) in b.claims {
          k := RecordsSnoc(b.claims[ClaimKey(repo, issue, session)], revs, init, last, repo, issue, session, g, k);
        }
      }
    }
  }

  lemma ClaimedSnoc(revs: seq<Ev>, init: seq<Ev>, last: Ev, repo: string, issue: nat, session: string)
    requires revs == init + [last]
    ensures Claimed(revs, repo, issue, session) <==>
            Claimed(init, repo, issue, session) || OwnClaim(last, repo, issue, session)
  {
    assert revs[|init|] == last;
    assert forall i :: 0 <= i < |init| ==> revs[i] == init[i];
  }

  /** An event that is not a new claim leaves the entry recording the old one. */
  lemma RecordsSnoc(t: Tracked, revs: seq<Ev>, init: seq<Ev>, last: Ev, repo: string, issue: nat, session: string,
                    g: int, k: int) returns (k': int)
    requires revs == init + [last] && Records(t, init, repo, issue, session, g, k)
    requires !OwnClaim(last, repo, issue, session)
    ensures Records(if OwnBeat(last, repo, issue, session) then t.(beat := Some(last.at))
                    else if OwnRevocation(last, repo, issue, session) then t.(revoked := true)
                    else t,
                    revs, repo, issue, session, g, k')
  {
    var n := |init|;
    assert revs[n] == last && forall i :: 0 <= i < n ==> revs[i] == init[i];
    k' := if OwnBeat(last, repo, issue, session) then n else k;
    RevokedSnoc(revs, init, last, repo, issue, session, g);
  }

  lemma RevokedSnoc(revs: seq<Ev>, init: seq<Ev>, last: Ev, repo: string, issue: nat, session: string, g: int)
    requires revs == init + [last] && 0 <= g < |init|
    ensures RevokedSince(revs, repo, issue, session, g) <==>
            RevokedSince(init, repo, issue, session, g) || OwnRevocation(last, repo, issue, session)
  {
    assert revs[|init|] == last;
    assert forall i :: 0 <= i < |init| ==> revs[i] == init[i];
  }

  // ----- overdue, said about the ledger

  /** What is found at `now` under a lease and a deadline for the next sign of life. */
  function Outcome(lease: Option<int>, deadline: int, now: int): Option<FindingKind> {
    if lease.Some? && now > lease.value then Some(LeaseExpired)
    else if now > deadline then Some(HeartbeatMissed)
    else None
  }

  /** By the reaper's clock, a claim and a sign of life. */
  function ReaperOutcome(claim: Ev, sign: Ev, now: int): Option<FindingKind>
    requires FieldsReadable(claim)
  {
    Outcome(if claim.lease.Until? then Some(claim.lease.at) else None,
            sign.at + (claim.interval.value + claim.grace.value) * MINUTE, now)
  }

  /** By the evaluator's clock, which drops fractions of a second, a grant and a sign of life. */
  function EvaluatorOutcome(grant: Ev, sign: Ev, now: int): Option<FindingKind>
    requires FieldsReadable(grant)
  {
    Outcome(if grant.lease.Until? then Some(Trunc(grant.lease.at)) else None,
            Trunc(sign.at) + Patience(grant.interval.value, grant.grace.value), now)
  }

  /** Claim `g`, last signed at `k`, stands: it is the session's last and not revoked since. */
  ghost predicate Stands(revs: seq<Ev>, repo: string, issue: nat, session: string, g: int, k: int) {
    && LastOwnClaim(revs, repo, issue, session, g) && LastOwnSign(revs, repo, issue, session, g, k)
    && !RevokedSince(revs, repo, issue, session, g)
  }

  /** The reaper's verdict is the outcome of the session's own standing claim, and nothing else. */
  lemma VerdictMeans(revs: seq<Ev>, repo: string, issue: nat, session: string, now: int)
    requires FoldBook(revs).Ok? && Unmixed(revs, repo) && issue > 0
    ensures var verdict := Verdict(FoldBook(revs).value, repo, issue, session, now);
            && (forall g, k :: Stands(revs, repo, issue, session, g, k) ==>
                  FieldsReadable(revs[g]) && verdict == ReaperOutcome(revs[g], revs[k], now))
            && ((forall g, k :: !Stands(revs, repo, issue, session, g, k)) ==> verdict == None)
  {
    var g, k := BookMeaning(revs, repo, issue, session);
    forall g', k' | Stands(revs, repo, issue, session, g', k') ensures g' == g && k' == k {
      assert Claimed(revs, repo, issue, session);
    }
    if ClaimKey(repo, issue, session) in FoldBook(revs).value.claims {
      assert RevokedSince(revs, repo, issue, session, g) || Stands(revs, repo, issue, session, g, k);
    }
  }

  /** A session that never claimed the issue itself is never reported, on any ledger at any time. */
  lemma NeverClaimedNeverReported(revs: seq<Ev>, repo: string, issue: nat, session: string, now: int)
    requires FoldBook(revs).Ok? && Unmixed(revs, repo) && issue > 0 && !Claimed(revs, repo, issue, session)
    ensures Verdict(FoldBook(revs).value, repo, issue, session, now) == None
    ensures !Overdue(FoldBook(revs).value, repo, issue, session, now)
  {
    var g, k := BookMeaning(revs, repo, issue, session);
  }

  /** Exactly the sessions whose own claim stands but has run out of lease or of signs of life
      are judged overdue. */
  lemma OverdueIff(revs: seq<Ev>, repo: string, issue: nat, session: string, now: int)
    requires FoldBook(revs).Ok? && Unmixed(revs, repo) && issue > 0
    ensures Overdue(FoldBook(revs).value, repo, issue, session, now) <==>
            exists g, k ::
              && Stands(revs, repo, issue, session, g, k) && FieldsReadable(revs[g])
              && ReaperOutcome(revs[g], revs[k], now).Some?
  {
    var g, k := BookMeaning(revs, repo, issue, session);
    VerdictMeans(revs, repo, issue, session, now);
    if Overdue(FoldBook(revs).value, repo, issue, session, now) {
      assert Stands(revs, repo, issue, session, g, k);
    }
  }

  // ----- agreement for every holder

  /** Somebody holds the issue, by claim or by takeover. */
  ghost predicate Held(evs: seq<Ev>, revs: seq<Ev>, repo: string, issue: nat) {
    && Unmixed(revs, repo) && issue > 0
    && Fold(evs, repo, issue).Ok? && FoldBook(revs).Ok?
    && Fold(evs, repo, issue).value.standing.ActiveWinner?
  }

  function DecisionOn(outcome: Option<FindingKind>): Decision {
    if outcome.None? then Permitted
    else if outcome.value.LeaseExpired? then Denied(ClaimHasExpired)
    else Denied(ClaimIsStale)
  }

  lemma EvaluateMeans(c: Claim, evs: seq<Ev>, repo: string, issue: nat, g: int, k: int, now: int)
    requires c.standing.ActiveWinner? && Describes(c, evs, repo, issue, g, k)
    ensures Evaluate(c, c.active.value, now) == DecisionOn(EvaluatorOutcome(evs[g], evs[k], now))
    ensures EvaluatorOutcome(evs[g], evs[k], now).None? <==> InTime(evs[g], evs[k], now)
  {
  }

  /** Exactly when the two scripts agree on a holder, at every time: if its own claim stands, the
      own claim and the grant it holds by must come to the same outcome; if none does, the holder
      must still be in time. */
  lemma AgreeIff(evs: seq<Ev>, revs: seq<Ev>, repo: string, issue: nat, now: int) returns (grant: int, sign: int)
    requires Held(evs, revs, repo, issue)
    ensures var c, b := Fold(evs, repo, issue).value, FoldBook(revs).value;
            && c.active.Some? && HoldsFrom(evs, repo, issue, c.active.value, grant)
            && LastSign(evs, repo, issue, c.active.value, grant, sign) && FieldsReadable(evs[grant])
            && (forall g, k :: Stands(revs, repo, issue, c.active.value, g, k) ==>
                  && FieldsReadable(revs[g])
                  && (Agree(c, b, repo, issue, now) <==>
                      EvaluatorOutcome(evs[grant], evs[sign], now) == ReaperOutcome(revs[g], revs[k], now)))
            && ((forall g, k :: !Stands(revs, repo, issue, c.active.value, g, k)) ==>
                  (Agree(c, b, repo, issue, now) <==> InTime(evs[grant], evs[sign], now)))
  {
    grant, sign := FoldMeaning(evs, repo, issue);
    var c := Fold(evs, repo, issue).value;
    EvaluateMeans(c, evs, repo, issue, grant, sign, now);
    VerdictMeans(revs, repo, issue, c.active.value, now);
    AgreeMeans(c, FoldBook(revs).value, repo, issue, now, EvaluatorOutcome(evs[grant], evs[sign], now));
  }

  lemma AgreeMeans(c: Claim, b: Book, repo: string, issue: nat, now: int, outcome: Option<FindingKind>)
    requires c.active.Some?
    requires Evaluate(c, c.active.value, now) == DecisionOn(outcome)
    ensures Agree(c, b, repo, issue, now) <==> outcome == Verdict(b, repo, issue, c.active.value, now)
  {
  }

  /** A holder by takeover that never claimed the issue itself: the reaper stays silent, so the two
      agree exactly as long as the holder is in time. */
  lemma TakeoverHolderAgreesIff(evs: seq<Ev>, revs: seq<Ev>, repo: string, issue: nat, now: int)
    requires Held(evs, revs, repo, issue)
    requires Fold(evs, repo, issue).value.active.Some?
             ==> !Claimed(revs, repo, issue, Fold(evs, repo, issue).value.active.value)
    ensures var c, b := Fold(evs, repo, issue).value, FoldBook(revs).value;
            && c.active.Some? && Verdict(b, repo, issue, c.active.value, now) == None
            && (Agree(c, b, repo, issue, now) <==> MayAct(evs, repo, issue, c.active.value, now))
  {
    var grant, sign := AgreeIff(evs, revs, repo, issue, now);
    var c := Fold(evs, repo, issue).value;
    NeverClaimedNeverReported(revs, repo, issue, c.active.value, now);
    AllowedIffMayAct(evs, repo, issue, c.active.value, now);
  }

  /** A holder whose last grant is its own claim holds by the claim the reaper tracks. */
  lemma HolderByClaimStands(evs: seq<Ev>, revs: seq<Ev>, repo: string, issue: nat, session: string, g: int, k: int)
    requires SameReadings(evs, revs) && HoldsFrom(evs, repo, issue, session, g) && evs[g].kind.ClaimAccepted?
    requires LastSign(evs, repo, issue, session, g, k)
    ensures Stands(revs, repo, issue, session, g, k)
  {
    assert SameReading(evs[g], revs[g]) && SameReading(evs[k], revs[k]);
    forall j | g < j < |revs|
      ensures !OwnClaim(revs[j], repo, issue, session) && !OwnRevocation(revs[j], repo, issue, session)
    {
      assert SameReading(evs[j], revs[j]);
      assert !Grants(evs[j], repo, issue) && !Withdraws(evs[j], repo, issue, session);
    }
    forall j | k < j < |revs| ensures !OwnBeat(revs[j], repo, issue, session) {
      assert SameReading(evs[j], revs[j]);
      assert !Beats(evs[j], repo, issue, session);
    }
  }
}
