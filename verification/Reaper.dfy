/** The reaper's projection of the ledger (scripts/coordination/reap-ledger-state.py) and its
    agreement with the claim evaluator. */
module Reaper {
  import opened Json
  import opened Replay
  import opened Chain
  import opened Claims
  import opened Text

  // ----- reading an event

  const UNKNOWN := "UNKNOWN/UNKNOWN"

  /** `safe_int` */
  function SafeInt(v: Value, default: int): int {
    if v.Num? && v.n > 0 then v.n else default
  }

  function LeaseForReaper(env: Env, data: Object): Lease {
    var v := Or(Get(data, ClaimExpiresAt), Get(data, ExpiresAt));
    if !Truthy(v) then NoLease
    else if v.Str? && env.time(v.s).Some? then Until(env.time(v.s).value)
    else Unreadable
  }

  /** What the reaper reads from one event. */
  function ReadForReaper(env: Env, e: Object): Ev {
    var data := PayloadOf(e);
    Ev(KindOf(Get(e, EventType)),
       Some(if RepoOf(data).Some? then RepoOf(data).value else UNKNOWN),
       PositiveInt(Get(data, Issue)),
       NonEmptyString(Or(Get(data, Session), Get(data, ClaimSession))),
       None, None,
       TimeOf(env, e),
       LeaseForReaper(env, data),
       Some(SafeInt(Get(data, HeartbeatInterval), 30)),
       Some(SafeInt(Get(data, HeartbeatGrace), 45)))
  }

  // ----- derive_claims

  datatype Tracked = Tracked(
    repo: string,
    issue: int,
    session: string,
    acceptedAt: int,
    expires: Option<int>,
    interval: int,
    grace: int,
    beat: Option<int>,
    revoked: bool)

  function ClaimKey(repo: string, issue: nat, session: string): string {
    repo + ['#'] + (Decimal(issue) + ['|'] + session)
  }

  /** The `claims` dictionary: its entries, and its keys in insertion order. */
  datatype Book = Book(order: seq<string>, claims: map<string, Tracked>)

  function Put(b: Book, key: string, t: Tracked): Book {
    Book(if key in b.claims then b.order else b.order + [key], b.claims[key := t])
  }

  predicate Addressed(ev: Ev) {
    ev.repo.Some? && ev.issue.Some? && ev.issue.value > 0 && ev.session.Some?
  }

  function KeyOf(ev: Ev): string
    requires Addressed(ev)
  {
    ClaimKey(ev.repo.value, ev.issue.value, ev.session.value)
  }

  /** One iteration of the loop in `derive_claims`; a failure is a raised error. */
  function StepBook(b: Book, ev: Ev): Result<Book, ()> {
    if !Addressed(ev) then Ok(b)
    else
      match ev.kind
      case ClaimAccepted =>
        if ev.lease.Unreadable? || ev.interval.None? || ev.grace.None? then Fail(())
        else
          Ok(Put(b, KeyOf(ev),
                 Tracked(ev.repo.value, ev.issue.value, ev.session.value, ev.at,
                         if ev.lease.Until? then Some(ev.lease.at) else None,
                         ev.interval.value, ev.grace.value, None, false)))
      case HeartbeatEvidence =>
        Ok(if KeyOf(ev) in b.claims then Put(b, KeyOf(ev), b.claims[KeyOf(ev)].(beat := Some(ev.at))) else b)
      case Revocation =>
        Ok(if KeyOf(ev) in b.claims then Put(b, KeyOf(ev), b.claims[KeyOf(ev)].(revoked := true)) else b)
      case _ => Ok(b)
  }

  function FoldBook(evs: seq<Ev>): Result<Book, ()> {
    if evs == [] then Ok(Book([], map[]))
    else
      var b :- FoldBook(evs[..|evs| - 1]);
      StepBook(b, evs[|evs| - 1])
  }

  lemma {:induction false} BookFailureStays(evs: seq<Ev>, more: seq<Ev>)
    requires FoldBook(evs).Fail?
    ensures FoldBook(evs + more) == FoldBook(evs)
  {
    if more == [] {
      assert evs + more == evs;
    } else {
      BookFailureStays(evs, more[..|more| - 1]);
      assert (evs + more)[..|evs + more| - 1] == evs + more[..|more| - 1];
    }
  }

  method DeriveClaims(env: Env, events: seq<Object>) returns (r: Result<Book, ()>)
    ensures r == FoldBook(ReadAllForReaper(env, events))
  {
    ghost var evs := ReadAllForReaper(env, events);
    var b := Book([], map[]);
    var i := 0;
    while i < |events|
      invariant 0 <= i <= |events|
      invariant FoldBook(evs[..i]) == Ok(b)
    {
      assert evs[..i + 1][..i] == evs[..i];
      var next := StepBook(b, ReadForReaper(env, events[i]));
      if next.Fail? {
        BookFailureStays(evs[..i + 1], evs[i + 1..]);
        assert evs[..i + 1] + evs[i + 1..] == evs;
        return next;
      }
      b := next.value;
      i := i + 1;
    }
    assert evs[..i] == evs;
    return Ok(b);
  }

  function ReadAllForReaper(env: Env, events: seq<Object>): seq<Ev> {
    seq(|events|, i requires 0 <= i < |events| => ReadForReaper(env, events[i]))
  }

  // ----- detect_stale_claims

  datatype FindingKind = LeaseExpired | HeartbeatMissed
  datatype Finding = Finding(kind: FindingKind, repo: string, issue: int, session: string)

  function LastSeen(t: Tracked): int {
    if t.beat.Some? then t.beat.value else t.acceptedAt
  }

  function Judge(t: Tracked, now: int): Option<FindingKind> {
    if t.revoked then None
    else if t.expires.Some? && now > t.expires.value then Some(LeaseExpired)
    else if now > LastSeen(t) + (t.interval + t.grace) * MINUTE then Some(HeartbeatMissed)
    else None
  }

  function FindingFor(t: Tracked, now: int): seq<Finding> {
    if Judge(t, now).Some? then [Finding(Judge(t, now).value, t.repo, t.issue, t.session)] else []
  }

  function Findings(order: seq<string>, claims: map<string, Tracked>, now: int): seq<Finding> {
    if order == [] then []
    else
      var key := order[|order| - 1];
      Findings(order[..|order| - 1], claims, now) + if key in claims then FindingFor(claims[key], now) else []
  }

  method DetectStaleClaims(b: Book, now: int) returns (findings: seq<Finding>)
    requires forall i :: 0 <= i < |b.order| ==> b.order[i] in b.claims
    ensures findings == Findings(b.order, b.claims, now)
  {
    findings := [];
    var i := 0;
    while i < |b.order|
      invariant 0 <= i <= |b.order|
      invariant findings == Findings(b.order[..i], b.claims, now)
    {
      assert b.order[..i + 1][..i] == b.order[..i];
      var t := b.claims[b.order[i]];
      if !t.revoked {
        if t.expires.Some? && now > t.expires.value {
          findings := findings + [Finding(LeaseExpired, t.repo, t.issue, t.session)];
        } else if now > LastSeen(t) + (t.interval + t.grace) * MINUTE {
          findings := findings + [Finding(HeartbeatMissed, t.repo, t.issue, t.session)];
        }
      }
      i := i + 1;
    }
    assert b.order[..i] == b.order;
  }

  // ----- keys

  /** Two claims of one repository never share a key. */
  lemma KeysOfOneRepo(r: string, i: nat, s: string, i': nat, s': string)
    requires ClaimKey(r, i, s) == ClaimKey(r, i', s')
    ensures i == i' && s == s'
  {
    var x, y := Decimal(i) + ['|'] + s, Decimal(i') + ['|'] + s';
    assert x == ClaimKey(r, i, s)[|r| + 1..] && y == ClaimKey(r, i', s')[|r| + 1..];
    DecimalHasNo(i, '|');
    DecimalHasNo(i', '|');
    SplitUnique(Decimal(i), s, Decimal(i'), s', '|');
    DecimalInjective(i, i');
  }

  /** Repository `r'` reads like a claim key of repository `r`. */
  ghost predicate LooksLikeKeyOf(r: string, r': string) {
    exists n: nat, x :: n > 0 && r' == ClaimKey(r, n, x)
  }

  /** Some claim of one and some claim of the other share a key. */
  ghost predicate Collide(r: string, r': string) {
    exists i: nat, s, i': nat, s' ::
      i > 0 && s != "" && i' > 0 && s' != "" && ClaimKey(r, i, s) == ClaimKey(r', i', s')
  }

  /** Equal keys of a shorter and a longer repository: the longer one begins with the key. */
  lemma LongerLooksLikeKey(r: string, i: nat, s: string, r': string, i': nat, s': string) returns (x: string)
    requires |r| < |r'| && ClaimKey(r, i, s) == ClaimKey(r', i', s')
    ensures r' == ClaimKey(r, i, x)
  {
    var key, d := ClaimKey(r, i, s), Decimal(i);
    var n, m := |r|, |r'|;
    assert key[..m] == r' && key[m] == '#' && key[n] == '#';
    DecimalHasNo(i, '#');
    assert forall k :: n < k <= n + |d| ==> key[k] == d[k - n - 1];
    assert key[n + 1 + |d|] == '|';
    assert m > n + 1 + |d|;
    x := r'[n + 2 + |d|..];
    assert r' == key[..n + 2 + |d|] + x;
  }

  lemma KeyCollides(r: string, n: nat, x: string)
    requires n > 0
    ensures Collide(r, ClaimKey(r, n, x))
  {
    var r' := ClaimKey(r, n, x);
    var tail := x + ['#'] + (Decimal(1) + ['|'] + "s");
    assert ClaimKey(r, n, tail) == ClaimKey(r', 1, "s");
  }

  /** Exactly when two different repositories can share a claim key: one of them reads like a
      claim key of the other. */
  lemma CollideIff(r: string, r': string)
    requires r != r'
    ensures Collide(r, r') <==> LooksLikeKeyOf(r, r') || LooksLikeKeyOf(r', r)
  {
    if Collide(r, r') {
      var i: nat, s, i': nat, s' :|
        i > 0 && s != "" && i' > 0 && s' != "" && ClaimKey(r, i, s) == ClaimKey(r', i', s');
      SharedKeyMeans(r, i, s, r', i', s');
    }
    if LooksLikeKeyOf(r, r') {
      var n: nat, x :| n > 0 && r' == ClaimKey(r, n, x);
      KeyCollides(r, n, x);
    }
    if LooksLikeKeyOf(r', r) {
      var n: nat, x :| n > 0 && r == ClaimKey(r', n, x);
      KeyCollides(r', n, x);
      CollideSymmetric(r', r);
    }
  }

  lemma CollideSymmetric(r: string, r': string)
    requires Collide(r, r')
    ensures Collide(r', r)
  {
    var i: nat, s, i': nat, s' :|
      i > 0 && s != "" && i' > 0 && s' != "" && ClaimKey(r, i, s) == ClaimKey(r', i', s');
    assert ClaimKey(r', i', s') == ClaimKey(r, i, s);
  }

  lemma SharedKeyMeans(r: string, i: nat, s: string, r': string, i': nat, s': string)
    requires r != r' && i > 0 && i' > 0 && ClaimKey(r, i, s) == ClaimKey(r', i', s')
    ensures LooksLikeKeyOf(r, r') || LooksLikeKeyOf(r', r)
  {
    if |r| < |r'| {
      var x := LongerLooksLikeKey(r, i, s, r', i', s');
    } else if |r'| < |r| {
      var x := LongerLooksLikeKey(r', i', s', r, i, s);
    } else {
      SameLengthSameRepo(r, i, s, r', i', s');
    }
  }

  lemma SameLengthSameRepo(r: string, i: nat, s: string, r': string, i': nat, s': string)
    requires |r| == |r'| && ClaimKey(r, i, s) == ClaimKey(r', i', s')
    ensures r == r'
  {
    assert r == ClaimKey(r, i, s)[..|r|] && r' == ClaimKey(r', i', s')[..|r'|];
  }

  lemma PlainNotLonger(r: string, i: nat, s: string, r': string, i': nat, s': string)
    requires '#' !in r' && ClaimKey(r, i, s) == ClaimKey(r', i', s')
    ensures |r'| <= |r|
  {
    var key := ClaimKey(r, i, s);
    assert forall k :: 0 <= k < |r'| ==> key[k] == r'[k];
    assert key[|r|] == '#';
  }

  /** The same repository, or two that never share a key. */
  ghost predicate Apart(r: string, r': string) {
    r == r' || (!LooksLikeKeyOf(r, r') && !LooksLikeKeyOf(r', r))
  }

  lemma ApartKeys(r: string, i: nat, s: string, r': string, i': nat, s': string)
    requires Apart(r, r') && i > 0 && i' > 0 && ClaimKey(r, i, s) == ClaimKey(r', i', s')
    ensures r == r' && i == i' && s == s'
  {
    if r == r' {
      KeysOfOneRepo(r, i, s, i', s');
    } else {
      SharedKeyMeans(r, i, s, r', i', s');
    }
  }

  lemma PlainApart(r: string, r': string)
    requires '#' !in r && '#' !in r'
    ensures Apart(r, r')
  {
    forall n: nat, x ensures r' != ClaimKey(r, n, x) && r != ClaimKey(r', n, x) {
      assert ClaimKey(r, n, x)[|r|] == '#' && ClaimKey(r', n, x)[|r'|] == '#';
    }
  }

  /** In particular keys are unambiguous among repositories without a `#`. */
  lemma ClaimKeyInjective(r: string, i: nat, s: string, r': string, i': nat, s': string)
    requires '#' !in r && '#' !in r' && ClaimKey(r, i, s) == ClaimKey(r', i', s')
    ensures r == r' && i == i' && s == s'
  {
    PlainNotLonger(r, i, s, r', i', s');
    PlainNotLonger(r', i', s', r, i, s);
    SameLengthSameRepo(r, i, s, r', i', s');
    KeysOfOneRepo(r, i, s, i', s');
  }

  // ----- the two readings of one event

  predicate ReadByReaper(kind: Kind) {
    kind.ClaimAccepted? || kind.HeartbeatEvidence? || kind.Revocation?
  }

  predicate TextOrNull(v: Value) {
    v.Null? || v.Str?
  }

  predicate AbsentOrPositive(v: Value) {
    v.Null? || (v.Num? && v.n > 0)
  }

  /** A claim, heartbeat or revocation whose repository is present and whose members, as far as
      the scripts use them, have the types their writers give them. */
  predicate Tidy(e: Object) {
    var data, kind := PayloadOf(e), KindOf(Get(e, EventType));
    && (ReadByReaper(kind) ==>
          RepoOf(data).Some? && TextOrNull(Get(data, Session)) && TextOrNull(Get(data, ClaimSession)))
    && (kind.ClaimAccepted? ==>
          && TextOrNull(Get(data, ClaimExpiresAt)) && TextOrNull(Get(data, ExpiresAt))
          && AbsentOrPositive(Get(data, HeartbeatInterval)) && AbsentOrPositive(Get(data, HeartbeatGrace)))
  }

  /** The two scripts take the event for the same thing. */
  predicate SameReading(ev: Ev, rev: Ev) {
    && ev.kind == rev.kind
    && (ReadByReaper(ev.kind) ==>
          && ev.repo.Some? && rev.repo == ev.repo && rev.issue == ev.issue && rev.session == ev.session
          && rev.at == ev.at && (ev.issue.Some? ==> ev.issue.value > 0))
    && (ev.kind.ClaimAccepted? ==>
          && rev.lease == ev.lease && rev.interval == ev.interval && rev.grace == ev.grace
          && ev.interval.Some? && ev.interval.value > 0 && ev.grace.Some? && ev.grace.value > 0)
  }

  lemma TidyReadsTheSame(env: Env, e: Object)
    requires Tidy(e)
    ensures SameReading(Read(env, e), ReadForReaper(env, e))
  {
  }

  ghost predicate SameReadings(evs: seq<Ev>, revs: seq<Ev>) {
    |evs| == |revs| && forall i :: 0 <= i < |evs| ==> SameReading(evs[i], revs[i])
  }

  /** So a ledger of tidy events gives the two scripts the same readings throughout. */
  lemma TidyLedgerReadsTheSame(env: Env, events: seq<Object>)
    requires forall i :: 0 <= i < |events| ==> Tidy(events[i])
    ensures SameReadings(ReadAll(env, events), ReadAllForReaper(env, events))
  {
    forall i | 0 <= i < |events| ensures SameReading(Read(env, events[i]), ReadForReaper(env, events[i])) {
      TidyReadsTheSame(env, events[i]);
    }
  }

  /** No other repository in the ledger can share a claim key with `repo`. */
  ghost predicate Unmixed(revs: seq<Ev>, repo: string) {
    forall i :: 0 <= i < |revs| && ReadByReaper(revs[i].kind) && revs[i].repo.Some? ==> Apart(revs[i].repo.value, repo)
  }

  /** Ledgers whose repositories contain no `#` never mix them. */
  lemma PlainUnmixed(revs: seq<Ev>, repo: string)
    requires '#' !in repo
    requires forall i :: 0 <= i < |revs| && revs[i].repo.Some? ==> '#' !in revs[i].repo.value
    ensures Unmixed(revs, repo)
  {
    forall i | 0 <= i < |revs| && revs[i].repo.Some? ensures Apart(revs[i].repo.value, repo) {
      PlainApart(revs[i].repo.value, repo);
    }
  }

  // ----- agreement

  /** The last grant of the issue is a CLAIM_ACCEPTED. */
  predicate ByClaim(evs: seq<Ev>, repo: string, issue: int) {
    evs != [] &&
    if Grants(evs[|evs| - 1], repo, issue) then evs[|evs| - 1].kind.ClaimAccepted?
    else ByClaim(evs[..|evs| - 1], repo, issue)
  }

  /** The reaper holds an unrevoked entry for the active session with the evaluator's data; the
      evaluator's copy of the two times lost its fraction of a second. */
  ghost predicate Mirrors(c: Claim, b: Book, repo: string, issue: nat) {
    && c.active.Some?
    && ClaimKey(repo, issue, c.active.value) in b.claims
    && var t := b.claims[ClaimKey(repo, issue, c.active.value)];
       && !t.revoked
       && c.lease == (if t.expires.Some? then Some(Trunc(t.expires.value)) else None)
       && c.beat == Some(Trunc(LastSeen(t)))
       && c.interval == t.interval > 0 && c.grace == t.grace > 0
  }

  lemma OtherKeyUntouched(b: Book, ev: Ev, repo: string, issue: nat, session: string)
    requires StepBook(b, ev).Ok? && issue > 0
    requires Addressed(ev) && ReadByReaper(ev.kind) ==> Apart(ev.repo.value, repo)
    requires Addressed(ev) && ReadByReaper(ev.kind) ==>
               ev.repo != Some(repo) || ev.issue != Some(issue) || ev.session != Some(session)
    ensures var key := ClaimKey(repo, issue, session);
            && (key in StepBook(b, ev).value.claims <==> key in b.claims)
            && (key in b.claims ==> StepBook(b, ev).value.claims[key] == b.claims[key])
  {
    if Addressed(ev) && ReadByReaper(ev.kind) && KeyOf(ev) == ClaimKey(repo, issue, session) {
      ApartKeys(ev.repo.value, ev.issue.value, ev.session.value, repo, issue, session);
      assert false;
    }
  }

  lemma StepMirrors(c: Claim, b: Book, ev: Ev, rev: Ev, repo: string, issue: nat)
    requires SameReading(ev, rev) && Unmixed([rev], repo) && issue > 0
    requires StepClaim(c, ev, repo, issue).Ok? && StepBook(b, rev).Ok?
    requires StepClaim(c, ev, repo, issue).value.standing.ActiveWinner?
    requires if Grants(ev, repo, issue) then ev.kind.ClaimAccepted?
             else c.standing.ActiveWinner? && Mirrors(c, b, repo, issue)
    ensures Mirrors(StepClaim(c, ev, repo, issue).value, StepBook(b, rev).value, repo, issue)
  {
    assert [rev][0] == rev;
    if !Grants(ev, repo, issue) {
      var s := c.active.value;
      if Beats(ev, repo, issue, s) {
      } else {
        assert !Withdraws(ev, repo, issue, s);
        OtherKeyUntouched(b, rev, repo, issue, s);
      }
    }
  }

  lemma {:induction false} ReaperMirrorsEvaluator(evs: seq<Ev>, revs: seq<Ev>, repo: string, issue: nat)
    requires SameReadings(evs, revs) && Unmixed(revs, repo) && issue > 0
    requires Fold(evs, repo, issue).Ok? && FoldBook(revs).Ok?
    requires Fold(evs, repo, issue).value.standing.ActiveWinner? && ByClaim(evs, repo, issue)
    ensures Mirrors(Fold(evs, repo, issue).value, FoldBook(revs).value, repo, issue)
  {
    var n := |evs|;
    var before, after := evs[..n - 1], revs[..n - 1];
    var c, b := Fold(before, repo, issue).value, FoldBook(after).value;
    if !Grants(evs[n - 1], repo, issue) {
      assert c.standing.ActiveWinner?;
      ReaperMirrorsEvaluator(before, after, repo, issue);
    }
    StepMirrors(c, b, evs[n - 1], revs[n - 1], repo, issue);
  }

  /** On whole seconds a deadline and its truncation are passed at the same time. */
  lemma WholeSecondsOnly(now: int, t: int, minutes: int)
    requires now % SECOND == 0
    ensures now > Trunc(t) + minutes * MINUTE <==> now > t + minutes * MINUTE
  {
    var q := now / SECOND;
    assert now - minutes * MINUTE == (q - 60 * minutes) * SECOND;
  }

  /** The reaper's verdict on the session, if it tracks it. */
  function Verdict(b: Book, repo: string, issue: nat, session: string, now: int): Option<FindingKind> {
    if ClaimKey(repo, issue, session) in b.claims then Judge(b.claims[ClaimKey(repo, issue, session)], now) else None
  }

  /** On the active session both scripts decide alike: expired, stale, or in order. */
  ghost predicate Agree(c: Claim, b: Book, repo: string, issue: nat, now: int) {
    && c.active.Some?
    && (Evaluate(c, c.active.value, now) == Denied(ClaimHasExpired) <==>
        Verdict(b, repo, issue, c.active.value, now) == Some(LeaseExpired))
    && (Evaluate(c, c.active.value, now) == Denied(ClaimIsStale) <==>
        Verdict(b, repo, issue, c.active.value, now) == Some(HeartbeatMissed))
    && (Evaluate(c, c.active.value, now).Permitted? <==> Verdict(b, repo, issue, c.active.value, now).None?)
  }

  /** Both scripts read the ledger alike, and somebody holds the issue by a claim. */
  ghost predicate HeldByClaim(evs: seq<Ev>, revs: seq<Ev>, repo: string, issue: nat) {
    && SameReadings(evs, revs) && Unmixed(revs, repo) && issue > 0
    && Fold(evs, repo, issue).Ok? && FoldBook(revs).Ok?
    && Fold(evs, repo, issue).value.standing.ActiveWinner? && ByClaim(evs, repo, issue)
  }

  /** The two projections agree.  For the holder of an issue whose last grant is a claim, at any
      whole second: the evaluator denies as expired exactly when the reaper reports the lease
      expired, as stale exactly when it reports the heartbeat missed, and allows exactly when it
      reports nothing. */
  lemma ProjectionsAgree(evs: seq<Ev>, revs: seq<Ev>, repo: string, issue: nat, now: int)
    requires HeldByClaim(evs, revs, repo, issue) && now % SECOND == 0
    ensures Agree(Fold(evs, repo, issue).value, FoldBook(revs).value, repo, issue, now)
  {
    ReaperMirrorsEvaluator(evs, revs, repo, issue);
    var c := Fold(evs, repo, issue).value;
    var t := FoldBook(revs).value.claims[ClaimKey(repo, issue, c.active.value)];
    if t.expires.Some? {
      WholeSecondsOnly(now, t.expires.value, 0);
    }
    WholeSecondsOnly(now, LastSeen(t), t.interval + t.grace);
  }

  /** At any time at all, the reaper reports such a holder only when the evaluator denies it. */
  lemma ReportedHolderIsDenied(evs: seq<Ev>, revs: seq<Ev>, repo: string, issue: nat, now: int)
    requires HeldByClaim(evs, revs, repo, issue)
    ensures var c := Fold(evs, repo, issue).value;
            && c.active.Some?
            && (Verdict(FoldBook(revs).value, repo, issue, c.active.value, now).Some? ==>
                Evaluate(c, c.active.value, now).Denied?)
  {
    ReaperMirrorsEvaluator(evs, revs, repo, issue);
  }

  function ClaimAt(repo: string, issue: nat, session: string, at: int): Ev {
    Ev(ClaimAccepted, Some(repo), Some(issue), Some(session), None, None, at, NoLease, Some(30), Some(45))
  }

  lemma SingleClaim(repo: string, issue: nat, session: string, at: int)
    requires issue > 0
    ensures var ev := ClaimAt(repo, issue, session, at);
            && Fold([ev], repo, issue) == Ok(GrantTo(session, ev))
            && FoldBook([ev]) == StepBook(Book([], map[]), ev)
  {
    assert [ClaimAt(repo, issue, session, at)][..0] == [];
  }

  /** With any fraction of a second in `now`, the claim committed 75 minutes before it is stale
      to the evaluator, which dropped the fraction of its deadline, and in order to the reaper. */
  lemma FractionalNowDisagrees(repo: string, issue: nat, session: string, now: int)
    requires issue > 0 && now % SECOND != 0
    ensures var ev := ClaimAt(repo, issue, session, now - 75 * MINUTE);
            && HeldByClaim([ev], [ev], repo, issue)
            && Evaluate(Fold([ev], repo, issue).value, session, now) == Denied(ClaimIsStale)
            && Verdict(FoldBook([ev]).value, repo, issue, session, now) == None
            && !Agree(Fold([ev], repo, issue).value, FoldBook([ev]).value, repo, issue, now)
  {
    var at := now - 75 * MINUTE;
    SingleClaim(repo, issue, session, at);
    FractionKept(now, 75);
  }

  lemma FractionKept(now: int, minutes: int)
    ensures (now - minutes * MINUTE) % SECOND == now % SECOND
  {
    var q := now / SECOND;
    assert now - minutes * MINUTE == (q - 60 * minutes) * SECOND + now % SECOND;
  }

  /** Exactly when the projections agree on every ledger held by a claim: at whole seconds. */
  lemma AgreeEverywhereIff(now: int)
    ensures now % SECOND == 0 <==>
            forall evs, revs, repo, issue: nat :: HeldByClaim(evs, revs, repo, issue) ==>
              Agree(Fold(evs, repo, issue).value, FoldBook(revs).value, repo, issue, now)
  {
    if now % SECOND == 0 {
      forall evs, revs, repo, issue: nat | HeldByClaim(evs, revs, repo, issue)
        ensures Agree(Fold(evs, repo, issue).value, FoldBook(revs).value, repo, issue, now)
      {
        ProjectionsAgree(evs, revs, repo, issue, now);
      }
    } else {
      FractionalNowDisagrees("o/r", 1, "s", now);
      var ev := ClaimAt("o/r", 1, "s", now - 75 * MINUTE);
      assert HeldByClaim([ev], [ev], "o/r", 1);
    }
  }

  // ----- appending what was found

  /** The event a finding becomes, as either script reads it. */
  predicate Reports(ev: Ev, f: Finding) {
    ev.kind.Revocation? && ev.repo == Some(f.repo) && ev.issue == Some(f.issue) && ev.session == Some(f.session)
  }

  ghost predicate ReportsAll(evs: seq<Ev>, findings: seq<Finding>) {
    |evs| == |findings| && forall i :: 0 <= i < |evs| ==> Reports(evs[i], findings[i])
  }

  lemma FindingReadBack(env: Env, e: Object, f: Finding)
    requires KindOf(Get(e, EventType)).Revocation? && Get(e, Payload).Obj?
    requires Get(PayloadOf(e), Repository) == Str(f.repo) && f.repo != ""
    requires Get(PayloadOf(e), Issue) == Num(f.issue) && f.issue > 0
    requires Get(PayloadOf(e), Session) == Str(f.session) && f.session != ""
    ensures Reports(Read(env, e), f) && Reports(ReadForReaper(env, e), f)
  {
  }

  ghost predicate BookInOrder(b: Book) {
    && (forall i :: 0 <= i < |b.order| ==> b.order[i] in b.claims)
    && (forall key :: key in b.claims ==> key in b.order && Filed(key, b.claims[key]))
  }

  predicate Filed(key: string, t: Tracked) {
    t.issue > 0 && key == ClaimKey(t.repo, t.issue, t.session)
  }

  lemma StepBookInOrder(b: Book, ev: Ev)
    requires BookInOrder(b) && StepBook(b, ev).Ok?
    ensures BookInOrder(StepBook(b, ev).value)
  {
  }

  lemma {:induction false} FoldBookInOrder(revs: seq<Ev>)
    requires FoldBook(revs).Ok?
    ensures BookInOrder(FoldBook(revs).value)
  {
    if revs != [] {
      var n := |revs|;
      FoldBookInOrder(revs[..n - 1]);
      StepBookInOrder(FoldBook(revs[..n - 1]).value, revs[n - 1]);
    }
  }

  predicate About(f: Finding, t: Tracked, now: int) {
    f.repo == t.repo && f.issue == t.issue && f.session == t.session && Judge(t, now) == Some(f.kind)
  }

  /** There is a finding for exactly the entries that are judged overdue. */
  lemma {:induction false} FindingsExact(order: seq<string>, claims: map<string, Tracked>, now: int)
    requires forall i :: 0 <= i < |order| ==> order[i] in claims
    ensures forall f :: f in Findings(order, claims, now) ==>
              exists key :: key in order && About(f, claims[key], now)
    ensures forall key :: key in order && Judge(claims[key], now).Some? ==>
              exists f :: f in Findings(order, claims, now) && About(f, claims[key], now)
    ensures (forall key :: key in order ==> Judge(claims[key], now).None?) ==> Findings(order, claims, now) == []
  {
    if order != [] {
      var shorter, last := order[..|order| - 1], order[|order| - 1];
      FindingsExact(shorter, claims, now);
      assert order == shorter + [last];
      var fs := Findings(order, claims, now);
      if Judge(claims[last], now).Some? {
        var t := claims[last];
        var f := Finding(Judge(t, now).value, t.repo, t.issue, t.session);
        assert f in fs && About(f, t, now);
      }
    }
  }

  predicate Reported(findings: seq<Finding>, t: Tracked) {
    exists i :: 0 <= i < |findings| &&
      findings[i].repo == t.repo && findings[i].issue == t.issue && findings[i].session == t.session
  }

  /** After appending reports of some findings the book differs only in that the entries
      reported are revoked. */
  ghost predicate RevokedExactly(b: Book, after: Book, findings: seq<Finding>) {
    && after.order == b.order && after.claims.Keys == b.claims.Keys
    && forall key :: key in b.claims ==>
         after.claims[key] == b.claims[key].(revoked := b.claims[key].revoked || Reported(findings, b.claims[key]))
  }

  lemma RevokeOne(b: Book, mid: Book, findings: seq<Finding>, f: Finding, ev: Ev)
    requires BookInOrder(b) && RevokedExactly(b, mid, findings) && Reports(ev, f)
    requires OfBook(f, b)
    ensures StepBook(mid, ev).Ok? && RevokedExactly(b, StepBook(mid, ev).value, findings + [f])
  {
    var key :| key in b.claims && f.repo == b.claims[key].repo &&
               f.issue == b.claims[key].issue && f.session == b.claims[key].session;
    assert Filed(key, b.claims[key]);
    assert KeyOf(ev) == key;
    forall k | k in b.claims
      ensures Reported(findings + [f], b.claims[k]) <==> Reported(findings, b.claims[k]) || k == key
    {
      assert Filed(k, b.claims[k]);
      ReportedSnoc(findings, f, b.claims[k]);
      if k != key && f.repo == b.claims[k].repo && f.issue == b.claims[k].issue && f.session == b.claims[k].session {
        assert false;
      }
    }
  }

  lemma ReportedSnoc(findings: seq<Finding>, f: Finding, t: Tracked)
    ensures Reported(findings + [f], t) <==>
            Reported(findings, t) || (f.repo == t.repo && f.issue == t.issue && f.session == t.session)
  {
    var longer := findings + [f];
    assert longer[|findings|] == f;
    if Reported(findings, t) {
      var i :| 0 <= i < |findings| &&
        findings[i].repo == t.repo && findings[i].issue == t.issue && findings[i].session == t.session;
      assert longer[i] == findings[i];
    }
  }

  ghost predicate OfBook(f: Finding, b: Book) {
    exists key :: key in b.claims && f.repo == b.claims[key].repo &&
      f.issue == b.claims[key].issue && f.session == b.claims[key].session
  }

  ghost predicate FromBook(findings: seq<Finding>, b: Book) {
    forall i :: 0 <= i < |findings| ==> OfBook(findings[i], b)
  }

  lemma {:induction false} RevokeAll(revs: seq<Ev>, b: Book, reports: seq<Ev>, findings: seq<Finding>)
    requires FoldBook(revs) == Ok(b) && BookInOrder(b)
    requires ReportsAll(reports, findings) && FromBook(findings, b)
    ensures FoldBook(revs + reports).Ok? && RevokedExactly(b, FoldBook(revs + reports).value, findings)
  {
    if reports == [] {
      assert revs + reports == revs;
    } else {
      var n := |reports| - 1;
      var mid := revs + reports[..n];
      RevokeAll(revs, b, reports[..n], findings[..n]);
      RevokeOne(b, FoldBook(mid).value, findings[..n], findings[n], reports[n]);
      FoldBookSnoc(mid, reports[n]);
      AppendLast(revs, reports);
      SplitLast(findings);
    }
  }

  lemma FoldBookSnoc(evs: seq<Ev>, ev: Ev)
    requires FoldBook(evs).Ok?
    ensures FoldBook(evs + [ev]) == StepBook(FoldBook(evs).value, ev)
  {
    assert (evs + [ev])[..|evs|] == evs;
  }

  /** Reaping is complete: once every finding has been appended, the reaper finds nothing more at
      that time. */
  lemma ReapingSettles(revs: seq<Ev>, reports: seq<Ev>, now: int)
    requires FoldBook(revs).Ok?
    requires ReportsAll(reports, Findings(FoldBook(revs).value.order, FoldBook(revs).value.claims, now))
    ensures FoldBook(revs + reports).Ok?
    ensures var after := FoldBook(revs + reports).value;
            Findings(after.order, after.claims, now) == []
  {
    var b := FoldBook(revs).value;
    FoldBookInOrder(revs);
    var findings := Findings(b.order, b.claims, now);
    FindingsExact(b.order, b.claims, now);
    FindingsFromBook(b, now);
    RevokeAll(revs, b, reports, findings);
    var after := FoldBook(revs + reports).value;
    forall key | key in after.order ensures Judge(after.claims[key], now).None? {
      if Judge(b.claims[key], now).Some? {
        var f :| f in findings && About(f, b.claims[key], now);
        assert Reported(findings, b.claims[key]);
      }
    }
    FindingsExact(after.order, after.claims, now);
  }

  lemma FindingsFromBook(b: Book, now: int)
    requires BookInOrder(b)
    ensures FromBook(Findings(b.order, b.claims, now), b)
  {
    var findings := Findings(b.order, b.claims, now);
    FindingsExact(b.order, b.claims, now);
    forall i | 0 <= i < |findings| ensures OfBook(findings[i], b) {
      assert findings[i] in findings;
    }
  }

  /** The reaper tracks the session on the issue and judges it overdue. */
  predicate Overdue(b: Book, repo: string, issue: int, session: string, now: int) {
    && issue > 0 && ClaimKey(repo, issue, session) in b.claims
    && var t := b.claims[ClaimKey(repo, issue, session)];
       t.repo == repo && t.session == session && Judge(t, now).Some?
  }

  predicate Names(findings: seq<Finding>, repo: string, issue: int, session: Option<string>) {
    exists i :: 0 <= i < |findings| &&
      findings[i].repo == repo && findings[i].issue == issue && Some(findings[i].session) == session
  }

  lemma NamesSnoc(findings: seq<Finding>, f: Finding, repo: string, issue: int, session: Option<string>)
    ensures Names(findings + [f], repo, issue, session) <==>
            Names(findings, repo, issue, session) || (f.repo == repo && f.issue == issue && Some(f.session) == session)
  {
    var longer := findings + [f];
    assert longer[|findings|] == f;
    if Names(findings, repo, issue, session) {
      var i :| 0 <= i < |findings| &&
        findings[i].repo == repo && findings[i].issue == issue && Some(findings[i].session) == session;
      assert longer[i] == findings[i];
    }
  }

  /** The findings name exactly the overdue sessions. */
  lemma NamedIffOverdue(b: Book, repo: string, issue: int, session: string, now: int)
    requires BookInOrder(b)
    ensures Names(Findings(b.order, b.claims, now), repo, issue, Some(session)) <==>
            Overdue(b, repo, issue, session, now)
  {
    var findings := Findings(b.order, b.claims, now);
    FindingsExact(b.order, b.claims, now);
    if Names(findings, repo, issue, Some(session)) {
      var i :| 0 <= i < |findings| &&
        findings[i].repo == repo && findings[i].issue == issue && findings[i].session == session;
      assert findings[i] in findings;
      var key :| key in b.order && About(findings[i], b.claims[key], now);
      assert Filed(key, b.claims[key]);
    }
    if Overdue(b, repo, issue, session, now) {
      var key := ClaimKey(repo, issue, session);
      var t := b.claims[key];
      assert Filed(key, t);
      KeysOfOneRepo(repo, t.issue, session, issue, session);
      var f :| f in findings && About(f, t, now);
    }
  }

  /** Reports of findings revoke the active session if one of them names it, and otherwise leave
      the evaluator's state as it was. */
  lemma {:induction false} ReportsFold(
    evs: seq<Ev>, reports: seq<Ev>, findings: seq<Finding>, repo: string, issue: int, c: Claim)
    requires Fold(evs, repo, issue) == Ok(c) && ReportsAll(reports, findings)
    ensures Fold(evs + reports, repo, issue) ==
            Ok(if Names(findings, repo, issue, c.active) then c.(standing := Revoked) else c)
  {
    if reports == [] {
      assert evs + reports == evs;
    } else {
      var n := |reports| - 1;
      ReportsFold(evs, reports[..n], findings[..n], repo, issue, c);
      AppendLast(evs, reports);
      FoldSnoc(evs + reports[..n], reports[n], repo, issue);
      SplitLast(findings);
      NamesSnoc(findings[..n], findings[n], repo, issue, c.active);
    }
  }

  lemma FoldSnoc(evs: seq<Ev>, ev: Ev, repo: string, issue: int)
    requires Fold(evs, repo, issue).Ok?
    ensures Fold(evs + [ev], repo, issue) == StepClaim(Fold(evs, repo, issue).value, ev, repo, issue)
  {
    assert (evs + [ev])[..|evs|] == evs;
  }

  /** Exactly what reaping does to a decision, at every time and however the two scripts read the
      ledger: once every finding has been appended, a session is allowed if and only if it was
      allowed before and the reaper did not judge it overdue. */
  lemma ReapingDecisionIff(evs: seq<Ev>, revs: seq<Ev>, reports: seq<Ev>, repo: string, issue: int, session: string,
                           now: int)
    requires FoldBook(revs).Ok? && Fold(evs, repo, issue).Ok?
    requires ReportsAll(reports, Findings(FoldBook(revs).value.order, FoldBook(revs).value.claims, now))
    ensures Fold(evs + reports, repo, issue).Ok?
    ensures Evaluate(Fold(evs + reports, repo, issue).value, session, now).Permitted? <==>
            && Evaluate(Fold(evs, repo, issue).value, session, now).Permitted?
            && !Overdue(FoldBook(revs).value, repo, issue, session, now)
  {
    var b, c := FoldBook(revs).value, Fold(evs, repo, issue).value;
    var findings := Findings(b.order, b.claims, now);
    FoldBookInOrder(revs);
    NamedIffOverdue(b, repo, issue, session, now);
    ReportsFold(evs, reports, findings, repo, issue, c);
    PermittedUnlessNamed(c, findings, repo, issue, session, now);
  }

  lemma PermittedUnlessNamed(c: Claim, findings: seq<Finding>, repo: string, issue: int, session: string, now: int)
    ensures var after := if Names(findings, repo, issue, c.active) then c.(standing := Revoked) else c;
            Evaluate(after, session, now).Permitted? <==>
            Evaluate(c, session, now).Permitted? && !Names(findings, repo, issue, Some(session))
  {
  }

  /** Reaping is harmless to an issue whose holder, if any, holds it by a claim: appending every
      finding changes no decision about it, at any time. */
  lemma ReapingChangesNoDecision(evs: seq<Ev>, revs: seq<Ev>, reports: seq<Ev>, repo: string, issue: int,
                                 session: string, now: int)
    requires SameReadings(evs, revs) && FoldBook(revs).Ok? && Fold(evs, repo, issue).Ok?
    requires Fold(evs, repo, issue).value.standing.ActiveWinner? ==> ByClaim(evs, repo, issue) && Unmixed(revs, repo)
    requires ReportsAll(reports, Findings(FoldBook(revs).value.order, FoldBook(revs).value.claims, now))
    ensures Fold(evs + reports, repo, issue).Ok?
    ensures Evaluate(Fold(evs + reports, repo, issue).value, session, now).Permitted? <==>
            Evaluate(Fold(evs, repo, issue).value, session, now).Permitted?
  {
    ReapingDecisionIff(evs, revs, reports, repo, issue, session, now);
    if Evaluate(Fold(evs, repo, issue).value, session, now).Permitted? && issue > 0 {
      ReportedHolderIsDenied(evs, revs, repo, issue, now);
    }
  }

  /** Where no takeover was ever committed, every holder holds by a claim. */
  lemma {:induction false} ActiveByClaim(evs: seq<Ev>, repo: string, issue: int)
    requires forall i :: 0 <= i < |evs| ==> !evs[i].kind.TakeoverCommitted?
    requires Fold(evs, repo, issue).Ok? && Fold(evs, repo, issue).value.standing.ActiveWinner?
    ensures ByClaim(evs, repo, issue)
  {
    if !Grants(evs[|evs| - 1], repo, issue) {
      ActiveByClaim(evs[..|evs| - 1], repo, issue);
    }
  }

  /** The harm that is left, at every time and for every session: one that went silent, and just
      regained the issue by takeover, is allowed until the finding on its old claim is appended. */
  lemma ReapingAfterTakeoverRevokesHolder(repo: string, issue: nat, session: string, report: Ev, now: int)
    requires issue > 0
    requires Reports(report, Finding(HeartbeatMissed, repo, issue, session))
    ensures var claim := ClaimAt(repo, issue, session, now - 76 * MINUTE);
            var regain := ClaimAt(repo, issue, session, now)
                          .(kind := TakeoverCommitted, session := None, newSession := Some(session));
            && FoldBook([claim, regain]).Ok? && Overdue(FoldBook([claim, regain]).value, repo, issue, session, now)
            && Fold([claim, regain], repo, issue).Ok? && Fold([claim, regain] + [report], repo, issue).Ok?
            && Evaluate(Fold([claim, regain], repo, issue).value, session, now).Permitted?
            && Evaluate(Fold([claim, regain] + [report], repo, issue).value, session, now).Denied?
  {
    var claim := ClaimAt(repo, issue, session, now - 76 * MINUTE);
    var regain := ClaimAt(repo, issue, session, now)
                  .(kind := TakeoverCommitted, session := None, newSession := Some(session));
    SingleClaim(repo, issue, session, now - 76 * MINUTE);
    assert [claim] + [regain] == [claim, regain];
    FoldSnoc([claim], regain, repo, issue);
    FoldBookSnoc([claim], regain);
    FoldSnoc([claim, regain], report, repo, issue);
  }
}
