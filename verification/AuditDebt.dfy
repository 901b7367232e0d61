/** The retry of queued audit debt (scripts/coordination/retry-audit-debt.py).

    Any number of retriers, each working from its own local queue, run beside other writers of
    the ledger; each may crash after any step.  An emission is one append guarded by the head
    the retrier last knew. */
module AuditDebt {
  import opened Json
  import opened Text
  import opened Replay
  import opened Chain
  import opened Appender

  const DENY_RECORDED := "DENY_RECORDED"
  const DEBT_SCHEMA := "coordination-audit-debt/v1"

  // ----- the local queue

  predicate IsName(s: string) {
    s != "" && forall i :: 0 <= i < |s| ==> IsSafeChar(s[i])
  }

  predicate IsIssueNumber(s: string) {
    s != "" && '1' <= s[0] <= '9' && forall i :: 0 <= i < |s| ==> '0' <= s[i] <= '9'
  }

  /** `owner/repo#number` */
  predicate IsIssueRef(s: string) {
    exists i, j :: 0 <= i < j < |s| && s[i] == '/' && s[j] == '#' &&
                   IsName(s[..i]) && IsName(s[i + 1..j]) && IsIssueNumber(s[j + 1..])
  }

  /** The intent id of a queue record that can be turned into an event, else nothing:
      `require_intent` followed by `build_payload`. */
  function RetryableId(item: Object): Option<string> {
    var intent := Get(item, Intent);
    if && Get(item, SchemaVersion) == Str(DEBT_SCHEMA)
       && Get(item, Status) == Str("blocked_audit_debt")
       && intent.Obj?
       && Get(intent.fields, Allowed) == Bool(false)
       && Get(intent.fields, DenyEventIntentId).Str?
       && IsHex64(Get(intent.fields, DenyEventIntentId).s)
       && NonEmptyString(Get(intent.fields, DenyCode)).Some?
       && NonEmptyString(Get(intent.fields, Issue)).Some?
       && NonEmptyString(Get(intent.fields, Session)).Some?
       && NonEmptyString(Get(intent.fields, Operation)).Some?
       && IsIssueRef(Get(intent.fields, Issue).s)
    then Some(Get(intent.fields, DenyEventIntentId).s)
    else None
  }

  /** The intent id a terminal marker settles, else nothing. */
  function SettledId(item: Object): Option<string> {
    if && Get(item, SchemaVersion) == Str(DEBT_SCHEMA)
       && (Get(item, Status) == Str("ledger_emitted") || Get(item, Status) == Str("already_in_ledger"))
       && Get(item, DenyEventIntentId).Str?
    then Some(Get(item, DenyEventIntentId).s)
    else None
  }

  /** `owner/repo#number` in its parts. */
  ghost predicate NamesIssue(s: string) {
    exists owner, repo, number :: NamesParts(s, owner, repo, number)
  }

  predicate NamesParts(s: string, owner: string, repo: string, number: string) {
    && s == owner + "/" + repo + "#" + number && owner != "" && repo != ""
    && (forall i :: 0 <= i < |owner| ==> SafeChar(owner[i])) && (forall i :: 0 <= i < |repo| ==> SafeChar(repo[i]))
    && number != "" && number[0] != '0' && forall i :: 0 <= i < |number| ==> '0' <= number[i] <= '9'
  }

  lemma IssueRefMeans(s: string)
    ensures IsIssueRef(s) <==> NamesIssue(s)
  {
    if IsIssueRef(s) {
      var i, j :| 0 <= i < j < |s| && s[i] == '/' && s[j] == '#' &&
                  IsName(s[..i]) && IsName(s[i + 1..j]) && IsIssueNumber(s[j + 1..]);
      PartsOf(s, i, j);
    }
    if NamesIssue(s) {
      var owner, repo, number :| NamesParts(s, owner, repo, number);
      PartsFound(s, owner, repo, number);
    }
  }

  lemma NameIff(s: string)
    ensures IsName(s) <==> s != "" && forall i :: 0 <= i < |s| ==> SafeChar(s[i])
  {
    forall i | 0 <= i < |s| ensures IsSafeChar(s[i]) <==> SafeChar(s[i]) {
      SafeCharIff(s[i]);
    }
  }

  lemma PartsOf(s: string, i: nat, j: nat)
    requires i < j < |s| && s[i] == '/' && s[j] == '#'
    requires IsName(s[..i]) && IsName(s[i + 1..j]) && IsIssueNumber(s[j + 1..])
    ensures NamesParts(s, s[..i], s[i + 1..j], s[j + 1..])
  {
    var owner, repo, number := s[..i], s[i + 1..j], s[j + 1..];
    assert s == owner + "/" + repo + "#" + number;
    assert number[0] != '0' && owner != "" && repo != "";
    NameIff(owner);
    NameIff(repo);
    assert forall k :: 0 <= k < |number| ==> '0' <= number[k] <= '9';
  }

  lemma PartsFound(s: string, owner: string, repo: string, number: string)
    requires NamesParts(s, owner, repo, number)
    ensures IsIssueRef(s) && s != ""
  {
    var i, j := |owner|, |owner| + 1 + |repo|;
    assert s[..i] == owner && s[i + 1..j] == repo && s[j + 1..] == number;
    NameIff(owner);
    NameIff(repo);
    assert IsName(s[..i]) && IsName(s[i + 1..j]) && IsIssueNumber(s[j + 1..]);
    assert s[i] == '/' && s[j] == '#';
  }

  /** What may be retried: a blocked record of a denial, with everything the event needs. */
  lemma RetryableMeans(item: Object, id: string)
    ensures RetryableId(item) == Some(id) <==>
            && Get(item, SchemaVersion) == Str("coordination-audit-debt/v1")
            && Get(item, Status) == Str("blocked_audit_debt")
            && Get(item, Intent).Obj?
            && var intent := Get(item, Intent).fields;
               && Get(intent, Allowed) == Bool(false)
               && Get(intent, DenyEventIntentId) == Str(id) && IsHex(id, 64)
               && IsText(Get(intent, DenyCode)) && IsText(Get(intent, Session)) && IsText(Get(intent, Operation))
               && Get(intent, Issue).Str? && NamesIssue(Get(intent, Issue).s)
  {
    if Get(item, Intent).Obj? && Get(Get(item, Intent).fields, Issue).Str? {
      var ref := Get(Get(item, Intent).fields, Issue).s;
      IssueRefMeans(ref);
      if owner, repo, number :| NamesParts(ref, owner, repo, number) {
        PartsFound(ref, owner, repo, number);
      }
    }
  }

  /** What settles an id, and which ledger events record one. */
  lemma SettledMeans(item: Object, id: string)
    ensures SettledId(item) == Some(id) <==>
            && Get(item, SchemaVersion) == Str("coordination-audit-debt/v1")
            && Get(item, Status) in {Str("ledger_emitted"), Str("already_in_ledger")}
            && Get(item, DenyEventIntentId) == Str(id)
    ensures DenyIdOf(item) == Some(id) <==>
            && Get(item, EventType) == Str("DENY_RECORDED") && Get(item, Payload).Obj?
            && id != "" && Get(Get(item, Payload).fields, DenyEventIntentId) == Str(id)
  {
  }

  method TerminalIds(records: seq<Object>) returns (ids: set<string>)
    ensures forall id :: id in ids <==> exists i :: 0 <= i < |records| && SettledId(records[i]) == Some(id)
  {
    ids := {};
    for k := 0 to |records|
      invariant forall id :: id in ids <==> exists i :: 0 <= i < k && SettledId(records[i]) == Some(id)
    {
      var settled := SettledId(records[k]);
      if settled.Some? {
        ids := ids + {settled.value};
      }
    }
  }

  /** The ids still to be emitted: each retryable id that is not settled, once, in the order in
      which the queue first mentions it. */
  method PendingIds(records: seq<Object>, settled: set<string>) returns (pending: seq<string>)
    ensures Distinct(pending)
    ensures forall id :: id in pending <==> id !in settled && Mentions(records, |records|, id)
    ensures forall id :: id in pending ==> IsHex64(id)
    ensures InQueueOrder(records, pending)
  {
    pending := [];
    ghost var firsts: seq<nat> := [];
    for k := 0 to |records|
      invariant Distinct(pending)
      invariant Firsts(records, pending, firsts, k)
      invariant forall id :: id in pending <==> id !in settled && Mentions(records, k, id)
    {
      var id := RetryableId(records[k]);
      MentionsNext(records, k);
      if id.Some? && id.value !in pending && id.value !in settled {
        FirstsNext(records, pending, firsts, k, id.value);
        pending := pending + [id.value];
        firsts := firsts + [k];
      }
    }
    FirstsGiveOrder(records, pending, firsts);
  }

  /** `firsts` are the places, all before `k`, at which the ids are first mentioned. */
  ghost predicate Firsts(records: seq<Object>, pending: seq<string>, firsts: seq<nat>, k: nat) {
    && |firsts| == |pending|
    && (forall i :: 0 <= i < |firsts| ==> firsts[i] < k && FirstMention(records, firsts[i], pending[i]))
    && (forall i, j :: 0 <= i < j < |firsts| ==> firsts[i] < firsts[j])
  }

  lemma FirstsNext(records: seq<Object>, pending: seq<string>, firsts: seq<nat>, k: nat, id: string)
    requires Firsts(records, pending, firsts, k) && k < |records|
    requires RetryableId(records[k]) == Some(id) && !Mentions(records, k, id)
    ensures Firsts(records, pending + [id], firsts + [k], k + 1)
  {
  }

  lemma FirstsGiveOrder(records: seq<Object>, pending: seq<string>, firsts: seq<nat>)
    requires Firsts(records, pending, firsts, |records|)
    ensures InQueueOrder(records, pending)
  {
    forall i, j, a, b |
      0 <= i < j < |pending| && FirstMention(records, a, pending[i]) && FirstMention(records, b, pending[j])
      ensures a < b
    {
      assert a == firsts[i] && b == firsts[j];
    }
  }

  /** Record `k` is the first that asks to retry `id`. */
  ghost predicate FirstMention(records: seq<Object>, k: int, id: string) {
    && 0 <= k < |records| && RetryableId(records[k]) == Some(id)
    && forall i :: 0 <= i < k ==> RetryableId(records[i]) != Some(id)
  }

  /** The ids stand in the order in which the queue first mentions them. */
  ghost predicate InQueueOrder(records: seq<Object>, pending: seq<string>) {
    forall i, j, a, b ::
      0 <= i < j < |pending| && FirstMention(records, a, pending[i]) && FirstMention(records, b, pending[j]) ==> a < b
  }

  /** One of the first `k` records asks to retry `id`. */
  ghost predicate Mentions(records: seq<Object>, k: nat, id: string)
    requires k <= |records|
  {
    exists i :: 0 <= i < k && RetryableId(records[i]) == Some(id)
  }

  lemma MentionsNext(records: seq<Object>, k: nat)
    requires k < |records|
    ensures forall id ::
              Mentions(records, k + 1, id) <==> Mentions(records, k, id) || RetryableId(records[k]) == Some(id)
  {
  }

  ghost predicate Distinct(ids: seq<string>) {
    forall i, j :: 0 <= i < j < |ids| ==> ids[i] != ids[j]
  }

  // ----- what the ledger already records

  function DenyIdOf(e: Object): Option<string> {
    if Get(e, EventType) == Str(DENY_RECORDED) && Get(e, Payload).Obj?
    then NonEmptyString(Get(Get(e, Payload).fields, DenyEventIntentId))
    else None
  }

  function DenyId(env: Env, text: string): Option<string> {
    if text == "" || ReadEvent(env, text).Fail? then None else DenyIdOf(ReadEvent(env, text).value)
  }

  /** How many lines of the ledger record the denial `id`. */
  function DenyCount(env: Env, lines: seq<string>, id: string): nat {
    if lines == [] then 0
    else
      DenyCount(env, lines[..|lines| - 1], id) + if DenyId(env, lines[|lines| - 1]) == Some(id) then 1 else 0
  }

  /** The scan in `checkout_ledger`. */
  method RecordedIds(env: Env, lines: seq<string>) returns (ids: set<string>)
    ensures forall id :: id in ids <==> DenyCount(env, lines, id) > 0
  {
    ids := {};
    var k := 0;
    while k < |lines|
      invariant 0 <= k <= |lines|
      invariant forall id :: id in ids <==> DenyCount(env, lines[..k], id) > 0
    {
      assert lines[..k + 1][..k] == lines[..k];
      var id := DenyId(env, lines[k]);
      if id.Some? {
        ids := ids + {id.value};
      }
      k := k + 1;
    }
    assert lines[..k] == lines;
  }

  lemma DenyCountSnoc(env: Env, lines: seq<string>, text: string, id: string)
    ensures DenyCount(env, lines + [text], id) ==
            DenyCount(env, lines, id) + if DenyId(env, text) == Some(id) then 1 else 0
  {
    assert (lines + [text])[..|lines|] == lines;
  }

  /** A denial is recorded in a valid ledger exactly when one of its events records it. */
  lemma {:induction false} RecordedIffAccepted(env: Env, lines: seq<string>, id: string)
    requires Replays(env, lines)
    ensures DenyCount(env, lines, id) > 0 <==> exists e :: e in Accepted(env, lines) && DenyIdOf(e) == Some(id)
  {
    if lines != [] {
      var n := |lines|;
      var shorter, text := lines[..n - 1], lines[n - 1];
      RecordedIffAccepted(env, shorter, id);
      if text != "" {
        RepeatOrNew(env, lines);
      }
    }
  }

  /** The last line of a valid ledger is an event it already held, or is its last event. */
  lemma RepeatOrNew(env: Env, lines: seq<string>)
    requires Replays(env, lines) && lines != [] && lines[|lines| - 1] != ""
    ensures Readable(env, lines[|lines| - 1])
    ensures var before, e := Accepted(env, lines[..|lines| - 1]), EventOf(env, lines[|lines| - 1]);
            Accepted(env, lines) == before + [e] || (Accepted(env, lines) == before && e in before)
  {
    ReplaysIffInOrder(env, lines);
    var before, e := Accepted(env, lines[..|lines| - 1]), EventOf(env, lines[|lines| - 1]);
    if HasUuid(before, UuidOf(e)) {
      RepeatIsKnown(env, lines);
    }
  }

  // ----- retriers beside other writers

  /** A retrier between two steps: the head it will emit on, the ids it still means to emit, the
      ids it may mark as terminal, and (for the argument only) how many lines the ledger had when
      that head was current. */
  datatype Retrier = Idle | Running(head: Option<string>, todo: seq<string>, done: set<string>, known: nat)

  /** `settled` holds the ids with a terminal marker in any queue. */
  datatype World = World(ledger: seq<string>, retriers: map<int, Retrier>, settled: set<string>)

  datatype Action =
    | Other(req: Request)                           // another writer appends, or is refused
    | Checkout(who: int, pending: seq<string>)      // read the ledger, plan the ids not in it
    | Emit(who: int, req: Request, told: bool)      // emit the first planned id
    | EmitLost(who: int, req: Request)              // the same, but the retrier sees an error
    | Mark(who: int, id: string)                    // append a terminal marker to the queue
    | Crash(who: int)

  predicate Emits(req: Request, r: Retrier) {
    && r.Running? && r.todo != [] && r.todo[0] != ""
    && req.eventType == DENY_RECORDED
    && Get(req.payload, DenyEventIntentId) == Str(r.todo[0])
    && req.guard == Exactly(r.head)
  }

  ghost predicate Enabled(env: Env, w: World, a: Action) {
    match a
    case Other(req) => req.eventType != DENY_RECORDED
    case Checkout(who, pending) => Replays(env, w.ledger) && Distinct(pending)
    case Emit(who, req, told) => who in w.retriers && Emits(req, w.retriers[who])
    case EmitLost(who, req) => who in w.retriers && Emits(req, w.retriers[who])
    case Mark(who, id) => who in w.retriers && w.retriers[who].Running? && id in w.retriers[who].done
    case Crash(who) => true
  }

  function Actionable(env: Env, pending: seq<string>, lines: seq<string>): seq<string> {
    if pending == [] then []
    else
      var rest := Actionable(env, pending[..|pending| - 1], lines);
      var id := pending[|pending| - 1];
      if DenyCount(env, lines, id) > 0 then rest else rest + [id]
  }

  /** The pending ids that the ledger already records. */
  function AlreadyRecorded(env: Env, pending: seq<string>, lines: seq<string>): set<string> {
    set id | id in pending && DenyCount(env, lines, id) > 0
  }

  /** The retrier after an emission was reported: it goes on from the reported head, or, when
      the report names none, from the head it had; after a refusal it stops. */
  function AfterEmit(env: Env, r: Retrier, ledger: seq<string>, req: Request, told: bool): Retrier
    requires r.Running? && r.todo != []
  {
    match Append(env, ledger, req)
    case Fail(_) => Idle
    case Ok(next) =>
      if told then Running(Run(env, next).st.lastHash, r.todo[1..], r.done + {r.todo[0]}, |next|)
      else Running(r.head, r.todo[1..], r.done + {r.todo[0]}, r.known)
  }

  function Next(env: Env, w: World, a: Action): World {
    match a
    case Other(req) => w.(ledger := Apply(env, w.ledger, req))
    case Checkout(who, pending) =>
      w.(retriers := w.retriers[who :=
        Running(Run(env, w.ledger).st.lastHash, Actionable(env, pending, w.ledger),
                AlreadyRecorded(env, pending, w.ledger), |w.ledger|)])
    case Emit(who, req, told) =>
      if who in w.retriers && Emits(req, w.retriers[who]) then
        w.(ledger := Apply(env, w.ledger, req),
           retriers := w.retriers[who := AfterEmit(env, w.retriers[who], w.ledger, req, told)])
      else w
    case EmitLost(who, req) => w.(ledger := Apply(env, w.ledger, req), retriers := w.retriers[who := Idle])
    case Mark(who, id) => w.(settled := w.settled + {id})
    case Crash(who) => w.(retriers := w.retriers[who := Idle])
  }

  function After(env: Env, w: World, actions: seq<Action>): World {
    if actions == [] then w
    else Next(env, After(env, w, actions[..|actions| - 1]), actions[|actions| - 1])
  }

  ghost predicate Possible(env: Env, w: World, actions: seq<Action>) {
    actions != [] ==>
      && Possible(env, w, actions[..|actions| - 1])
      && Enabled(env, After(env, w, actions[..|actions| - 1]), actions[|actions| - 1])
  }

  ghost predicate AtMostOnce(env: Env, lines: seq<string>) {
    forall id :: DenyCount(env, lines, id) <= 1
  }

  /** What a running retrier knows: its head was the head of an earlier version, and none of its
      remaining ids was recorded there. */
  ghost predicate Informed(env: Env, ledger: seq<string>, r: Retrier) {
    r.Running? ==>
      && r.known <= |ledger|
      && Replays(env, ledger[..r.known])
      && r.head == Run(env, ledger[..r.known]).st.lastHash
      && Distinct(r.todo)
      && forall id :: id in r.todo ==> DenyCount(env, ledger[..r.known], id) == 0
  }

  ghost predicate AllRecorded(env: Env, ledger: seq<string>, ids: set<string>) {
    forall id :: id in ids ==> DenyCount(env, ledger, id) > 0
  }

  /** What a retrier may mark as terminal is recorded. */
  ghost predicate Truthful(env: Env, ledger: seq<string>, r: Retrier) {
    r.Running? ==> AllRecorded(env, ledger, r.done)
  }

  /** The invariant of a run that began with the terminal markers `before`. */
  ghost predicate Inv(env: Env, w: World, before: set<string>) {
    && Replays(env, w.ledger)
    && AtMostOnce(env, w.ledger)
    && (forall who :: who in w.retriers ==> Informed(env, w.ledger, w.retriers[who]))
    && (forall who :: who in w.retriers ==> Truthful(env, w.ledger, w.retriers[who]))
    && AllRecorded(env, w.ledger, w.settled - before)
  }

  lemma {:induction false} CountsOnlyGrow(env: Env, ledger: seq<string>, longer: seq<string>, id: string)
    requires ledger <= longer
    ensures DenyCount(env, ledger, id) <= DenyCount(env, longer, id)
  {
    if |ledger| == |longer| {
      assert ledger == longer;
    } else {
      CountsOnlyGrow(env, ledger, longer[..|longer| - 1], id);
    }
  }

  lemma RecordedLater(env: Env, ledger: seq<string>, longer: seq<string>, ids: set<string>)
    requires AllRecorded(env, ledger, ids) && ledger <= longer
    ensures AllRecorded(env, longer, ids)
  {
    forall id | id in ids ensures DenyCount(env, longer, id) > 0 {
      CountsOnlyGrow(env, ledger, longer, id);
    }
  }

  /** An emission that succeeded has recorded the id. */
  lemma EmitterStaysTruthful(env: Env, ledger: seq<string>, r: Retrier, req: Request, told: bool)
    requires env.Valid() && Truthful(env, ledger, r) && Emits(req, r)
    ensures Truthful(env, Apply(env, ledger, req), AfterEmit(env, r, ledger, req, told))
  {
    if Append(env, ledger, req).Ok? {
      var next := Append(env, ledger, req).value;
      AppliedExtends(env, ledger, req);
      RecordedLater(env, ledger, next, r.done);
      AppendCounts(env, ledger, req, r.todo[0]);
    }
  }

  lemma InformedLater(env: Env, ledger: seq<string>, longer: seq<string>, r: Retrier)
    requires Informed(env, ledger, r) && ledger <= longer
    ensures Informed(env, longer, r)
  {
    if r.Running? {
      assert longer[..r.known] == ledger[..r.known];
    }
  }

  lemma {:induction false} ActionableIsNew(env: Env, pending: seq<string>, lines: seq<string>)
    requires Distinct(pending)
    ensures var plan := Actionable(env, pending, lines);
            && Distinct(plan)
            && forall id :: id in plan <==> id in pending && DenyCount(env, lines, id) == 0
  {
    if pending != [] {
      var shorter := pending[..|pending| - 1];
      ActionableIsNew(env, shorter, lines);
      assert pending == shorter + [pending[|pending| - 1]];
    }
  }

  /** A checkout forgets no pending id: each is either emitted or, as some accepted event already
      records it, marked at once; and it takes the head of the ledger it has read. */
  lemma CheckoutSplits(env: Env, w: World, who: nat, pending: seq<string>)
    requires Enabled(env, w, Checkout(who, pending))
    ensures var r := Next(env, w, Checkout(who, pending)).retriers[who];
            && r.Running? && r.head == Run(env, w.ledger).st.lastHash
            && forall id :: id in pending ==>
                 && (id in r.done <==> exists e :: e in Accepted(env, w.ledger) && DenyIdOf(e) == Some(id))
                 && (id in r.todo <==> id !in r.done)
  {
    ActionableIsNew(env, pending, w.ledger);
    forall id | id in pending
      ensures DenyCount(env, w.ledger, id) > 0 <==> exists e :: e in Accepted(env, w.ledger) && DenyIdOf(e) == Some(id)
    {
      RecordedIffAccepted(env, w.ledger, id);
    }
  }

  /** If an emission succeeds, the ledger has gained no event since the retrier's head was
      current, so the emitted id is not in it. */
  lemma EmissionIsFirst(env: Env, ledger: seq<string>, r: Retrier, req: Request)
    requires env.Valid() && Replays(env, ledger) && Unforged(env, ledger)
    requires Informed(env, ledger, r) && Emits(req, r) && Append(env, ledger, req).Ok?
    ensures DenyCount(env, ledger, r.todo[0]) == 0
    ensures forall id :: DenyCount(env, ledger[..r.known], id) == 0 ==> DenyCount(env, ledger, id) == 0
  {
    var seen := ledger[..r.known];
    GuardMeansUnchanged(env, seen, ledger, req);
    forall id | DenyCount(env, seen, id) == 0 ensures DenyCount(env, ledger, id) == 0 {
      RecordedIffAccepted(env, seen, id);
      RecordedIffAccepted(env, ledger, id);
    }
    assert r.todo[0] in r.todo;
  }

  lemma RenderedDenyId(env: Env, e: Object, req: Request, previous: Option<string>)
    requires env.Valid() && Carries(env, e, req, previous)
    ensures DenyId(env, env.render(Obj(e))) ==
            if req.eventType == DENY_RECORDED then NonEmptyString(Get(req.payload, DenyEventIntentId)) else None
  {
  }

  lemma AppendCounts(env: Env, ledger: seq<string>, req: Request, id: string)
    requires env.Valid() && Append(env, ledger, req).Ok?
    ensures DenyCount(env, Append(env, ledger, req).value, id) ==
            DenyCount(env, ledger, id) +
            if req.eventType == DENY_RECORDED && id != "" && Get(req.payload, DenyEventIntentId) == Str(id)
            then 1 else 0
  {
    var e := AppendedLine(env, ledger, req);
    RenderedDenyId(env, e, req, Run(env, ledger).st.lastHash);
    DenyCountSnoc(env, ledger, env.render(Obj(e)), id);
  }

  lemma OtherKeeps(env: Env, ledger: seq<string>, req: Request)
    requires env.Valid() && AtMostOnce(env, ledger) && req.eventType != DENY_RECORDED
    ensures AtMostOnce(env, Apply(env, ledger, req))
  {
    if Append(env, ledger, req).Ok? {
      forall id ensures DenyCount(env, Apply(env, ledger, req), id) <= 1 {
        AppendCounts(env, ledger, req, id);
      }
    }
  }

  lemma EmissionKeeps(env: Env, ledger: seq<string>, r: Retrier, req: Request)
    requires env.Valid() && Replays(env, ledger) && Unforged(env, ledger) && AtMostOnce(env, ledger)
    requires Informed(env, ledger, r) && Emits(req, r)
    ensures AtMostOnce(env, Apply(env, ledger, req))
  {
    if Append(env, ledger, req).Ok? {
      EmissionIsFirst(env, ledger, r, req);
      forall id ensures DenyCount(env, Apply(env, ledger, req), id) <= 1 {
        AppendCounts(env, ledger, req, id);
      }
    }
  }

  lemma EmitterStaysInformed(env: Env, ledger: seq<string>, r: Retrier, req: Request, told: bool)
    requires env.Valid() && Replays(env, ledger) && Unforged(env, ledger)
    requires Informed(env, ledger, r) && Emits(req, r)
    ensures Informed(env, Apply(env, ledger, req), AfterEmit(env, r, ledger, req, told))
  {
    if Append(env, ledger, req).Ok? {
      var next := Append(env, ledger, req).value;
      var rest := r.todo[1..];
      EmissionIsFirst(env, ledger, r, req);
      assert next[..|next|] == next && next[..r.known] == ledger[..r.known];
      forall id | id in rest
        ensures DenyCount(env, ledger[..r.known], id) == 0 && DenyCount(env, next, id) == 0
      {
        var i :| 0 <= i < |rest| && rest[i] == id;
        assert r.todo[i + 1] == id && id in r.todo && r.todo[0] != id;
        AppendCounts(env, ledger, req, id);
      }
    }
  }

  /** Every step keeps the invariant. */
  lemma StepKeepsInv(env: Env, w: World, a: Action, before: set<string>)
    requires env.Valid() && Inv(env, w, before) && Enabled(env, w, a) && Unforged(env, w.ledger)
    ensures Inv(env, Next(env, w, a), before)
  {
    var next := Next(env, w, a);
    LedgerGrows(env, w, a);
    match a {
      case Other(req) => OtherKeeps(env, w.ledger, req);
      case Checkout(who, pending) =>
        ActionableIsNew(env, pending, w.ledger);
        assert w.ledger[..|w.ledger|] == w.ledger;
      case Emit(who, req, told) =>
        EmissionKeeps(env, w.ledger, w.retriers[who], req);
        EmitterStaysInformed(env, w.ledger, w.retriers[who], req, told);
      case EmitLost(who, req) => EmissionKeeps(env, w.ledger, w.retriers[who], req);
      case Mark(who, id) =>
      case Crash(who) =>
    }
    forall who | who in next.retriers ensures Informed(env, next.ledger, next.retriers[who]) {
      if who in w.retriers {
        InformedLater(env, w.ledger, next.ledger, w.retriers[who]);
      }
    }
    StepKeepsMarkersTrue(env, w, a, before);
  }

  lemma StepKeepsMarkersTrue(env: Env, w: World, a: Action, before: set<string>)
    requires env.Valid() && Inv(env, w, before) && Enabled(env, w, a)
    ensures var next := Next(env, w, a);
            && (forall who :: who in next.retriers ==> Truthful(env, next.ledger, next.retriers[who]))
            && AllRecorded(env, next.ledger, next.settled - before)
  {
    var next := Next(env, w, a);
    LedgerGrows(env, w, a);
    RecordedLater(env, w.ledger, next.ledger, w.settled - before);
    forall who | who in next.retriers ensures Truthful(env, next.ledger, next.retriers[who]) {
      if who in w.retriers && w.retriers[who].Running? {
        RecordedLater(env, w.ledger, next.ledger, w.retriers[who].done);
        if a.Emit? && a.who == who {
          EmitterStaysTruthful(env, w.ledger, w.retriers[who], a.req, a.told);
        }
      }
    }
  }

  lemma LedgerGrows(env: Env, w: World, a: Action)
    ensures w.ledger <= Next(env, w, a).ledger
    ensures Replays(env, w.ledger) ==> Replays(env, Next(env, w, a).ledger)
  {
    match a {
      case Other(req) => AppliedExtends(env, w.ledger, req);
      case Emit(_, req, _) => AppliedExtends(env, w.ledger, req);
      case EmitLost(_, req) => AppliedExtends(env, w.ledger, req);
      case _ =>
    }
  }

  /** At most once, and never lost: in every interleaving of any number of retriers and other
      writers, with crashes and lost replies anywhere, no denial is recorded twice, and every
      denial that the run marks as settled is recorded. */
  lemma {:induction false} DenialsRecordedAtMostOnce(env: Env, w: World, actions: seq<Action>)
    requires env.Valid() && Replays(env, w.ledger) && AtMostOnce(env, w.ledger)
    requires forall who :: who in w.retriers ==> w.retriers[who].Idle?
    requires Possible(env, w, actions) && Unforged(env, After(env, w, actions).ledger)
    ensures Inv(env, After(env, w, actions), w.settled)
  {
    if actions != [] {
      var shorter, last := actions[..|actions| - 1], actions[|actions| - 1];
      var before := After(env, w, shorter);
      LedgerGrows(env, before, last);
      UnforgedPrefix(env, before.ledger, After(env, w, actions).ledger);
      DenialsRecordedAtMostOnce(env, w, shorter);
      StepKeepsInv(env, before, last, w.settled);
    }
  }

  /** So no denial is settled and lost: from queues without false markers, every id that is ever
      marked as terminal is recorded exactly once. */
  lemma SettledMeansRecorded(env: Env, w: World, actions: seq<Action>, id: string)
    requires env.Valid() && Replays(env, w.ledger) && AtMostOnce(env, w.ledger)
    requires AllRecorded(env, w.ledger, w.settled)
    requires forall who :: who in w.retriers ==> w.retriers[who].Idle?
    requires Possible(env, w, actions) && Unforged(env, After(env, w, actions).ledger)
    requires id in After(env, w, actions).settled
    ensures DenyCount(env, After(env, w, actions).ledger, id) == 1
  {
    DenialsRecordedAtMostOnce(env, w, actions);
    WorldGrows(env, w, actions);
    if id in w.settled {
      CountsOnlyGrow(env, w.ledger, After(env, w, actions).ledger, id);
    }
  }

  lemma {:induction false} WorldGrows(env: Env, w: World, actions: seq<Action>)
    ensures w.ledger <= After(env, w, actions).ledger
  {
    if actions != [] {
      var shorter := actions[..|actions| - 1];
      WorldGrows(env, w, shorter);
      LedgerGrows(env, After(env, w, shorter), actions[|actions| - 1]);
    }
  }
}
