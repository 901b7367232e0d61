/** The compare-and-swap appender (scripts/coordination/append-ledger-event.py).

    The file lock makes each call one step, so any interleaving of any number of writers is a
    sequence of requests served one after another.  A missing ledger file is the empty ledger. */
module Appender {
  import opened Json
  import opened Replay
  import opened Chain

  datatype Guard = Unguarded | Exactly(head: Option<string>)

  /** The arguments of one call, after the uuid and the time have received their defaults. */
  datatype Request = Request(
    guard: Guard,
    uuid: string,
    eventType: string,
    role: string,
    committedAt: string,
    payload: Object,
    metadata: Option<Object>,
    binding: Option<Object>,
    keyId: string,
    signature: Option<Value>)

  datatype Refusal =
    | ExistingInvalid(line: nat, reason: Reason)
    | CasMismatch(expected: Option<string>, actual: Option<string>)
    | BadCommittedAt
    | CandidateInvalid(line: nat, reason: Reason)

  function Member(k: Key, v: Option<Value>): Object {
    if v.Some? then map[k := v.value] else map[]
  }

  function AsValue(o: Option<Object>): Option<Value> {
    if o.Some? then Some(Obj(o.value)) else None
  }

  /** The members an event has only when the call asks for them. */
  function Extras(req: Request): Object {
    Member(Metadata, AsValue(req.metadata)) +
    Member(CommentBinding, AsValue(req.binding)) +
    Member(KeyId, if req.keyId == "" then None else Some(Str(req.keyId))) +
    Member(Signature, req.signature)
  }

  /** The members every event has. */
  function Envelope(env: Env, req: Request, previous: Option<string>): Object {
    map[
      SchemaVersion := Str(SCHEMA),
      EventUuid := Str(req.uuid),
      EventType := Str(req.eventType),
      WriterRole := Str(req.role),
      CommittedAt := Str(req.committedAt),
      PreviousEventHash := if previous.None? then Null else Str(Label(previous.value)),
      Payload := Obj(req.payload),
      PayloadHash := Str(Label(env.hash(Obj(req.payload))))]
  }

  /** The event before its own hash is added. */
  function Draft(env: Env, req: Request, previous: Option<string>): Object {
    Extras(req) + Envelope(env, req, previous)
  }

  /** `build_event` */
  function Build(env: Env, req: Request, previous: Option<string>): Object {
    var e := Draft(env, req, previous);
    e[EventHash := Str(Label(env.hash(Obj(e))))]
  }

  /** The locked section of `main`: replay, compare, build, replay the candidate. */
  function Append(env: Env, lines: seq<string>, req: Request): Result<seq<string>, Refusal> {
    var before := Run(env, lines);
    if before.Stopped? then Fail(ExistingInvalid(before.line, before.reason))
    else if req.guard.Exactly? && req.guard.head != before.st.lastHash then
      Fail(CasMismatch(req.guard.head, before.st.lastHash))
    else if env.time(req.committedAt).None? then Fail(BadCommittedAt)
    else
      var candidate := lines + [env.render(Obj(Build(env, req, before.st.lastHash)))];
      var after := Run(env, candidate);
      if after.Stopped? then Fail(CandidateInvalid(after.line, after.reason)) else Ok(candidate)
  }

  datatype Report = Report(eventHash: string, validEvents: nat, validPrefixHash: Option<string>)

  /** The ledger file. */
  class LedgerFile {
    var lines: seq<string>

    /** One call of the script: the file gains exactly the line that `Append` computes, or is
        left as it was. */
    method AppendEvent(env: Env, req: Request) returns (r: Result<Report, Refusal>)
      modifies this
      ensures Append(env, old(lines), req).Fail? ==>
                lines == old(lines) && r == Fail(Append(env, old(lines), req).error)
      ensures Append(env, old(lines), req).Ok? ==>
                && lines == Append(env, old(lines), req).value
                && Replays(env, lines)
                && r.Ok?
                && r.value.eventHash == Label(env.hash(Obj(Draft(env, req, Run(env, old(lines)).st.lastHash))))
                && r.value.validEvents == Run(env, lines).st.valid
                && r.value.validPrefixHash == Run(env, lines).st.lastHash
    {
      var before := ReplayLedger(env, lines);
      if !before.valid {
        return Fail(ExistingInvalid(before.invalidLine.value, before.reason.value));
      }
      var current := before.validPrefixHash;
      if req.guard.Exactly? && req.guard.head != current {
        return Fail(CasMismatch(req.guard.head, current));
      }
      if env.time(req.committedAt).None? {
        return Fail(BadCommittedAt);
      }
      var event := Build(env, req, current);
      var line := env.render(Obj(event));
      var candidate := ReplayLedger(env, lines + [line]);
      if !candidate.valid {
        return Fail(CandidateInvalid(candidate.invalidLine.value, candidate.reason.value));
      }
      lines := lines + [line];
      var after := ReplayLedger(env, lines);
      return Ok(Report(Label(env.hash(Obj(Draft(env, req, current)))), after.validEvents, after.validPrefixHash));
    }
  }

  // ----- the event that is built

  /** What the verifier will read from an event built for a request. */
  predicate Carries(env: Env, e: Object, req: Request, previous: Option<string>) {
    && Get(e, SchemaVersion) == Str(SCHEMA)
    && Get(e, EventUuid) == Str(req.uuid)
    && Get(e, EventType) == Str(req.eventType)
    && Get(e, WriterRole) == Str(req.role)
    && Get(e, CommittedAt) == Str(req.committedAt)
    && Get(e, Payload) == Obj(req.payload)
    && Get(e, CommentBinding) == (if req.binding.None? then Null else Obj(req.binding.value))
    && Get(e, PayloadHash) == Str(Label(env.hash(Obj(req.payload))))
    && Get(e, PreviousEventHash) == (if previous.None? then Null else Str(Label(previous.value)))
  }

  lemma BuiltMembers(env: Env, req: Request, previous: Option<string>)
    ensures Carries(env, Build(env, req, previous), req, previous)
  {
    var draft := Draft(env, req, previous);
    ExtraBinding(req);
    EnvelopeMembers(env, req, previous);
    CarriesOverlay(env, Extras(req), Envelope(env, req, previous), Str(Label(env.hash(Obj(draft)))), req, previous);
  }

  lemma EnvelopeMembers(env: Env, req: Request, previous: Option<string>)
    ensures var e := Envelope(env, req, previous);
            && e.Keys == {SchemaVersion, EventUuid, EventType, WriterRole, CommittedAt, PreviousEventHash,
                          Payload, PayloadHash}
            && Carries(env, e, req.(binding := None), previous)
  {
  }

  lemma CarriesOverlay(env: Env, extras: Object, always: Object, h: Value, req: Request, previous: Option<string>)
    requires always.Keys == {SchemaVersion, EventUuid, EventType, WriterRole, CommittedAt, PreviousEventHash,
                             Payload, PayloadHash}
    requires Carries(env, always, req.(binding := None), previous)
    requires Get(extras, CommentBinding) == if req.binding.None? then Null else Obj(req.binding.value)
    ensures Carries(env, (extras + always)[EventHash := h], req, previous)
  {
    var e := (extras + always)[EventHash := h];
    assert forall k :: k in always.Keys ==> Get(e, k) == Get(always, k);
    assert Get(e, CommentBinding) == Get(extras, CommentBinding);
  }

  /** The members an event has only when the call asked for them. */
  predicate CarriesOptional(e: Object, req: Request) {
    && Get(e, Metadata) == (if req.metadata.None? then Null else Obj(req.metadata.value))
    && Get(e, CommentBinding) == (if req.binding.None? then Null else Obj(req.binding.value))
    && Get(e, KeyId) == (if req.keyId == "" then Null else Str(req.keyId))
    && Get(e, Signature) == (if req.signature.None? then Null else req.signature.value)
    && (Metadata in e <==> req.metadata.Some?) && (CommentBinding in e <==> req.binding.Some?)
    && (KeyId in e <==> req.keyId != "") && (Signature in e <==> req.signature.Some?)
  }

  const ALWAYS: set<Key> := {
    SchemaVersion, EventUuid, EventType, WriterRole, CommittedAt, PreviousEventHash, Payload, PayloadHash, EventHash}

  const OPTIONAL: set<Key> := {Metadata, CommentBinding, KeyId, Signature}

  lemma ExtraMetadata(req: Request)
    ensures Get(Extras(req), Metadata) == if req.metadata.None? then Null else Obj(req.metadata.value)
    ensures Metadata in Extras(req) <==> req.metadata.Some?
  {
  }

  lemma ExtraBinding(req: Request)
    ensures Get(Extras(req), CommentBinding) == if req.binding.None? then Null else Obj(req.binding.value)
    ensures CommentBinding in Extras(req) <==> req.binding.Some?
  {
  }

  lemma ExtraKeyId(req: Request)
    ensures Get(Extras(req), KeyId) == if req.keyId == "" then Null else Str(req.keyId)
    ensures KeyId in Extras(req) <==> req.keyId != ""
  {
  }

  lemma ExtraSignature(req: Request)
    ensures Get(Extras(req), Signature) == if req.signature.None? then Null else req.signature.value
    ensures Signature in Extras(req) <==> req.signature.Some?
  {
  }

  lemma ExtraKeys(req: Request)
    ensures Extras(req).Keys <= OPTIONAL
  {
  }

  lemma OverlayKeeps(env: Env, req: Request, previous: Option<string>, k: Key)
    requires k !in ALWAYS
    ensures k in Build(env, req, previous) <==> k in Extras(req)
    ensures Get(Build(env, req, previous), k) == Get(Extras(req), k)
  {
    EnvelopeMembers(env, req, previous);
  }

  /** The built event has the optional members that were asked for, as they were given, and no
      member that was not. */
  lemma BuiltOptional(env: Env, req: Request, previous: Option<string>)
    ensures CarriesOptional(Build(env, req, previous), req)
    ensures Build(env, req, previous).Keys <= ALWAYS + OPTIONAL
  {
    var e := Build(env, req, previous);
    ExtrasAsAsked(req);
    forall k | k !in ALWAYS ensures (k in e <==> k in Extras(req)) && Get(e, k) == Get(Extras(req), k) {
      OverlayKeeps(env, req, previous, k);
    }
    OptionalFrom(Extras(req), e, req);
    ExtraKeys(req);
  }

  lemma ExtrasAsAsked(req: Request)
    ensures CarriesOptional(Extras(req), req)
  {
    ExtraMetadata(req);
    ExtraBinding(req);
    ExtraKeyId(req);
    ExtraSignature(req);
  }

  lemma OptionalFrom(extras: Object, e: Object, req: Request)
    requires CarriesOptional(extras, req)
    requires forall k :: k !in ALWAYS ==> (k in e <==> k in extras) && Get(e, k) == Get(extras, k)
    ensures CarriesOptional(e, req)
  {
    assert forall k :: k in OPTIONAL ==> k !in ALWAYS;
    assert Metadata in OPTIONAL && CommentBinding in OPTIONAL && KeyId in OPTIONAL && Signature in OPTIONAL;
  }

  /** The hashes of the built event, spelled out. */
  lemma BuiltHashes(env: Env, req: Request, previous: Option<string>)
    requires env.Valid()
    ensures var e := Build(env, req, previous);
            && Get(e, SchemaVersion) == Str("coordination-ledger-event/v1")
            && Get(e, PayloadHash) == Str("sha256:" + env.hash(Obj(req.payload)))
            && Get(e, PreviousEventHash) == (if previous.None? then Null else Str("sha256:" + previous.value))
            && Get(e, EventHash) == Str("sha256:" + env.hash(Obj(map k | k in e && k != EventHash :: e[k])))
  {
    BuiltMembers(env, req, previous);
    DraftHasNoHash(env, req, previous);
    var d := Draft(env, req, previous);
    WithoutHash(d, Str(Label(env.hash(Obj(d)))));
  }

  lemma WithoutHash(d: Object, h: Value)
    requires EventHash !in d
    ensures var e := d[EventHash := h]; (map k | k in e && k != EventHash :: e[k]) == d
  {
    var e := d[EventHash := h];
    assert e - {EventHash} == d;
    RemovedIs(e);
  }

  lemma RemovedIs(e: Object)
    ensures (map k | k in e && k != EventHash :: e[k]) == e - {EventHash}
  {
  }

  lemma BuiltDigest(env: Env, req: Request, previous: Option<string>)
    requires env.Valid()
    ensures var e := Build(env, req, previous);
            && Digest(env, e) == env.hash(Obj(Draft(env, req, previous)))
            && NormalizeHash(Get(e, EventHash), EventHash) == Ok(Digest(env, e))
  {
    var d := Draft(env, req, previous);
    DraftHasNoHash(env, req, previous);
    HashedLast(d, Str(Label(env.hash(Obj(d)))));
    LabelledDigits(env.hash(Obj(d)));
  }

  lemma DraftHasNoHash(env: Env, req: Request, previous: Option<string>)
    ensures EventHash !in Draft(env, req, previous)
  {
    assert EventHash !in Extras(req);
    assert EventHash !in Envelope(env, req, previous);
  }

  lemma HashedLast(d: Object, h: Value)
    requires EventHash !in d
    ensures d[EventHash := h] - {EventHash} == d
  {
  }

  /** What a request must bring for its event to be well-formed. */
  predicate Authorised(env: Env, req: Request) {
    && req.uuid != "" && req.eventType != "" && req.role != ""
    && req.eventType in env.authority
    && req.role in env.authority[req.eventType]
  }

  predicate BindingAccepted(env: Env, req: Request) {
    && env.time(req.committedAt).Some?
    && (req.binding.Some? ==>
          CheckBinding(env, req.binding.value, env.hash(Obj(req.payload)), env.time(req.committedAt).value).Ok?)
  }

  lemma BuiltWellFormed(env: Env, req: Request, previous: Option<string>)
    requires env.Valid() && (previous.Some? ==> IsHex64(previous.value))
    ensures WellFormed(env, Build(env, req, previous)) <==> Authorised(env, req) && BindingAccepted(env, req)
    ensures LinkOf(Build(env, req, previous)) == previous
    ensures UuidOf(Build(env, req, previous)) == req.uuid
    ensures env.time(req.committedAt).Some? ==>
              TimeOf(env, Build(env, req, previous)) == env.time(req.committedAt).value
  {
    BuiltMembers(env, req, previous);
    BuiltDigest(env, req, previous);
    CarriedWellFormed(env, Build(env, req, previous), req, previous);
  }

  lemma CarriedWellFormed(env: Env, e: Object, req: Request, previous: Option<string>)
    requires env.Valid() && (previous.Some? ==> IsHex64(previous.value))
    requires Carries(env, e, req, previous)
    requires NormalizeHash(Get(e, EventHash), EventHash) == Ok(Digest(env, e))
    ensures WellFormed(env, e) <==> Authorised(env, req) && BindingAccepted(env, req)
    ensures LinkOf(e) == previous && UuidOf(e) == req.uuid
    ensures env.time(req.committedAt).Some? ==> TimeOf(env, e) == env.time(req.committedAt).value
  {
    LabelledDigits(env.hash(Obj(req.payload)));
    if previous.Some? {
      LabelledDigits(previous.value);
    }
  }

  lemma HeadIsHex(env: Env, lines: seq<string>)
    requires env.Valid() && Replays(env, lines)
    ensures Run(env, lines).st.lastHash.Some? ==> IsHex64(Run(env, lines).st.lastHash.value)
  {
    ReplayedIsChain(env, lines);
  }

  ghost predicate Unforged(env: Env, lines: seq<string>) {
    NoCollision(env, Materials(Accepted(env, lines)))
  }

  /** The event built on the current head is never one the ledger already holds: an event
      already there links to a head of its own past, and heads do not come back. */
  lemma BuiltIsNew(env: Env, lines: seq<string>, req: Request)
    requires env.Valid() && Replays(env, lines) && Unforged(env, lines)
    ensures Build(env, req, Run(env, lines).st.lastHash) !in Accepted(env, lines)
  {
    var head := Run(env, lines).st.lastHash;
    ReplayedHeads(env, lines);
    HeadIsHex(env, lines);
    BuiltWellFormed(env, req, head);
    LinkedToHeadIsNew(env, Accepted(env, lines), Build(env, req, head));
  }

  lemma CandidateOutcome(env: Env, lines: seq<string>, req: Request)
    requires env.Valid() && Replays(env, lines)
    ensures var st := Run(env, lines).st;
            var e := Build(env, req, st.lastHash);
            var text := env.render(Obj(e));
            && Run(env, lines + [text]) == Advance(env, Done(st), |lines| + 1, text)
            && ReadEvent(env, text) == Ok(e)
            && text != ""
  {
    RunSnoc(env, lines, env.render(Obj(Build(env, req, Run(env, lines).st.lastHash))));
  }

  /** Every successful append adds exactly one new event, never a silent duplicate, and makes
      its own hash the head. */
  lemma AppendAddsOne(env: Env, lines: seq<string>, req: Request)
    requires env.Valid() && Unforged(env, lines) && Append(env, lines, req).Ok?
    ensures var next := Append(env, lines, req).value;
            var e := Build(env, req, Run(env, lines).st.lastHash);
            && Replays(env, lines) && Replays(env, next)
            && next == lines + [env.render(Obj(e))]
            && Accepted(env, next) == Accepted(env, lines) + [e]
            && Run(env, next).st.valid == Run(env, lines).st.valid + 1
            && Run(env, next).st.dup == Run(env, lines).st.dup
            && Run(env, next).st.lastHash == Some(Digest(env, e))
  {
    var st := Run(env, lines).st;
    var e := Build(env, req, st.lastHash);
    var text := env.render(Obj(e));
    CandidateOutcome(env, lines, req);
    BuiltIsNew(env, lines, req);
    ReplayedIsChain(env, lines);
    ReplayedIsChain(env, lines + [text]);
    AcceptedSnoc(env, lines, text);
    FreshStep(env, st, Accepted(env, lines), text);
  }

  lemma FreshStep(env: Env, st: State, evs: seq<Object>, text: string)
    requires Summarizes(env, st, evs) && text != "" && Readable(env, text) && EventOf(env, text) !in evs
    requires Step(env, st, text).Ok?
    ensures !HasUuid(evs, UuidOf(EventOf(env, text)))
    ensures var st' := Step(env, st, text).value;
            st'.valid == st.valid + 1 && st'.dup == st.dup && st'.lastHash == Some(Digest(env, EventOf(env, text)))
  {
    ValidateExtendsChain(env, evs, st, EventOf(env, text));
  }

  /** Exactly when an append succeeds.  In particular the producer and the verifier agree: an
      authorised request with a fresh uuid, a time not before the last one and an acceptable
      comment binding is never refused. */
  lemma AppendSucceedsIff(env: Env, lines: seq<string>, req: Request)
    requires env.Valid() && Replays(env, lines) && Unforged(env, lines)
    ensures Append(env, lines, req).Ok? <==>
            && (req.guard.Exactly? ==> req.guard.head == Run(env, lines).st.lastHash)
            && Authorised(env, req)
            && BindingAccepted(env, req)
            && req.uuid !in Run(env, lines).st.seen
            && (Run(env, lines).st.lastTime.Some? ==>
                  Run(env, lines).st.lastTime.value <= env.time(req.committedAt).value)
  {
    AppendOkIff(env, lines, req);
    ReplayedSummary(env, lines);
    HeadIsHex(env, lines);
    BuiltIsNew(env, lines, req);
    BuiltStepIff(env, Run(env, lines).st, Accepted(env, lines), req);
  }

  /** Which refusal a call gets: an invalid ledger is refused for its first refused line; otherwise a
      guard that does not name the head is refused with both hashes; otherwise an unreadable time;
      and otherwise the built event, which would be the next line, for the verifier's reason. */
  lemma RefusalMeans(env: Env, lines: seq<string>, req: Request)
    requires env.Valid()
    ensures var before := Run(env, lines);
            var line := env.render(Obj(Build(env, req, before.st.lastHash)));
            match Append(env, lines, req)
            case Fail(ExistingInvalid(n, why)) => before == Stopped(before.st, n, why)
            case Fail(CasMismatch(expected, actual)) =>
              before.Done? && req.guard == Exactly(expected) && actual == before.st.lastHash && expected != actual
            case Fail(BadCommittedAt) =>
              before.Done? && (req.guard.Exactly? ==> req.guard.head == before.st.lastHash)
              && env.time(req.committedAt).None?
            case Fail(CandidateInvalid(n, why)) =>
              before.Done? && (req.guard.Exactly? ==> req.guard.head == before.st.lastHash)
              && n == |lines| + 1 && Step(env, before.st, line) == Fail(why)
            case Ok(_) => before.Done? && (req.guard.Exactly? ==> req.guard.head == before.st.lastHash)
  {
    if Replays(env, lines) {
      CandidateOutcome(env, lines, req);
    }
  }

  lemma AppendOkIff(env: Env, lines: seq<string>, req: Request)
    requires env.Valid() && Replays(env, lines)
    ensures Append(env, lines, req).Ok? <==>
            && (req.guard.Exactly? ==> req.guard.head == Run(env, lines).st.lastHash)
            && env.time(req.committedAt).Some?
            && Step(env, Run(env, lines).st, env.render(Obj(Build(env, req, Run(env, lines).st.lastHash)))).Ok?
  {
    CandidateOutcome(env, lines, req);
  }

  /** Replay accepts the built event exactly when the request is in order. */
  lemma BuiltStepIff(env: Env, st: State, evs: seq<Object>, req: Request)
    requires env.Valid() && Summarizes(env, st, evs)
    requires st.lastHash.Some? ==> IsHex64(st.lastHash.value)
    requires Build(env, req, st.lastHash) !in evs
    ensures Step(env, st, env.render(Obj(Build(env, req, st.lastHash)))).Ok? <==>
            && Authorised(env, req)
            && BindingAccepted(env, req)
            && req.uuid !in st.seen
            && (st.lastTime.Some? ==> st.lastTime.value <= env.time(req.committedAt).value)
  {
    var e := Build(env, req, st.lastHash);
    BuiltMembers(env, req, st.lastHash);
    BuiltWellFormed(env, req, st.lastHash);
    StepOkIff(env, st, env.render(Obj(e)), e);
    NewStepIff(env, st, evs, e);
  }

  /** Replay accepts a line exactly when its event repeats the one it knows or extends the chain. */
  lemma StepOkIff(env: Env, st: State, text: string, e: Object)
    requires text != "" && ReadEvent(env, text) == Ok(e)
    ensures Step(env, st, text).Ok? <==>
            && RequireString(e, EventUuid).Ok?
            && if UuidOf(e) in st.seen then st.seen[UuidOf(e)] == e
               else ValidateNewEvent(env, e, st.lastHash, st.lastTime, st.valid).Ok?
  {
  }

  lemma NewStepIff(env: Env, st: State, evs: seq<Object>, e: Object)
    requires Summarizes(env, st, evs) && e !in evs && LinkOf(e) == st.lastHash
    ensures (&& RequireString(e, EventUuid).Ok?
             && if UuidOf(e) in st.seen then st.seen[UuidOf(e)] == e
                else ValidateNewEvent(env, e, st.lastHash, st.lastTime, st.valid).Ok?) <==>
            && WellFormed(env, e) && UuidOf(e) !in st.seen
            && (st.lastTime.Some? ==> st.lastTime.value <= TimeOf(env, e))
  {
    if RequireString(e, EventUuid).Ok? {
      KnownUuidRefused(st, evs, env, e);
      ValidateExtendsChain(env, evs, st, e);
    }
  }

  lemma KnownUuidRefused(st: State, evs: seq<Object>, env: Env, e: Object)
    requires Summarizes(env, st, evs) && e !in evs
    ensures UuidOf(e) in st.seen ==> st.seen[UuidOf(e)] != e
  {
    if UuidOf(e) in st.seen {
      var k :| 0 <= k < |evs| && UuidOf(evs[k]) == UuidOf(e);
      assert evs[k] in evs;
    }
  }

  // ----- runs of any number of writers

  function Apply(env: Env, lines: seq<string>, req: Request): seq<string> {
    if Append(env, lines, req).Ok? then Append(env, lines, req).value else lines
  }

  /** The ledger after the requests have been served in order; refused ones change nothing. */
  function Serve(env: Env, lines: seq<string>, reqs: seq<Request>): seq<string> {
    if reqs == [] then lines
    else Apply(env, Serve(env, lines, reqs[..|reqs| - 1]), reqs[|reqs| - 1])
  }

  function Successes(env: Env, lines: seq<string>, reqs: seq<Request>): nat {
    if reqs == [] then 0
    else
      Successes(env, lines, reqs[..|reqs| - 1]) +
      if Append(env, Serve(env, lines, reqs[..|reqs| - 1]), reqs[|reqs| - 1]).Ok? then 1 else 0
  }

  /** A successful append adds the line of an event that carries what the request asked for. */
  lemma AppendedLine(env: Env, lines: seq<string>, req: Request) returns (e: Object)
    requires Append(env, lines, req).Ok?
    ensures Append(env, lines, req).value == lines + [env.render(Obj(e))]
    ensures Carries(env, e, req, Run(env, lines).st.lastHash) && CarriesOptional(e, req)
    ensures e.Keys <= ALWAYS + OPTIONAL
  {
    AppendedBuilt(env, lines, req);
    e := Build(env, req, Run(env, lines).st.lastHash);
    BuiltMembers(env, req, Run(env, lines).st.lastHash);
    BuiltOptional(env, req, Run(env, lines).st.lastHash);
  }

  lemma AppendedBuilt(env: Env, lines: seq<string>, req: Request)
    requires Append(env, lines, req).Ok?
    ensures Append(env, lines, req).value == lines + [env.render(Obj(Build(env, req, Run(env, lines).st.lastHash)))]
  {
  }

  lemma AppliedExtends(env: Env, lines: seq<string>, req: Request)
    ensures lines <= Apply(env, lines, req)
    ensures Replays(env, lines) ==> Replays(env, Apply(env, lines, req))
  {
  }

  lemma {:induction false} ServeGrows(env: Env, lines: seq<string>, reqs: seq<Request>, i: nat)
    requires i <= |reqs|
    ensures Serve(env, lines, reqs[..i]) <= Serve(env, lines, reqs)
    ensures Replays(env, lines) ==> Replays(env, Serve(env, lines, reqs))
  {
    if i < |reqs| {
      var shorter := reqs[..|reqs| - 1];
      ServeGrows(env, lines, shorter, i);
      assert shorter[..i] == reqs[..i];
      AppliedExtends(env, Serve(env, lines, shorter), reqs[|reqs| - 1]);
    } else if reqs != [] {
      var shorter := reqs[..|reqs| - 1];
      ServeGrows(env, lines, shorter, |shorter|);
      AppliedExtends(env, Serve(env, lines, shorter), reqs[|reqs| - 1]);
      assert reqs[..i] == reqs;
    } else {
      assert reqs[..i] == reqs;
    }
  }

  lemma UnforgedPrefix(env: Env, shorter: seq<string>, longer: seq<string>)
    requires shorter <= longer && Unforged(env, longer)
    ensures Unforged(env, shorter)
    ensures Accepted(env, shorter) <= Accepted(env, longer)
  {
    AcceptedMonotone(env, shorter, longer[|shorter|..]);
    assert shorter + longer[|shorter|..] == longer;
    var a, b := Accepted(env, shorter), Accepted(env, longer);
    forall v | v in Materials(a) ensures v in Materials(b) {
      var i :| 0 <= i < |a| && v == Material(a[i]);
      assert a[i] == b[i];
    }
  }

  /** A ledger that gained events has a different head from every earlier version. */
  lemma GrowthChangesHead(env: Env, shorter: seq<string>, longer: seq<string>)
    requires Replays(env, shorter) && Replays(env, longer) && shorter <= longer && Unforged(env, longer)
    requires |Accepted(env, shorter)| < |Accepted(env, longer)|
    ensures Run(env, shorter).st.lastHash != Run(env, longer).st.lastHash
  {
    UnforgedPrefix(env, shorter, longer);
    ReplayedHeads(env, shorter);
    ReplayedHeads(env, longer);
    var a, b := Accepted(env, shorter), Accepted(env, longer);
    HeadsDistinct(env, b, |a|, |b|);
    assert b[..|a|] == a && b[..|b|] == b;
  }

  /** What the guard buys: if an append guarded by the head of an earlier version succeeds, no
      event has been added since that version. */
  lemma GuardMeansUnchanged(env: Env, seen: seq<string>, ledger: seq<string>, req: Request)
    requires Replays(env, seen) && Replays(env, ledger) && seen <= ledger && Unforged(env, ledger)
    requires req.guard == Exactly(Run(env, seen).st.lastHash) && Append(env, ledger, req).Ok?
    ensures Accepted(env, seen) == Accepted(env, ledger)
  {
    UnforgedPrefix(env, seen, ledger);
    if |Accepted(env, seen)| < |Accepted(env, ledger)| {
      GrowthChangesHead(env, seen, ledger);
      assert false;
    }
  }

  lemma SuccessGrows(env: Env, lines: seq<string>, reqs: seq<Request>, i: nat, j: nat)
    requires env.Valid() && Replays(env, lines) && Unforged(env, Serve(env, lines, reqs))
    requires i < j <= |reqs| && Append(env, Serve(env, lines, reqs[..i]), reqs[i]).Ok?
    ensures Serve(env, lines, reqs[..i]) <= Serve(env, lines, reqs[..j]) <= Serve(env, lines, reqs)
    ensures |Accepted(env, Serve(env, lines, reqs[..i]))| < |Accepted(env, Serve(env, lines, reqs[..j]))|
  {
    assert reqs[..i + 1][..i] == reqs[..i] && reqs[..j][..i + 1] == reqs[..i + 1];
    ServeGrows(env, lines, reqs, j);
    ServeGrows(env, lines, reqs[..j], i + 1);
    UnforgedPrefix(env, Serve(env, lines, reqs[..j]), Serve(env, lines, reqs));
    UnforgedPrefix(env, Serve(env, lines, reqs[..i + 1]), Serve(env, lines, reqs[..j]));
    AppendGrows(env, Serve(env, lines, reqs[..i]), reqs[i]);
  }

  lemma AppendGrows(env: Env, lines: seq<string>, req: Request)
    requires env.Valid() && Append(env, lines, req).Ok? && Unforged(env, Apply(env, lines, req))
    ensures lines <= Apply(env, lines, req)
    ensures |Accepted(env, lines)| < |Accepted(env, Apply(env, lines, req))|
  {
    AppliedExtends(env, lines, req);
    UnforgedPrefix(env, lines, Apply(env, lines, req));
    AppendAddsOne(env, lines, req);
  }

  /** No ABA: in any interleaving, once a request has succeeded on some head, that head never
      is the head again. */
  lemma HeadNeverReturns(env: Env, lines: seq<string>, reqs: seq<Request>, i: nat, j: nat)
    requires env.Valid() && Replays(env, lines) && Unforged(env, Serve(env, lines, reqs))
    requires i < j <= |reqs| && Append(env, Serve(env, lines, reqs[..i]), reqs[i]).Ok?
    ensures Run(env, Serve(env, lines, reqs[..i])).st.lastHash != Run(env, Serve(env, lines, reqs[..j])).st.lastHash
  {
    SuccessGrows(env, lines, reqs, i, j);
    ServeGrows(env, lines, reqs[..i], 0);
    ServeGrows(env, lines, reqs[..j], 0);
    UnforgedPrefix(env, Serve(env, lines, reqs[..j]), Serve(env, lines, reqs));
    GrowthChangesHead(env, Serve(env, lines, reqs[..i]), Serve(env, lines, reqs[..j]));
  }

  /** At most one request ever succeeds for a given expected previous hash. */
  lemma CasWinsOnce(env: Env, lines: seq<string>, reqs: seq<Request>, i: nat, j: nat)
    requires env.Valid() && Replays(env, lines) && Unforged(env, Serve(env, lines, reqs))
    requires i < j < |reqs|
    requires Append(env, Serve(env, lines, reqs[..i]), reqs[i]).Ok? && reqs[i].guard.Exactly?
    requires Append(env, Serve(env, lines, reqs[..j]), reqs[j]).Ok? && reqs[j].guard.Exactly?
    ensures reqs[i].guard != reqs[j].guard
  {
    HeadNeverReturns(env, lines, reqs, i, j);
  }

  /** The event count of a ledger grows by one for each success and otherwise not at all, and
      no duplicate line is ever added. */
  lemma {:induction false} EventsCountSuccesses(env: Env, lines: seq<string>, reqs: seq<Request>)
    requires env.Valid() && Replays(env, lines) && Unforged(env, Serve(env, lines, reqs))
    ensures Run(env, Serve(env, lines, reqs)).st.valid == Run(env, lines).st.valid + Successes(env, lines, reqs)
    ensures Run(env, Serve(env, lines, reqs)).st.dup == Run(env, lines).st.dup
  {
    if reqs != [] {
      var shorter, last := reqs[..|reqs| - 1], reqs[|reqs| - 1];
      var now := Serve(env, lines, shorter);
      AppliedExtends(env, now, last);
      UnforgedPrefix(env, now, Serve(env, lines, reqs));
      EventsCountSuccesses(env, lines, shorter);
      ApplyCounts(env, now, last);
    }
  }

  lemma ApplyCounts(env: Env, lines: seq<string>, req: Request)
    requires env.Valid() && Unforged(env, lines)
    ensures var next := Run(env, Apply(env, lines, req)).st;
            var before := Run(env, lines).st;
            && next.valid == before.valid + (if Append(env, lines, req).Ok? then 1 else 0)
            && next.dup == before.dup
  {
    if Append(env, lines, req).Ok? {
      AppendAddsOne(env, lines, req);
    }
  }
}
