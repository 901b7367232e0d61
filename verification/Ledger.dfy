/** What a valid ledger is, and what a reported reason means, said about the members of the
    decoded lines alone (scripts/coordination/verify-ledger-replay.py). */
module Ledger {
  import opened Json
  import opened Replay
  import opened Chain

  // ----- one event

  /** What the event hash covers. */
  function Unhashed(e: Object): Object {
    map k | k in e && k != EventHash :: e[k]
  }

  ghost predicate EnvelopeInOrder(env: Env, e: Object) {
    && Get(e, SchemaVersion) == Str("coordination-ledger-event/v1")
    && IsText(Get(e, EventUuid))
    && IsText(Get(e, EventType)) && IsText(Get(e, WriterRole))
    && Get(e, EventType).s in env.authority && Get(e, WriterRole).s in env.authority[Get(e, EventType).s]
    && Get(e, CommittedAt).Str? && env.time(Get(e, CommittedAt).s).Some?
    && (Get(e, PreviousEventHash).Null? || IsHash(Get(e, PreviousEventHash)))
  }

  ghost predicate ContentInOrder(env: Env, e: Object) {
    && Get(e, Payload).Obj? && SpellsHash(Get(e, PayloadHash), env.hash(Get(e, Payload)))
    && SpellsHash(Get(e, EventHash), env.hash(Obj(Unhashed(e))))
  }

  ghost predicate BindingAbsentOrInOrder(env: Env, e: Object)
    requires EnvelopeInOrder(env, e)
  {
    || Get(e, CommentBinding).Null?
    || (&& Get(e, CommentBinding).Obj?
        && BindingInOrder(env, Get(e, CommentBinding).fields, env.hash(Get(e, Payload)),
                          env.time(Get(e, CommittedAt).s).value))
  }

  ghost predicate EventInOrder(env: Env, e: Object) {
    EnvelopeInOrder(env, e) && ContentInOrder(env, e) && BindingAbsentOrInOrder(env, e)
  }

  lemma UnhashedIs(env: Env, e: Object)
    ensures Material(e) == Obj(Unhashed(e)) && Digest(env, e) == env.hash(Obj(Unhashed(e)))
  {
    assert e - {EventHash} == Unhashed(e);
  }

  lemma LinkMeans(e: Object)
    ensures NormalizeLink(Get(e, PreviousEventHash)).Ok? <==>
            Get(e, PreviousEventHash).Null? || IsHash(Get(e, PreviousEventHash))
    ensures NormalizeLink(Get(e, PreviousEventHash)).Ok? ==>
              && (LinkOf(e) == None <==> Get(e, PreviousEventHash).Null?)
              && forall h :: LinkOf(e) == Some(h) <==> SpellsHash(Get(e, PreviousEventHash), h)
  {
    HashMeans(Get(e, PreviousEventHash), PreviousEventHash);
  }

  lemma EnvelopeMeans(env: Env, e: Object)
    ensures HasEnvelope(env, e) <==> EnvelopeInOrder(env, e)
    ensures EnvelopeInOrder(env, e) ==> env.time(Get(e, CommittedAt).s) == Some(TimeOf(env, e))
  {
    LinkMeans(e);
  }

  lemma ContentMeans(env: Env, e: Object)
    ensures HasContent(env, e) <==> ContentInOrder(env, e)
  {
    UnhashedIs(env, e);
    HashMeans(Get(e, PayloadHash), PayloadHash);
    HashMeans(Get(e, EventHash), EventHash);
  }

  /** The verifier's notion of a well-formed event, member by member. */
  lemma WellFormedMeans(env: Env, e: Object)
    ensures WellFormed(env, e) <==> EventInOrder(env, e)
  {
    EnvelopeMeans(env, e);
    ContentMeans(env, e);
    BindingMeans(env, e, env.hash(Get(e, Payload)), TimeOf(env, e));
  }

  // ----- the whole ledger

  /** Event `i` names the hash of the event before it, the first one nothing. */
  ghost predicate LinksTo(env: Env, evs: seq<Object>, i: nat)
    requires i < |evs|
  {
    if i == 0 then Get(evs[i], PreviousEventHash).Null?
    else SpellsHash(Get(evs[i], PreviousEventHash), env.hash(Obj(Unhashed(evs[i - 1]))))
  }

  predicate NotBefore(env: Env, earlier: Object, later: Object) {
    && Get(earlier, CommittedAt).Str? && Get(later, CommittedAt).Str?
    && env.time(Get(earlier, CommittedAt).s).Some? && env.time(Get(later, CommittedAt).s).Some?
    && env.time(Get(earlier, CommittedAt).s).value <= env.time(Get(later, CommittedAt).s).value
  }

  ghost predicate ChainInOrder(env: Env, evs: seq<Object>) {
    && (forall i :: 0 <= i < |evs| ==> EventInOrder(env, evs[i]))
    && (forall i :: 0 <= i < |evs| ==> LinksTo(env, evs, i))
    && (forall i, j :: 0 <= i < j < |evs| ==> NotBefore(env, evs[i], evs[j]))
    && (forall i, j :: 0 <= i < j < |evs| ==> Get(evs[i], EventUuid) != Get(evs[j], EventUuid))
  }

  lemma EventsMean(env: Env, evs: seq<Object>)
    ensures AllWellFormed(env, evs) <==> forall i :: 0 <= i < |evs| ==> EventInOrder(env, evs[i])
  {
    forall e {
      WellFormedMeans(env, e);
    }
  }

  lemma LinksMean(env: Env, evs: seq<Object>)
    requires AllWellFormed(env, evs)
    ensures Linked(env, evs) <==> forall i :: 0 <= i < |evs| ==> LinksTo(env, evs, i)
  {
    forall i: nat | i < |evs| ensures LinksBack(env, evs, i) <==> LinksTo(env, evs, i) {
      assert WellFormed(env, evs[i]);
      LinkMeans(evs[i]);
      if i > 0 {
        UnhashedIs(env, evs[i - 1]);
      }
    }
  }

  lemma OrderMeans(env: Env, evs: seq<Object>)
    requires AllWellFormed(env, evs)
    ensures TimesOrdered(env, evs) <==> forall i, j :: 0 <= i < j < |evs| ==> NotBefore(env, evs[i], evs[j])
    ensures UuidsDistinct(evs) <==>
            forall i, j :: 0 <= i < j < |evs| ==> Get(evs[i], EventUuid) != Get(evs[j], EventUuid)
  {
    forall i | 0 <= i < |evs|
      ensures Get(evs[i], EventUuid) == Str(UuidOf(evs[i]))
      ensures Get(evs[i], CommittedAt).Str? && env.time(Get(evs[i], CommittedAt).s) == Some(TimeOf(env, evs[i]))
    {
      assert WellFormed(env, evs[i]);
    }
  }

  /** A chain is what it should be, member by member. */
  lemma ChainMeans(env: Env, evs: seq<Object>)
    ensures IsChain(env, evs) <==> ChainInOrder(env, evs)
  {
    EventsMean(env, evs);
    if AllWellFormed(env, evs) {
      LinksMean(env, evs);
      OrderMeans(env, evs);
    }
  }

  /** The line decodes to an object with a uuid. */
  predicate Decodes(env: Env, text: string) {
    env.parse(text).Some? && env.parse(text).value.Obj? && IsText(Get(env.parse(text).value.fields, EventUuid))
  }

  function Decoded(env: Env, text: string): Object
    requires Decodes(env, text)
  {
    env.parse(text).value.fields
  }

  /** Two lines with the same uuid decode to the same event. */
  predicate Consistent(env: Env, a: string, b: string) {
    (Decodes(env, a) && Decodes(env, b) && Get(Decoded(env, a), EventUuid) == Get(Decoded(env, b), EventUuid))
    ==> Decoded(env, a) == Decoded(env, b)
  }

  ghost predicate LinesInOrder(env: Env, lines: seq<string>) {
    && (forall i :: 0 <= i < |lines| && lines[i] != "" ==> Decodes(env, lines[i]))
    && (forall i, j :: 0 <= i < j < |lines| && lines[i] != "" && lines[j] != "" ==> Consistent(env, lines[i], lines[j]))
  }

  lemma DecodedMeans(env: Env, text: string)
    ensures Readable(env, text) <==> Decodes(env, text)
    ensures Decodes(env, text) ==>
              && EventOf(env, text) == Decoded(env, text)
              && Get(Decoded(env, text), EventUuid) == Str(UuidOf(EventOf(env, text)))
  {
  }

  lemma LinesMean(env: Env, lines: seq<string>)
    ensures InOrder(env, lines) <==> LinesInOrder(env, lines) && IsChain(env, Accepted(env, lines))
  {
    forall i | 0 <= i < |lines|
      ensures Readable(env, lines[i]) <==> Decodes(env, lines[i])
      ensures Decodes(env, lines[i]) ==>
                && EventOf(env, lines[i]) == Decoded(env, lines[i])
                && Get(Decoded(env, lines[i]), EventUuid) == Str(UuidOf(EventOf(env, lines[i])))
    {
      DecodedMeans(env, lines[i]);
    }
  }

  /** Exactly the ledgers that replay accepts: every non-blank line decodes, lines with the same uuid
      decode alike, and the events form a chain in order. */
  lemma ReplaysIff(env: Env, lines: seq<string>)
    ensures Replays(env, lines) <==> LinesInOrder(env, lines) && ChainInOrder(env, Accepted(env, lines))
  {
    ReplaysIffInOrder(env, lines);
    LinesMean(env, lines);
    ChainMeans(env, Accepted(env, lines));
  }

  /** Every accepted event is in order; in particular a bound comment was never edited. */
  lemma AcceptedInOrder(env: Env, lines: seq<string>, e: Object)
    requires Replays(env, lines) && e in Accepted(env, lines)
    ensures EventInOrder(env, e)
  {
    ReplayedIsChain(env, lines);
    var evs := Accepted(env, lines);
    var i :| 0 <= i < |evs| && evs[i] == e;
    assert WellFormed(env, evs[i]);
    WellFormedMeans(env, e);
  }

  // ----- what a refusal says

  /** Whatever reason is given for a binding, it is true of the binding. */
  ghost predicate BindingReasonTrue(env: Env, b: Object, payloadHash: string, committedAt: int, why: Reason) {
    match why
    case NotNonEmptyString(k) =>
      k in {Surface, Repository, AuthorLogin, AuthorType, VerificationMode} && !IsText(Get(b, k))
    case WrongSurface => Get(b, Surface) != Str("github_issue_comment")
    case RepositoryNotOwnerRepo => Get(b, Repository).Str? && '/' !in Get(b, Repository).s
    case NotPositiveInt(k) => k in {Issue, CommentId, AuthorId} && !IsCount(Get(b, k))
    case NotAHash(k) => k in {RawBodyHash, PayloadHash} && !IsHash(Get(b, k))
    case PayloadHashMismatch => IsHash(Get(b, PayloadHash)) && !SpellsHash(Get(b, PayloadHash), payloadHash)
    case NotATime(k) =>
      k in {CreatedAt, UpdatedAt} && !(Get(b, k).Str? && env.time(Get(b, k).s).Some?)
    case CommentEdited =>
      && Get(b, CreatedAt).Str? && Get(b, UpdatedAt).Str?
      && env.time(Get(b, CreatedAt).s) != env.time(Get(b, UpdatedAt).s)
    case UnknownMode => Get(b, VerificationMode) !in {Str("normal"), Str("degraded"), Str("recovery")}
    case ToleranceMismatch =>
      && Get(b, VerificationMode).Str?
      && Get(b, ToleranceMinutes) != Num(if Get(b, VerificationMode).s == "normal" then 5 else 15)
    case OutsideTolerance =>
      && Get(b, CreatedAt).Str? && env.time(Get(b, CreatedAt).s).Some? && Get(b, ToleranceMinutes).Num?
      && var created, skew := env.time(Get(b, CreatedAt).s).value, Get(b, ToleranceMinutes).n * 60_000_000;
         created < committedAt - skew || committedAt + skew < created
    case _ => false
  }

  /** Whatever reason is given for an event, it is true of the event and of the state of the replay. */
  ghost predicate EventReasonTrue(env: Env, st: State, e: Object, why: Reason) {
    match why
    case NotNonEmptyString(k) => k in {EventUuid, SchemaVersion, EventType, WriterRole} && !IsText(Get(e, k))
    case UuidReused(uuid) => Get(e, EventUuid) == Str(uuid) && uuid in st.seen && st.seen[uuid] != e
    case WrongSchema => Get(e, SchemaVersion) != Str("coordination-ledger-event/v1")
    case UnknownType => Get(e, EventType).Str? && Get(e, EventType).s !in env.authority
    case UnauthorizedWriter =>
      && Get(e, EventType).Str? && Get(e, WriterRole).Str? && Get(e, EventType).s in env.authority
      && Get(e, WriterRole).s !in env.authority[Get(e, EventType).s]
    case PayloadNotObject => !Get(e, Payload).Obj?
    case NotAHash(k) => k in {PayloadHash, PreviousEventHash, EventHash} && !IsHash(Get(e, k))
    case PayloadHashMismatch =>
      IsHash(Get(e, PayloadHash)) && !SpellsHash(Get(e, PayloadHash), env.hash(Get(e, Payload)))
    case GenesisLinkNotNull => st.valid == 0 && !Get(e, PreviousEventHash).Null?
    case LinkMismatch =>
      && st.valid != 0
      && if st.lastHash.None? then !Get(e, PreviousEventHash).Null?
         else !SpellsHash(Get(e, PreviousEventHash), st.lastHash.value)
    case NotATime(k) => k == CommittedAt && !(Get(e, k).Str? && env.time(Get(e, k).s).Some?)
    case TimeMovedBackwards =>
      && Get(e, CommittedAt).Str? && env.time(Get(e, CommittedAt).s).Some? && st.lastTime.Some?
      && env.time(Get(e, CommittedAt).s).value < st.lastTime.value
    case BindingNotObject => !Get(e, CommentBinding).Null? && !Get(e, CommentBinding).Obj?
    case InBinding(inner) =>
      && Get(e, CommentBinding).Obj? && Get(e, CommittedAt).Str? && env.time(Get(e, CommittedAt).s).Some?
      && BindingReasonTrue(env, Get(e, CommentBinding).fields, env.hash(Get(e, Payload)),
                           env.time(Get(e, CommittedAt).s).value, inner)
    case EventHashMismatch => IsHash(Get(e, EventHash)) && !SpellsHash(Get(e, EventHash), env.hash(Obj(Unhashed(e))))
    case _ => false
  }

  lemma AuthorReasonTrue(env: Env, b: Object, payloadHash: string, committedAt: int)
    ensures CheckAuthor(b).Fail? ==> BindingReasonTrue(env, b, payloadHash, committedAt, CheckAuthor(b).error)
  {
  }

  lemma HashesReasonTrue(env: Env, b: Object, payloadHash: string, committedAt: int)
    ensures CheckHashes(b, payloadHash).Fail? ==>
              BindingReasonTrue(env, b, payloadHash, committedAt, CheckHashes(b, payloadHash).error)
  {
    HashMeans(Get(b, RawBodyHash), RawBodyHash);
    HashMeans(Get(b, PayloadHash), PayloadHash);
  }

  lemma TimesReasonTrue(env: Env, b: Object, payloadHash: string, committedAt: int)
    ensures CheckTimes(env, b, committedAt).Fail? ==>
              BindingReasonTrue(env, b, payloadHash, committedAt, CheckTimes(env, b, committedAt).error)
  {
  }

  lemma BindingReason(env: Env, b: Object, payloadHash: string, committedAt: int)
    ensures CheckBinding(env, b, payloadHash, committedAt).Fail? ==>
              BindingReasonTrue(env, b, payloadHash, committedAt, CheckBinding(env, b, payloadHash, committedAt).error)
  {
    AuthorReasonTrue(env, b, payloadHash, committedAt);
    HashesReasonTrue(env, b, payloadHash, committedAt);
    TimesReasonTrue(env, b, payloadHash, committedAt);
  }

  lemma WriterReason(env: Env, st: State, e: Object)
    ensures CheckWriter(env, e).Fail? ==> EventReasonTrue(env, st, e, CheckWriter(env, e).error)
  {
  }

  lemma PayloadReason(env: Env, st: State, e: Object)
    ensures CheckPayload(env, e).Fail? ==> EventReasonTrue(env, st, e, CheckPayload(env, e).error)
  {
    HashMeans(Get(e, PayloadHash), PayloadHash);
  }

  lemma PositionReason(env: Env, st: State, e: Object)
    ensures var r := CheckPosition(env, e, st.lastHash, st.lastTime, st.valid);
            && (r.Fail? ==> EventReasonTrue(env, st, e, r.error))
            && (r.Ok? ==> Get(e, CommittedAt).Str? && env.time(Get(e, CommittedAt).s) == Some(r.value))
  {
    LinkMeans(e);
    HashMeans(Get(e, PreviousEventHash), PreviousEventHash);
  }

  lemma DigestReason(env: Env, st: State, e: Object)
    ensures CheckDigest(env, e).Fail? ==> EventReasonTrue(env, st, e, CheckDigest(env, e).error)
  {
    UnhashedIs(env, e);
    HashMeans(Get(e, EventHash), EventHash);
  }

  lemma BindingReasonOfEvent(env: Env, st: State, e: Object, committedAt: int)
    requires Get(e, CommittedAt).Str? && env.time(Get(e, CommittedAt).s) == Some(committedAt)
    ensures var r := ValidateBinding(env, e, env.hash(Get(e, Payload)), committedAt);
            r.Fail? ==> EventReasonTrue(env, st, e, r.error)
  {
    if Get(e, CommentBinding).Obj? {
      BindingReason(env, Get(e, CommentBinding).fields, env.hash(Get(e, Payload)), committedAt);
    }
  }

  lemma EventReason(env: Env, st: State, e: Object)
    ensures var r := ValidateNewEvent(env, e, st.lastHash, st.lastTime, st.valid);
            r.Fail? ==> EventReasonTrue(env, st, e, r.error)
  {
    WriterReason(env, st, e);
    PayloadReason(env, st, e);
    PositionReason(env, st, e);
    DigestReason(env, st, e);
    var position := CheckPosition(env, e, st.lastHash, st.lastTime, st.valid);
    if position.Ok? {
      BindingReasonOfEvent(env, st, e, position.value);
    }
  }

  /** The reason that replay reports for a refused ledger is true of the refused line. */
  lemma ReasonIsTrue(env: Env, st: State, text: string, why: Reason)
    requires Step(env, st, text) == Fail(why)
    ensures text != ""
    ensures if env.parse(text).None? then why == BadJson
            else if !env.parse(text).value.Obj? then why == NotAnObject
            else EventReasonTrue(env, st, env.parse(text).value.fields, why)
  {
    if env.parse(text).Some? && env.parse(text).value.Obj? {
      var e := env.parse(text).value.fields;
      if RequireString(e, EventUuid).Ok? {
        EventReason(env, st, e);
      }
    }
  }
}
