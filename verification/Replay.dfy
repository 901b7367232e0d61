/** The replay verifier (scripts/coordination/verify-ledger-replay.py).

    A ledger is the sequence of its stripped lines.  JSON decoding and encoding, the
    SHA-256 of the canonical encoding, the reading of timestamps and of decimal text, and the
    authority fixture are the parameters of `Env`.  Times are microseconds. */
module Replay {
  import opened Json
  import opened Text

  const SCHEMA := "coordination-ledger-event/v1"
  const SHA_PREFIX := "sha256:"

  datatype Env = Env(
    parse: string -> Option<Value>,
    render: Value -> string,
    hash: Value -> string,
    time: string -> Option<int>,
    number: string -> Option<int>,
    authority: map<string, set<string>>)
  {
    /** What the scripts rely on: encoding is never blank and decodes to the same value,
        and a hash is 64 lowercase hexadecimal digits. */
    ghost predicate Valid() {
      && (forall v :: render(v) != "" && parse(render(v)) == Some(v))
      && (forall v :: IsHex64(hash(v)))
    }
  }

  datatype Reason =
    | BadJson
    | NotAnObject
    | NotNonEmptyString(key: Key)
    | NotPositiveInt(key: Key)
    | NotAHash(key: Key)
    | NotATime(key: Key)
    | UuidReused(uuid: string)
    | WrongSchema
    | UnknownType
    | UnauthorizedWriter
    | PayloadNotObject
    | PayloadHashMismatch
    | GenesisLinkNotNull
    | LinkMismatch
    | TimeMovedBackwards
    | BindingNotObject
    | WrongSurface
    | RepositoryNotOwnerRepo
    | CommentEdited
    | UnknownMode
    | ToleranceMismatch
    | OutsideTolerance
    | EventHashMismatch
    | InBinding(inner: Reason)

  predicate IsHex64(s: string) {
    IsHex(s, 64)
  }

  /** An image digest or a labelled hash. */
  predicate IsDigest(s: string) {
    SHA_PREFIX <= s && IsHex64(s[|SHA_PREFIX|..])
  }

  function Label(h: string): string {
    SHA_PREFIX + h
  }

  /** The digits of a hash written either bare or after `sha256:`. */
  function HashDigits(s: string): Option<string> {
    if IsHex64(s) then Some(s)
    else if IsDigest(s) then Some(s[|SHA_PREFIX|..])
    else None
  }

  /** The hash with its label, however it was written. */
  function Labelled(hash: string): Option<string> {
    match HashDigits(hash)
    case None => None
    case Some(h) => Some(Label(h))
  }

  lemma LabelledDigits(h: string)
    requires IsHex64(h)
    ensures HashDigits(Label(h)) == Some(h)
  {
    assert Label(h)[|SHA_PREFIX|..] == h;
  }

  function NormalizeHash(v: Value, k: Key): Result<string, Reason> {
    if v.Str? && HashDigits(v.s).Some? then Ok(HashDigits(v.s).value) else Fail(NotAHash(k))
  }

  /** `normalize_hash(..., allow_null=True)` */
  function NormalizeLink(v: Value): Result<Option<string>, Reason> {
    if v.Null? then Ok(None)
    else
      var h :- NormalizeHash(v, PreviousEventHash);
      Ok(Some(h))
  }

  function RequireString(o: Object, k: Key): Result<string, Reason> {
    if Get(o, k).Str? && Get(o, k).s != "" then Ok(Get(o, k).s) else Fail(NotNonEmptyString(k))
  }

  function RequirePositive(o: Object, k: Key): Result<int, Reason> {
    if PositiveInt(Get(o, k)).Some? then Ok(Get(o, k).n) else Fail(NotPositiveInt(k))
  }

  function ReadTime(env: Env, o: Object, k: Key): Result<int, Reason> {
    var v := Get(o, k);
    if v.Str? && env.time(v.s).Some? then Ok(env.time(v.s).value) else Fail(NotATime(k))
  }

  /** Minutes of clock skew each verification mode tolerates. */
  function Tolerance(mode: string): Option<int> {
    if mode == "normal" then Some(5)
    else if mode == "degraded" || mode == "recovery" then Some(15)
    else None
  }

  const SURFACE := "github_issue_comment"
  const MINUTE: int := 60_000_000

  function Abs(x: int): int {
    if x < 0 then -x else x
  }

  /** `validate_comment_binding` on the object: where the comment is and who wrote it, what it
      binds, and when. */
  function CheckBinding(env: Env, b: Object, payloadHash: string, committedAt: int): Result<(), Reason> {
    var _ :- CheckAuthor(b);
    var _ :- CheckHashes(b, payloadHash);
    CheckTimes(env, b, committedAt)
  }

  function CheckAuthor(b: Object): Result<(), Reason> {
    var surface :- RequireString(b, Surface);
    var _ :- Require(surface == SURFACE, WrongSurface);
    var repository :- RequireString(b, Repository);
    var _ :- Require('/' in repository, RepositoryNotOwnerRepo);
    var _ :- RequirePositive(b, Issue);
    var _ :- RequirePositive(b, CommentId);
    var _ :- RequirePositive(b, AuthorId);
    var _ :- RequireString(b, AuthorLogin);
    var _ :- RequireString(b, AuthorType);
    Ok(())
  }

  function CheckHashes(b: Object, payloadHash: string): Result<(), Reason> {
    var _ :- NormalizeHash(Get(b, RawBodyHash), RawBodyHash);
    var actual :- NormalizeHash(Get(b, PayloadHash), PayloadHash);
    Require(actual == payloadHash, PayloadHashMismatch)
  }

  function CheckTimes(env: Env, b: Object, committedAt: int): Result<(), Reason> {
    var createdAt :- ReadTime(env, b, CreatedAt);
    var updatedAt :- ReadTime(env, b, UpdatedAt);
    var _ :- Require(updatedAt == createdAt, CommentEdited);
    var mode :- RequireString(b, VerificationMode);
    var _ :- Require(Tolerance(mode).Some?, UnknownMode);
    var _ :- Require(Get(b, ToleranceMinutes) == Num(Tolerance(mode).value), ToleranceMismatch);
    Require(Abs(createdAt - committedAt) <= Tolerance(mode).value * MINUTE, OutsideTolerance)
  }

  function ValidateBinding(env: Env, e: Object, payloadHash: string, committedAt: int): Result<(), Reason> {
    match Get(e, CommentBinding)
    case Null => Ok(())
    case Obj(b) =>
      (match CheckBinding(env, b, payloadHash, committedAt)
       case Ok(_) => Ok(())
       case Fail(why) => Fail(InBinding(why)))
    case _ => Fail(BindingNotObject)
  }

  // ----- what an accepted binding says

  /** `s` spells the hash `h`, bare or labelled. */
  predicate Spells(s: string, h: string) {
    && |h| == 64 && (forall i :: 0 <= i < |h| ==> '0' <= h[i] <= '9' || 'a' <= h[i] <= 'f')
    && (s == h || s == "sha256:" + h)
  }

  lemma DigitsMean(s: string)
    ensures forall h :: HashDigits(s) == Some(h) <==> Spells(s, h)
  {
    forall h ensures HashDigits(s) == Some(h) <==> Spells(s, h) {
      if Spells(s, h) {
        LabelledDigits(h);
        assert |s| == 71 ==> !IsHex64(s);
      }
      if HashDigits(s) == Some(h) && !IsHex64(s) {
        assert s == "sha256:" + s[7..];
        assert forall i :: 0 <= i < 64 ==> IsHexDigit(s[7..][i]);
      }
    }
  }

  predicate IsText(v: Value) {
    v.Str? && v.s != ""
  }

  predicate IsCount(v: Value) {
    v.Num? && v.n > 0
  }

  predicate SpellsHash(v: Value, h: string) {
    v.Str? && Spells(v.s, h)
  }

  ghost predicate IsHash(v: Value) {
    exists h :: SpellsHash(v, h)
  }

  predicate AuthorInOrder(b: Object) {
    && Get(b, Surface) == Str("github_issue_comment")
    && Get(b, Repository).Str? && '/' in Get(b, Repository).s
    && IsCount(Get(b, Issue)) && IsCount(Get(b, CommentId)) && IsCount(Get(b, AuthorId))
    && IsText(Get(b, AuthorLogin)) && IsText(Get(b, AuthorType))
  }

  ghost predicate HashesInOrder(b: Object, payloadHash: string) {
    IsHash(Get(b, RawBodyHash)) && SpellsHash(Get(b, PayloadHash), payloadHash)
  }

  /** The minutes of skew that belong to a mode. */
  predicate ModeAllows(mode: string, minutes: int) {
    (mode == "normal" && minutes == 5) || (mode in {"degraded", "recovery"} && minutes == 15)
  }

  /** The comment was never edited and created within the tolerance of the commit. */
  predicate TimesInOrder(env: Env, b: Object, committedAt: int) {
    && Get(b, CreatedAt).Str? && Get(b, UpdatedAt).Str?
    && env.time(Get(b, CreatedAt).s).Some? && env.time(Get(b, UpdatedAt).s) == env.time(Get(b, CreatedAt).s)
    && Get(b, VerificationMode).Str? && Get(b, ToleranceMinutes).Num?
    && var created, minutes := env.time(Get(b, CreatedAt).s).value, Get(b, ToleranceMinutes).n;
       && ModeAllows(Get(b, VerificationMode).s, minutes)
       && committedAt - minutes * 60_000_000 <= created <= committedAt + minutes * 60_000_000
  }

  ghost predicate BindingInOrder(env: Env, b: Object, payloadHash: string, committedAt: int) {
    AuthorInOrder(b) && HashesInOrder(b, payloadHash) && TimesInOrder(env, b, committedAt)
  }

  lemma AuthorMeans(b: Object)
    ensures CheckAuthor(b).Ok? <==> AuthorInOrder(b)
  {
  }

  lemma HashesMean(b: Object, payloadHash: string)
    ensures CheckHashes(b, payloadHash).Ok? <==> HashesInOrder(b, payloadHash)
  {
    HashMeans(Get(b, RawBodyHash), RawBodyHash);
    HashMeans(Get(b, PayloadHash), PayloadHash);
  }

  lemma HashMeans(v: Value, k: Key)
    ensures forall h :: NormalizeHash(v, k) == Ok(h) <==> SpellsHash(v, h)
    ensures NormalizeHash(v, k).Ok? <==> IsHash(v)
  {
    if v.Str? {
      DigitsMean(v.s);
    }
    if NormalizeHash(v, k).Ok? {
      assert SpellsHash(v, NormalizeHash(v, k).value);
    }
  }

  lemma TimesMean(env: Env, b: Object, committedAt: int)
    ensures CheckTimes(env, b, committedAt).Ok? <==> TimesInOrder(env, b, committedAt)
  {
  }

  /** A comment binding is accepted exactly when it is absent, or an object that is in order. */
  lemma BindingMeans(env: Env, e: Object, payloadHash: string, committedAt: int)
    ensures ValidateBinding(env, e, payloadHash, committedAt).Ok? <==>
            || Get(e, CommentBinding).Null?
            || (&& Get(e, CommentBinding).Obj?
                && BindingInOrder(env, Get(e, CommentBinding).fields, payloadHash, committedAt))
  {
    if Get(e, CommentBinding).Obj? {
      var b := Get(e, CommentBinding).fields;
      AuthorMeans(b);
      HashesMean(b, payloadHash);
      TimesMean(env, b, committedAt);
    }
  }

  /** What an event's hash covers: every member but the hash itself. */
  function Material(e: Object): Value {
    Obj(e - {EventHash})
  }

  function Digest(env: Env, e: Object): string {
    env.hash(Material(e))
  }

  function CheckWriter(env: Env, e: Object): Result<(), Reason> {
    var schema :- RequireString(e, SchemaVersion);
    var _ :- Require(schema == SCHEMA, WrongSchema);
    var eventType :- RequireString(e, EventType);
    var _ :- Require(eventType in env.authority, UnknownType);
    var role :- RequireString(e, WriterRole);
    Require(role in env.authority[eventType], UnauthorizedWriter)
  }

  function CheckPayload(env: Env, e: Object): Result<(), Reason> {
    var _ :- Require(Get(e, Payload).Obj?, PayloadNotObject);
    var actual :- NormalizeHash(Get(e, PayloadHash), PayloadHash);
    Require(actual == env.hash(Get(e, Payload)), PayloadHashMismatch)
  }

  /** The event's link and time against the chain so far; its time when both fit. */
  function CheckPosition(env: Env, e: Object, lastHash: Option<string>, lastTime: Option<int>, valid: nat)
    : Result<int, Reason>
  {
    var link :- NormalizeLink(Get(e, PreviousEventHash));
    var _ :- Require(valid == 0 ==> link.None?, GenesisLinkNotNull);
    var _ :- Require(valid != 0 ==> link == lastHash, LinkMismatch);
    var committedAt :- ReadTime(env, e, CommittedAt);
    var _ :- Require(lastTime.Some? ==> lastTime.value <= committedAt, TimeMovedBackwards);
    Ok(committedAt)
  }

  function CheckDigest(env: Env, e: Object): Result<(), Reason> {
    var actual :- NormalizeHash(Get(e, EventHash), EventHash);
    Require(actual == Digest(env, e), EventHashMismatch)
  }

  function ValidateNewEvent(env: Env, e: Object, lastHash: Option<string>, lastTime: Option<int>, valid: nat)
    : Result<(string, int), Reason>
  {
    var _ :- CheckWriter(env, e);
    var _ :- CheckPayload(env, e);
    var committedAt :- CheckPosition(env, e, lastHash, lastTime, valid);
    var _ :- ValidateBinding(env, e, env.hash(Get(e, Payload)), committedAt);
    var _ :- CheckDigest(env, e);
    Ok((Digest(env, e), committedAt))
  }

  /** The loop-carried variables of `replay`. */
  datatype State = State(
    lastHash: Option<string>,
    lastTime: Option<int>,
    valid: nat,
    dup: nat,
    seen: map<string, Object>)

  const START := State(None, None, 0, 0, map[])

  function ReadEvent(env: Env, text: string): Result<Object, Reason> {
    match env.parse(text)
    case None => Fail(BadJson)
    case Some(Obj(e)) => Ok(e)
    case Some(_) => Fail(NotAnObject)
  }

  /** One iteration of the loop in `replay`. */
  function Step(env: Env, st: State, text: string): Result<State, Reason> {
    if text == "" then Ok(st)
    else
      var e :- ReadEvent(env, text);
      var uuid :- RequireString(e, EventUuid);
      if uuid in st.seen then
        if st.seen[uuid] == e then Ok(st.(dup := st.dup + 1)) else Fail(UuidReused(uuid))
      else
        var ok :- ValidateNewEvent(env, e, st.lastHash, st.lastTime, st.valid);
        Ok(State(Some(ok.0), Some(ok.1), st.valid + 1, st.dup, st.seen[uuid := e]))
  }

  datatype Outcome =
    | Done(st: State)
    | Stopped(st: State, line: nat, reason: Reason)

  /** What line number `n`, reading `text`, makes of the outcome so far. */
  function Advance(env: Env, before: Outcome, n: nat, text: string): Outcome {
    if before.Stopped? then before
    else
      match Step(env, before.st, text)
      case Ok(next) => Done(next)
      case Fail(why) => Stopped(before.st, n, why)
  }

  /** `replay` as a fold over the lines: the state after the last accepted line, and for a
      refused ledger the number of the first refused line and the reason. */
  function Run(env: Env, lines: seq<string>): Outcome {
    if lines == [] then Done(START)
    else Advance(env, Run(env, lines[..|lines| - 1]), |lines|, lines[|lines| - 1])
  }

  predicate Replays(env: Env, lines: seq<string>) {
    Run(env, lines).Done?
  }

  datatype ReplayResult = ReplayResult(
    valid: bool,
    validEvents: nat,
    duplicateEvents: nat,
    validPrefixHash: Option<string>,
    invalidLine: Option<nat>,
    reason: Option<Reason>)

  /** The loop of `replay`, with its early exit on the first refused line. */
  method ReplayLedger(env: Env, lines: seq<string>) returns (r: ReplayResult)
    ensures r.valid <==> Replays(env, lines)
    ensures var st := Run(env, lines).st;
            r.validEvents == st.valid && r.duplicateEvents == st.dup && r.validPrefixHash == st.lastHash
    ensures Run(env, lines).Stopped? ==>
              r.invalidLine == Some(Run(env, lines).line) && r.reason == Some(Run(env, lines).reason)
  {
    var st := START;
    var i := 0;
    while i < |lines|
      invariant 0 <= i <= |lines|
      invariant Run(env, lines[..i]) == Done(st)
    {
      assert lines[..i + 1][..i] == lines[..i];
      match Step(env, st, lines[i]) {
        case Fail(why) =>
          StoppedForever(env, lines[..i + 1], lines[i + 1..]);
          assert lines == lines[..i + 1] + lines[i + 1..];
          return ReplayResult(false, st.valid, st.dup, st.lastHash, Some(i + 1), Some(why));
        case Ok(st') =>
          st := st';
      }
      i := i + 1;
    }
    assert lines[..i] == lines;
    return ReplayResult(true, st.valid, st.dup, st.lastHash, None, None);
  }

  lemma RunSnoc(env: Env, lines: seq<string>, text: string)
    ensures Run(env, lines + [text]) == Advance(env, Run(env, lines), |lines| + 1, text)
  {
    assert (lines + [text])[..|lines|] == lines;
  }

  /** Once refused, a ledger stays refused at the same line for the same reason, whatever
      is appended. */
  lemma {:induction false} StoppedForever(env: Env, lines: seq<string>, more: seq<string>)
    requires Run(env, lines).Stopped?
    ensures Run(env, lines + more) == Run(env, lines)
  {
    if more == [] {
      assert lines + more == lines;
    } else {
      var n := |more|;
      StoppedForever(env, lines, more[..n - 1]);
      assert lines + more == (lines + more[..n - 1]) + [more[n - 1]];
      RunSnoc(env, lines + more[..n - 1], more[n - 1]);
    }
  }

  lemma PrefixReplays(env: Env, lines: seq<string>, k: nat)
    requires k <= |lines| && Replays(env, lines)
    ensures Replays(env, lines[..k])
  {
    if Run(env, lines[..k]).Stopped? {
      StoppedForever(env, lines[..k], lines[k..]);
      assert lines[..k] + lines[k..] == lines;
    }
  }

  /** A failure at line `k` reports exactly what replaying the lines before `k` reports, and
      every ledger that starts with those `k` lines fails at `k` for the same reason. */
  lemma {:induction false} ValidPrefixExact(env: Env, lines: seq<string>, more: seq<string>)
    requires Run(env, lines).Stopped?
    ensures var r := Run(env, lines);
            && 1 <= r.line <= |lines|
            && Run(env, lines[..r.line - 1]) == Done(r.st)
            && Step(env, r.st, lines[r.line - 1]) == Fail(r.reason)
            && Run(env, lines[..r.line] + more) == r
  {
    var r := Run(env, lines);
    var n := |lines|;
    var shorter := lines[..n - 1];
    if Run(env, shorter).Stopped? {
      ValidPrefixExact(env, shorter, more);
      assert shorter[..r.line - 1] == lines[..r.line - 1];
      assert shorter[..r.line] == lines[..r.line];
    } else {
      assert lines[..r.line] == lines;
      StoppedForever(env, lines, more);
    }
  }

  function NonBlank(lines: seq<string>): seq<string> {
    if lines == [] then []
    else
      var n := |lines|;
      NonBlank(lines[..n - 1]) + if lines[n - 1] == "" then [] else [lines[n - 1]]
  }

  lemma NonBlankSnoc(lines: seq<string>, text: string)
    ensures NonBlank(lines + [text]) == NonBlank(lines) + if text == "" then [] else [text]
  {
    assert (lines + [text])[..|lines|] == lines;
  }

  /** Every non-blank line of a valid ledger is counted once: as an event or as a duplicate. */
  lemma {:induction false} EveryLineCounted(env: Env, lines: seq<string>)
    requires Replays(env, lines)
    ensures var st := Run(env, lines).st; st.valid + st.dup == |NonBlank(lines)|
  {
    if lines != [] {
      EveryLineCounted(env, lines[..|lines| - 1]);
    }
  }

  /** Blank lines change nothing that replay reports but the number of the refused line, which
      counts them. */
  lemma {:induction false} BlankLinesIgnored(env: Env, lines: seq<string>)
    ensures Replays(env, NonBlank(lines)) <==> Replays(env, lines)
    ensures Run(env, NonBlank(lines)).st == Run(env, lines).st
    ensures Run(env, lines).Stopped? ==>
              && Run(env, NonBlank(lines)).reason == Run(env, lines).reason
              && 0 < Run(env, lines).line <= |lines|
              && Run(env, NonBlank(lines)).line == |NonBlank(lines[..Run(env, lines).line])|
  {
    if lines != [] {
      var init, text := lines[..|lines| - 1], lines[|lines| - 1];
      BlankLinesIgnored(env, init);
      if text == "" {
        assert NonBlank(lines) == NonBlank(init);
      } else {
        RunSnoc(env, NonBlank(init), text);
      }
      if Run(env, init).Stopped? {
        assert lines[..Run(env, init).line] == init[..Run(env, init).line];
      } else {
        assert lines[..|lines|] == lines;
      }
    }
  }
}
