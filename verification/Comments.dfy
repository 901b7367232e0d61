/** Materialized comments (scripts/coordination/materialize-ledger-comment.py): the rendered
    body, the marker read back from it, and the binding made from a fetched comment. */
module Comments {
  import opened Json
  import opened Text
  import opened Markers
  import Replay
  import Appender

  const MARKER := "<!-- coordination-ledger-materialized-comment:v1"

  /** The command line.  The issue number is positive once `main` has run. */
  datatype Args = Args(
    repo: string,
    issue: nat,
    eventUuid: string,
    eventType: string,
    writerRole: string,
    payloadHash: string,
    mode: string,
    committedAt: Option<string>)

  datatype Refusal =
    | BadRepo | BadHash | BadMode | NoMarker | Malformed(why: Trouble) | MarkerMismatch
    | Unreadable(reason: Replay.Reason) | UserNotObject | BadCommittedAt | CommentEdited | OutsideTolerance

  /** `owner/repo` in safe path characters. */
  predicate IsRepo(s: string) {
    exists i :: 0 < i < |s| - 1 && s[i] == '/' && forall j :: 0 <= j < |s| && j != i ==> IsSafeChar(s[j])
  }

  function HashLabel(hash: string): Result<string, Refusal> {
    match Replay.Labelled(hash)
    case None => Fail(BadHash)
    case Some(h) => Ok(h)
  }

  function MarkerFields(args: Args, payloadHash: string): seq<Field> {
    [Field("repository", args.repo),
     Field("issue", Decimal(args.issue)),
     Field("event_uuid", args.eventUuid),
     Field("event_type", args.eventType),
     Field("writer_role", args.writerRole),
     Field("payload_hash", payloadHash),
     Field("verification_mode", args.mode)]
  }

  /** The same fields again as a list for the human reader. */
  function Listing(args: Args, payloadHash: string): string {
    "\n\nCoordination Ledger materialized comment v1\n"
    + "\n- repository: " + args.repo
    + "\n- issue: " + Decimal(args.issue)
    + "\n- event_uuid: " + args.eventUuid
    + "\n- event_type: " + args.eventType
    + "\n- writer_role: " + args.writerRole
    + "\n- payload_hash: " + payloadHash
    + "\n- verification_mode: " + args.mode
    + "\n"
  }

  function RenderBody(args: Args): Result<string, Refusal> {
    match Replay.Labelled(args.payloadHash)
    case None => Fail(BadHash)
    case Some(h) =>
      if Replay.Tolerance(args.mode).None? then Fail(BadMode)
      else if !IsRepo(args.repo) then Fail(BadRepo)
      else Ok(RenderBlock(MARKER, MarkerFields(args, h)) + Listing(args, h))
  }

  /** `parse_marker` */
  function ParseMarker(body: string): Result<map<string, string>, Refusal> {
    if !(MARKER <= body) then Fail(NoMarker)
    else
      match ParseFrom(body, MARKER, 0, true)
      case Ok(Some(b)) => Ok(b.fields)
      case Ok(None) => Fail(NoMarker)
      case Fail(why) => Fail(Malformed(why))
  }

  predicate Agrees(marker: map<string, string>, fields: seq<Field>) {
    forall i :: 0 <= i < |fields| ==> fields[i].key in marker && marker[fields[i].key] == fields[i].value
  }

  /** `assert_marker_matches` */
  function AssertMarkerMatches(args: Args, marker: map<string, string>): Result<(), Refusal> {
    if !IsRepo(args.repo) then Fail(BadRepo)
    else
      match Replay.Labelled(args.payloadHash)
      case None => Fail(BadHash)
      case Some(h) => if Agrees(marker, MarkerFields(args, h)) then Ok(()) else Fail(MarkerMismatch)
  }

  /** The readers of the replay verifier, raising this script's refusal. */
  function Lift<T>(r: Result<T, Replay.Reason>): Result<T, Refusal> {
    match r
    case Ok(value) => Ok(value)
    case Fail(why) => Fail(Unreadable(why))
  }

  /** An absent and an empty `--committed-at` both switch the tolerance check off. */
  function CheckCommitted(env: Replay.Env, args: Args, createdAt: int, tolerance: int): Result<(), Refusal> {
    if args.committedAt.None? || args.committedAt.value == "" then Ok(())
    else
      match env.time(args.committedAt.value)
      case None => Fail(BadCommittedAt)
      case Some(t) => Require(Replay.Abs(createdAt - t) <= tolerance * Replay.MINUTE, OutsideTolerance)
  }

  /** Who wrote the comment. */
  function CheckAuthor(comment: Object): (r: Result<(), Refusal>)
    ensures r.Ok? ==>
              && PositiveInt(Get(comment, Id)).Some? && Get(comment, User).Obj?
              && var user := Get(comment, User).fields;
                 && PositiveInt(Get(user, Id)).Some?
                 && NonEmptyString(Get(user, Login)).Some? && NonEmptyString(Get(user, Type)).Some?
  {
    var _ :- Lift(Replay.RequirePositive(comment, Id));
    var _ :- Require(Get(comment, User).Obj?, UserNotObject);
    var user := Get(comment, User).fields;
    var _ :- Lift(Replay.RequirePositive(user, Id));
    var _ :- Lift(Replay.RequireString(user, Login));
    var _ :- Lift(Replay.RequireString(user, Type));
    Ok(())
  }

  /** When it was written: never edited, and close enough to the commit. */
  function CheckTimes(env: Replay.Env, args: Args, comment: Object): Result<(), Refusal> {
    var createdAt :- Lift(Replay.ReadTime(env, comment, CreatedAt));
    var updatedAt :- Lift(Replay.ReadTime(env, comment, UpdatedAt));
    var _ :- Require(updatedAt == createdAt, CommentEdited);
    var _ :- Require(Replay.Tolerance(args.mode).Some?, BadMode);
    CheckCommitted(env, args, createdAt, Replay.Tolerance(args.mode).value)
  }

  /** `verify_comment`; `sha` is the SHA-256 of a text. */
  function VerifyComment(env: Replay.Env, sha: string -> string, args: Args, comment: Object): Result<Object, Refusal> {
    var body :- Lift(Replay.RequireString(comment, Body));
    var marker :- ParseMarker(body);
    var _ :- AssertMarkerMatches(args, marker);
    var _ :- CheckAuthor(comment);
    var _ :- CheckTimes(env, args, comment);
    var user := Get(comment, User).fields;
    var tag :- HashLabel(args.payloadHash);
    Ok(Binding(args, Get(comment, Id).n, Get(user, Id).n, Get(user, Login).s, Get(user, Type).s,
               Get(comment, CreatedAt), Get(comment, UpdatedAt),
               Replay.Label(sha(body)), tag, Replay.Tolerance(args.mode).value))
  }

  function Binding(args: Args, id: int, author: int, login: string, kind: string, createdAt: Value, updatedAt: Value,
                   bodyHash: string, payloadHash: string, tolerance: int): Object
  {
    map[
      Surface := Str(Replay.SURFACE),
      Repository := Str(args.repo),
      Issue := Num(args.issue),
      CommentId := Num(id),
      AuthorId := Num(author),
      AuthorLogin := Str(login),
      AuthorType := Str(kind),
      CreatedAt := createdAt,
      UpdatedAt := updatedAt,
      RawBodyHash := Str(bodyHash),
      PayloadHash := Str(payloadHash),
      VerificationMode := Str(args.mode),
      ToleranceMinutes := Num(tolerance)]
  }

  // ----- a rendered comment is recognised

  /** The free-text fields: trimmed, on one line, not empty and not closing the block. */
  ghost predicate CleanArgs(args: Args) {
    && CleanValue(args.eventUuid) && args.eventUuid != ""
    && CleanValue(args.eventType) && args.eventType != ""
    && CleanValue(args.writerRole) && args.writerRole != ""
  }

  ghost predicate Plain(s: string) {
    s != "" && forall i :: 0 <= i < |s| ==> !IsSpace(s[i]) && s[i] != '>'
  }

  lemma PlainIsClean(s: string)
    requires Plain(s)
    ensures CleanValue(s)
  {
  }

  lemma RepoIsPlain(s: string)
    requires IsRepo(s)
    ensures Plain(s) && '/' in s
  {
  }

  lemma {:induction false} DecimalIsPlain(n: nat)
    ensures Plain(Decimal(n))
  {
    assert forall i :: 0 <= i < 10 ==> '0' <= DIGITS[i] <= '9';
    if n >= 10 {
      DecimalIsPlain(n / 10);
    }
  }

  lemma LabelIsPlain(hash: string)
    requires Replay.Labelled(hash).Some?
    ensures Plain(Replay.Labelled(hash).value)
  {
    var s, h := Replay.Labelled(hash).value, Replay.HashDigits(hash).value;
    forall i | 0 <= i < |s| ensures !IsSpace(s[i]) && s[i] != '>' {
      if i >= 7 {
        assert s[i] == h[i - 7] && IsHexDigit(h[i - 7]);
      }
    }
  }

  lemma FieldsClean(args: Args, h: string)
    requires CleanArgs(args) && IsRepo(args.repo) && Plain(h) && Replay.Tolerance(args.mode).Some?
    ensures Clean(MarkerFields(args, h), true)
  {
    RepoIsPlain(args.repo);
    DecimalIsPlain(args.issue);
    ModeIsPlain(args.mode);
    PlainIsClean(args.repo);
    PlainIsClean(Decimal(args.issue));
    PlainIsClean(h);
    PlainIsClean(args.mode);
    KeysClean(args, h);
  }

  lemma ModeIsPlain(mode: string)
    requires Replay.Tolerance(mode).Some?
    ensures Plain(mode)
  {
  }

  lemma KeysClean(args: Args, h: string)
    ensures forall i :: 0 <= i < 7 ==> CleanKey(MarkerFields(args, h)[i].key)
  {
    WordIsClean("repository");
    WordIsClean("issue");
    WordIsClean("event_uuid");
    WordIsClean("event_type");
    WordIsClean("writer_role");
    WordIsClean("payload_hash");
    WordIsClean("verification_mode");
  }

  lemma MarkerPlain()
    ensures '>' !in MARKER
  {
    assert MARKER == "<!-- coordination-ledger-" + "materialized-comment:v1";
  }

  /** The body of a rendered comment reads back as the fields it was rendered from. */
  lemma RenderedReadsBack(args: Args, body: string)
    requires RenderBody(args) == Ok(body) && CleanArgs(args)
    ensures ParseMarker(body) == Ok(AsMap(MarkerFields(args, Replay.Labelled(args.payloadHash).value)))
  {
    var h := Replay.Labelled(args.payloadHash).value;
    LabelIsPlain(args.payloadHash);
    FieldsClean(args, h);
    MarkerPlain();
    BlockThenText(MARKER, MarkerFields(args, h), Listing(args, h), body);
  }

  lemma BlockThenText(marker: string, fields: seq<Field>, text: string, body: string)
    requires '>' !in marker && Clean(fields, true) && body == RenderBlock(marker, fields) + text
    ensures marker <= body
    ensures ParseFrom(body, marker, 0, true) == Ok(Some(Block(0, |RenderBlock(marker, fields)|, AsMap(fields))))
  {
    var block := RenderBlock(marker, fields);
    EmptyFirst(block, text);
    BlockReadBack(body, "", marker, fields, block, text, true, Block(0, |block|, AsMap(fields)));
    StartsWith(marker, LinesText(fields), "\n", END, text);
  }

  lemma EmptyFirst(block: string, text: string)
    ensures "" + block + text == block + text
  {
  }

  lemma StartsWith(a: string, b: string, c: string, d: string, e: string)
    ensures a <= a + b + c + d + e
  {
  }

  predicate SameFields(args: Args, other: Args) {
    && other.repo == args.repo && other.issue == args.issue
    && other.eventUuid == args.eventUuid && other.eventType == args.eventType && other.writerRole == args.writerRole
    && Replay.HashDigits(other.payloadHash) == Replay.HashDigits(args.payloadHash)
    && other.mode == args.mode
  }

  /** Of all command lines, exactly those with the seven rendered fields (the payload hash in
      either spelling) accept the rendered comment. */
  lemma RenderedMatchesIff(args: Args, other: Args, body: string)
    requires RenderBody(args) == Ok(body) && CleanArgs(args)
    ensures ParseMarker(body).Ok?
    ensures AssertMarkerMatches(other, ParseMarker(body).value).Ok? <==> SameFields(args, other)
  {
    RenderedReadsBack(args, body);
    var h := Replay.Labelled(args.payloadHash).value;
    if IsRepo(other.repo) && Replay.Labelled(other.payloadHash).Some? {
      FieldsAgreeIff(args, h, other, Replay.Labelled(other.payloadHash).value);
      LabelInjective(args.payloadHash, other.payloadHash);
    }
  }

  lemma LabelInjective(a: string, b: string)
    requires Replay.Labelled(a).Some? && Replay.Labelled(b).Some?
    ensures Replay.Labelled(a) == Replay.Labelled(b) <==> Replay.HashDigits(a) == Replay.HashDigits(b)
  {
    assert Replay.Labelled(a).value[7..] == Replay.HashDigits(a).value;
    assert Replay.Labelled(b).value[7..] == Replay.HashDigits(b).value;
  }

  lemma {:induction false} AsMapAt(fields: seq<Field>, i: nat)
    requires i < |fields| && forall a, b :: 0 <= a < b < |fields| ==> fields[a].key != fields[b].key
    ensures fields[i].key in AsMap(fields) && AsMap(fields)[fields[i].key] == fields[i].value
  {
    var n := |fields| - 1;
    if i < n {
      AsMapAt(fields[..n], i);
    }
  }

  lemma FieldsAgreeIff(args: Args, h: string, other: Args, k: string)
    ensures Agrees(AsMap(MarkerFields(args, h)), MarkerFields(other, k)) <==>
            && other.repo == args.repo && other.issue == args.issue
            && other.eventUuid == args.eventUuid && other.eventType == args.eventType
            && other.writerRole == args.writerRole && k == h && other.mode == args.mode
  {
    var a, b := MarkerFields(args, h), MarkerFields(other, k);
    KeysDistinct(args, h);
    forall i | 0 <= i < 7 ensures a[i].key in AsMap(a) && AsMap(a)[a[i].key] == a[i].value && b[i].key == a[i].key {
      AsMapAt(a, i);
    }
    if Agrees(AsMap(a), b) {
      assert forall i :: 0 <= i < 7 ==> b[i].value == a[i].value;
      assert b[0].value == other.repo && b[1].value == Decimal(other.issue) && b[2].value == other.eventUuid;
      assert b[3].value == other.eventType && b[4].value == other.writerRole;
      assert b[5].value == k && b[6].value == other.mode;
      DecimalInjective(args.issue, other.issue);
    }
  }

  lemma KeysDistinct(args: Args, h: string)
    ensures forall i, j :: 0 <= i < j < 7 ==> MarkerFields(args, h)[i].key != MarkerFields(args, h)[j].key
  {
    assert "event_uuid"[6] == 'u' && "event_type"[6] == 't';
    assert "repository"[0] == 'r' && "event_uuid"[0] == 'e';
  }

  // ----- a verified comment is accepted by the replay verifier

  /** The binding made from a verified comment passes the replay verifier's check for exactly
      the payload that the command named and the times within the tolerance of the comment; so
      a comment checked against a commit time is accepted in an event of that time. */
  lemma VerifiedBindingAcceptedIff(env: Replay.Env, sha: string -> string, args: Args, comment: Object, b: Object,
                                   payloadHash: string, committedAt: int)
    requires VerifyComment(env, sha, args, comment) == Ok(b) && args.issue > 0
    requires forall s :: Replay.IsHex64(sha(s))
    ensures Replay.ReadTime(env, comment, CreatedAt).Ok? && Replay.Tolerance(args.mode).Some?
    ensures Replay.CheckBinding(env, b, payloadHash, committedAt).Ok? <==>
            && Replay.HashDigits(args.payloadHash) == Some(payloadHash)
            && Replay.Abs(Replay.ReadTime(env, comment, CreatedAt).value - committedAt)
               <= Replay.Tolerance(args.mode).value * Replay.MINUTE
    ensures args.committedAt.Some? && args.committedAt.value != ""
            && env.time(args.committedAt.value) == Some(committedAt)
            && Replay.HashDigits(args.payloadHash) == Some(payloadHash)
            ==> Replay.CheckBinding(env, b, payloadHash, committedAt).Ok?
  {
    VerifiedParts(env, sha, args, comment, b);
    var body, user := Get(comment, Body).s, Get(comment, User).fields;
    var h := Replay.HashDigits(args.payloadHash).value;
    Replay.LabelledDigits(sha(body));
    Replay.LabelledDigits(h);
    BindingCheck(env, args, Get(comment, Id).n, Get(user, Id).n, Get(user, Login).s, Get(user, Type).s,
                 Get(comment, CreatedAt), Get(comment, UpdatedAt), Replay.ReadTime(env, comment, CreatedAt).value,
                 sha(body), h, Replay.Tolerance(args.mode).value, payloadHash, committedAt);
  }

  lemma VerifiedParts(env: Replay.Env, sha: string -> string, args: Args, comment: Object, b: Object)
    requires VerifyComment(env, sha, args, comment) == Ok(b)
    ensures Replay.RequireString(comment, Body).Ok? && Replay.RequirePositive(comment, Id).Ok?
    ensures Get(comment, User).Obj?
    ensures var user := Get(comment, User).fields;
            && Replay.RequirePositive(user, Id).Ok?
            && Replay.RequireString(user, Login).Ok? && Replay.RequireString(user, Type).Ok?
            && Replay.ReadTime(env, comment, CreatedAt).Ok?
            && Replay.ReadTime(env, comment, UpdatedAt).Ok?
            && Replay.ReadTime(env, comment, UpdatedAt).value == Replay.ReadTime(env, comment, CreatedAt).value
            && '/' in args.repo && Replay.HashDigits(args.payloadHash).Some? && Replay.Tolerance(args.mode).Some?
            && CheckCommitted(env, args, Replay.ReadTime(env, comment, CreatedAt).value,
                              Replay.Tolerance(args.mode).value).Ok?
            && b == Binding(args, Get(comment, Id).n, Get(user, Id).n, Get(user, Login).s, Get(user, Type).s,
                            Get(comment, CreatedAt), Get(comment, UpdatedAt),
                            Replay.Label(sha(Get(comment, Body).s)),
                            Replay.Label(Replay.HashDigits(args.payloadHash).value),
                            Replay.Tolerance(args.mode).value)
  {
    RepoIsPlain(args.repo);
  }

  lemma BindingCheck(env: Replay.Env, args: Args, id: int, author: int, login: string, kind: string,
                     createdAt: Value, updatedAt: Value, created: int,
                     bodyHash: string, h: string, tolerance: int, payloadHash: string, committedAt: int)
    requires args.issue > 0 && id > 0 && author > 0 && login != "" && kind != "" && '/' in args.repo
    requires createdAt.Str? && env.time(createdAt.s) == Some(created)
    requires updatedAt.Str? && env.time(updatedAt.s) == Some(created)
    requires Replay.HashDigits(Replay.Label(bodyHash)).Some?
    requires Replay.HashDigits(Replay.Label(h)) == Some(h)
    requires Replay.Tolerance(args.mode) == Some(tolerance)
    ensures Replay.CheckBinding(env, Binding(args, id, author, login, kind, createdAt, updatedAt,
                                             Replay.Label(bodyHash), Replay.Label(h), tolerance),
                                payloadHash, committedAt).Ok? <==>
            h == payloadHash && Replay.Abs(created - committedAt) <= tolerance * Replay.MINUTE
  {
    var b := Binding(args, id, author, login, kind, createdAt, updatedAt,
                     Replay.Label(bodyHash), Replay.Label(h), tolerance);
    BindingPeople(args, id, author, login, kind, createdAt, updatedAt,
                  Replay.Label(bodyHash), Replay.Label(h), tolerance);
    BindingFacts(args, id, author, login, kind, createdAt, updatedAt,
                 Replay.Label(bodyHash), Replay.Label(h), tolerance);
    CheckOf(env, b, payloadHash, committedAt, h, created, tolerance);
  }

  lemma BindingPeople(args: Args, id: int, author: int, login: string, kind: string, createdAt: Value, updatedAt: Value,
                      bodyHash: string, payloadHash: string, tolerance: int)
    ensures var b := Binding(args, id, author, login, kind, createdAt, updatedAt, bodyHash, payloadHash, tolerance);
            && Get(b, Surface) == Str(Replay.SURFACE) && Get(b, Repository) == Str(args.repo)
            && Get(b, Issue) == Num(args.issue) && Get(b, CommentId) == Num(id) && Get(b, AuthorId) == Num(author)
            && Get(b, AuthorLogin) == Str(login) && Get(b, AuthorType) == Str(kind)
  {
  }

  lemma BindingFacts(args: Args, id: int, author: int, login: string, kind: string, createdAt: Value, updatedAt: Value,
                     bodyHash: string, payloadHash: string, tolerance: int)
    ensures var b := Binding(args, id, author, login, kind, createdAt, updatedAt, bodyHash, payloadHash, tolerance);
            && Get(b, CreatedAt) == createdAt && Get(b, UpdatedAt) == updatedAt
            && Get(b, RawBodyHash) == Str(bodyHash) && Get(b, PayloadHash) == Str(payloadHash)
            && Get(b, VerificationMode) == Str(args.mode) && Get(b, ToleranceMinutes) == Num(tolerance)
  {
  }

  lemma CheckOf(env: Replay.Env, b: Object, payloadHash: string, committedAt: int, h: string, created: int,
                tolerance: int)
    requires Get(b, Surface) == Str(Replay.SURFACE) && NonEmptyString(Get(b, Repository)).Some?
    requires '/' in Get(b, Repository).s
    requires PositiveInt(Get(b, Issue)).Some? && PositiveInt(Get(b, CommentId)).Some?
    requires PositiveInt(Get(b, AuthorId)).Some?
    requires NonEmptyString(Get(b, AuthorLogin)).Some? && NonEmptyString(Get(b, AuthorType)).Some?
    requires Get(b, RawBodyHash).Str? && Replay.HashDigits(Get(b, RawBodyHash).s).Some?
    requires Get(b, PayloadHash).Str? && Replay.HashDigits(Get(b, PayloadHash).s) == Some(h)
    requires Get(b, CreatedAt).Str? && env.time(Get(b, CreatedAt).s) == Some(created)
    requires Get(b, UpdatedAt).Str? && env.time(Get(b, UpdatedAt).s) == Some(created)
    requires NonEmptyString(Get(b, VerificationMode)).Some?
    requires Replay.Tolerance(Get(b, VerificationMode).s) == Some(tolerance)
    requires Get(b, ToleranceMinutes) == Num(tolerance)
    ensures Replay.CheckBinding(env, b, payloadHash, committedAt).Ok? <==>
            h == payloadHash && Replay.Abs(created - committedAt) <= tolerance * Replay.MINUTE
  {
  }

  /** Producer and verifier fit together: an authorised event with a fresh uuid, a time not before
      the last one and the binding of a comment that was verified for its payload and its time is
      always accepted by the appender. */
  lemma VerifiedCommentAppends(env: Replay.Env, sha: string -> string, args: Args, comment: Object, lines: seq<string>,
                               req: Appender.Request)
    requires env.Valid() && Replay.Replays(env, lines) && Appender.Unforged(env, lines)
    requires VerifyComment(env, sha, args, comment).Ok? && args.issue > 0 && forall s :: Replay.IsHex64(sha(s))
    requires req.binding == Some(VerifyComment(env, sha, args, comment).value)
    requires Replay.HashDigits(args.payloadHash) == Some(env.hash(Obj(req.payload)))
    requires args.committedAt == Some(req.committedAt) && req.committedAt != ""
    requires Appender.Authorised(env, req)
    requires var st := Replay.Run(env, lines).st;
             && (req.guard.Exactly? ==> req.guard.head == st.lastHash)
             && req.uuid !in st.seen
             && (st.lastTime.Some? && env.time(req.committedAt).Some? ==>
                   st.lastTime.value <= env.time(req.committedAt).value)
    ensures Appender.Append(env, lines, req).Ok?
  {
    var b := VerifyComment(env, sha, args, comment).value;
    VerifiedParts(env, sha, args, comment, b);
    var t := env.time(req.committedAt).value;
    VerifiedBindingAcceptedIff(env, sha, args, comment, b, env.hash(Obj(req.payload)), t);
    assert Appender.BindingAccepted(env, req);
    Appender.AppendSucceedsIff(env, lines, req);
  }
}
