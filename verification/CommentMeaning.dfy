/** What a rendered, a matching and a verified comment are, said about the text, the command line
    and the fetched object (scripts/coordination/materialize-ledger-comment.py). */
module CommentMeaning {
  import opened Json
  import opened Text
  import opened Markers
  import opened Comments
  import Replay

  // ----- the marker against the command line

  predicate Shows(marker: map<string, string>, key: string, value: string) {
    key in marker && marker[key] == value
  }

  /** The marker shows every field of the command line, the hash with its label. */
  predicate ShowsAll(marker: map<string, string>, args: Args, h: string) {
    && Shows(marker, "repository", args.repo)
    && Shows(marker, "issue", Decimal(args.issue))
    && Shows(marker, "event_uuid", args.eventUuid)
    && Shows(marker, "event_type", args.eventType)
    && Shows(marker, "writer_role", args.writerRole)
    && Shows(marker, "payload_hash", "sha256:" + h)
    && Shows(marker, "verification_mode", args.mode)
  }

  lemma AgreesMeans(marker: map<string, string>, args: Args, h: string)
    ensures Agrees(marker, MarkerFields(args, "sha256:" + h)) <==> ShowsAll(marker, args, h)
  {
    var fields := MarkerFields(args, "sha256:" + h);
    assert fields[0] == Field("repository", args.repo) && fields[1] == Field("issue", Decimal(args.issue));
    assert fields[2] == Field("event_uuid", args.eventUuid) && fields[3] == Field("event_type", args.eventType);
    assert fields[4] == Field("writer_role", args.writerRole) && fields[5] == Field("payload_hash", "sha256:" + h);
    assert fields[6] == Field("verification_mode", args.mode);
  }

  /** Exactly when a marker matches a command line. */
  lemma MatchesIff(args: Args, marker: map<string, string>)
    ensures AssertMarkerMatches(args, marker).Ok? <==>
            IsRepo(args.repo) && exists h :: Replay.Spells(args.payloadHash, h) && ShowsAll(marker, args, h)
  {
    Replay.DigitsMean(args.payloadHash);
    if Replay.HashDigits(args.payloadHash).Some? {
      var h := Replay.HashDigits(args.payloadHash).value;
      assert Replay.Spells(args.payloadHash, h);
      AgreesMeans(marker, args, h);
    }
  }

  predicate OwnerAndRepo(s: string, owner: string, repo: string) {
    && s == owner + "/" + repo && owner != "" && repo != ""
    && (forall i :: 0 <= i < |owner| ==> SafeChar(owner[i]))
    && (forall i :: 0 <= i < |repo| ==> SafeChar(repo[i]))
  }

  /** A repository is an owner and a name of safe characters around one slash. */
  lemma RepoIff(s: string)
    ensures IsRepo(s) <==> exists owner, repo :: OwnerAndRepo(s, owner, repo)
  {
    if IsRepo(s) {
      var i :| 0 < i < |s| - 1 && s[i] == '/' && forall j :: 0 <= j < |s| && j != i ==> IsSafeChar(s[j]);
      RepoSplits(s, i);
    }
    if owner, repo :| OwnerAndRepo(s, owner, repo) {
      RepoJoins(s, owner, repo);
    }
  }

  lemma RepoSplits(s: string, i: nat)
    requires 0 < i < |s| - 1 && s[i] == '/' && forall j :: 0 <= j < |s| && j != i ==> IsSafeChar(s[j])
    ensures OwnerAndRepo(s, s[..i], s[i + 1..])
  {
    assert s == s[..i] + "/" + s[i + 1..];
    forall j | 0 <= j < |s| && j != i ensures SafeChar(s[j]) {
      SafeCharIff(s[j]);
    }
  }

  lemma RepoJoins(s: string, owner: string, repo: string)
    requires OwnerAndRepo(s, owner, repo)
    ensures IsRepo(s)
  {
    var i := |owner|;
    forall j | 0 <= j < |s| && j != i ensures IsSafeChar(s[j]) {
      assert s[j] == if j < i then owner[j] else repo[j - i - 1];
      SafeCharIff(s[j]);
    }
    assert s[i] == '/' && 0 < i < |s| - 1;
  }

  // ----- the fetched object

  predicate AuthorInOrder(comment: Object) {
    && Replay.IsCount(Get(comment, Id)) && Get(comment, User).Obj?
    && Replay.IsCount(Get(Get(comment, User).fields, Id))
    && Replay.IsText(Get(Get(comment, User).fields, Login)) && Replay.IsText(Get(Get(comment, User).fields, Type))
  }

  /** Created within `minutes` of the commit time, if one was given. */
  predicate CloseToCommit(env: Replay.Env, args: Args, created: int, minutes: int) {
    (args.committedAt.Some? && args.committedAt.value != "") ==>
      && env.time(args.committedAt.value).Some?
      && var t := env.time(args.committedAt.value).value;
         t - minutes * 60_000_000 <= created <= t + minutes * 60_000_000
  }

  predicate TimesInOrder(env: Replay.Env, args: Args, comment: Object) {
    && Get(comment, CreatedAt).Str? && Get(comment, UpdatedAt).Str?
    && env.time(Get(comment, CreatedAt).s).Some?
    && env.time(Get(comment, UpdatedAt).s) == env.time(Get(comment, CreatedAt).s)
    && ((args.mode == "normal" && CloseToCommit(env, args, env.time(Get(comment, CreatedAt).s).value, 5)) ||
        (args.mode in {"degraded", "recovery"} &&
         CloseToCommit(env, args, env.time(Get(comment, CreatedAt).s).value, 15)))
  }

  lemma AuthorMeans(comment: Object)
    ensures CheckAuthor(comment).Ok? <==> AuthorInOrder(comment)
  {
  }

  lemma TimesMean(env: Replay.Env, args: Args, comment: Object)
    ensures CheckTimes(env, args, comment).Ok? <==> TimesInOrder(env, args, comment)
  {
  }

  lemma LabelledOnMatch(args: Args, marker: map<string, string>)
    requires AssertMarkerMatches(args, marker).Ok?
    ensures HashLabel(args.payloadHash).Ok?
  {
  }

  /** Exactly when a fetched comment is verified. */
  lemma VerifiedIff(env: Replay.Env, sha: string -> string, args: Args, comment: Object)
    ensures VerifyComment(env, sha, args, comment).Ok? <==>
            && Replay.IsText(Get(comment, Body)) && ParseMarker(Get(comment, Body).s).Ok?
            && AssertMarkerMatches(args, ParseMarker(Get(comment, Body).s).value).Ok?
            && AuthorInOrder(comment) && TimesInOrder(env, args, comment)
  {
    AuthorMeans(comment);
    TimesMean(env, args, comment);
    if Replay.IsText(Get(comment, Body)) && ParseMarker(Get(comment, Body).s).Ok? {
      var marker := ParseMarker(Get(comment, Body).s).value;
      if AssertMarkerMatches(args, marker).Ok? {
        LabelledOnMatch(args, marker);
      }
    }
  }

  /** A comment rendered for one command line verifies against exactly the command lines with the
      same seven fields, as long as the fetched object is in order. */
  lemma RenderedVerifiesIff(env: Replay.Env, sha: string -> string, args: Args, body: string, other: Args,
                            comment: Object)
    requires RenderBody(args) == Ok(body) && CleanArgs(args) && Get(comment, Body) == Str(body)
    ensures VerifyComment(env, sha, other, comment).Ok? <==>
            SameFields(args, other) && AuthorInOrder(comment) && TimesInOrder(env, other, comment)
  {
    RenderedMatchesIff(args, other, body);
    VerifiedIff(env, sha, other, comment);
  }

  /** What the binding of a verified comment says: where from the command line, who and when from
      the fetched object, and the hash of its body. */
  lemma BindingSays(env: Replay.Env, sha: string -> string, args: Args, comment: Object, b: Object)
    requires VerifyComment(env, sha, args, comment) == Ok(b)
    ensures Get(b, Surface) == Str("github_issue_comment")
    ensures Get(b, Repository) == Str(args.repo) && Get(b, Issue) == Num(args.issue)
    ensures Get(b, CommentId) == Get(comment, Id) && Get(comment, User).Obj?
    ensures Get(b, AuthorId) == Get(Get(comment, User).fields, Id)
    ensures Get(b, AuthorLogin) == Get(Get(comment, User).fields, Login)
    ensures Get(b, AuthorType) == Get(Get(comment, User).fields, Type)
    ensures Get(b, CreatedAt) == Get(comment, CreatedAt) && Get(b, UpdatedAt) == Get(comment, UpdatedAt)
    ensures Get(comment, Body).Str? && Get(b, RawBodyHash) == Str("sha256:" + sha(Get(comment, Body).s))
    ensures exists h :: Replay.Spells(args.payloadHash, h) && Get(b, PayloadHash) == Str("sha256:" + h)
    ensures Get(b, VerificationMode) == Str(args.mode)
    ensures Get(b, ToleranceMinutes) == Num(if args.mode == "normal" then 5 else 15)
  {
    VerifiedParts(env, sha, args, comment, b);
    var user, h := Get(comment, User).fields, Replay.HashDigits(args.payloadHash).value;
    Replay.DigitsMean(args.payloadHash);
    assert Replay.Spells(args.payloadHash, h);
    BindingPeople(args, Get(comment, Id).n, Get(user, Id).n, Get(user, Login).s, Get(user, Type).s,
                  Get(comment, CreatedAt), Get(comment, UpdatedAt), Replay.Label(sha(Get(comment, Body).s)),
                  Replay.Label(h), Replay.Tolerance(args.mode).value);
    BindingFacts(args, Get(comment, Id).n, Get(user, Id).n, Get(user, Login).s, Get(user, Type).s,
                 Get(comment, CreatedAt), Get(comment, UpdatedAt), Replay.Label(sha(Get(comment, Body).s)),
                 Replay.Label(h), Replay.Tolerance(args.mode).value);
  }

  // ----- the rendered text

  /** A body is rendered exactly for a safe repository, a known mode and a readable hash. */
  lemma RenderedIff(args: Args)
    ensures RenderBody(args).Ok? <==>
            && IsRepo(args.repo) && args.mode in {"normal", "degraded", "recovery"}
            && exists h :: Replay.Spells(args.payloadHash, h)
  {
    Replay.DigitsMean(args.payloadHash);
    if Replay.HashDigits(args.payloadHash).Some? {
      assert Replay.Spells(args.payloadHash, Replay.HashDigits(args.payloadHash).value);
    }
  }

  function Line(key: string, value: string): string {
    "\n" + (key + ": " + value)
  }

  lemma LinesSnoc(fields: seq<Field>, f: Field, more: seq<Field>)
    requires more == fields + [f]
    ensures LinesText(more) == LinesText(fields) + Line(f.key, f.value)
  {
    assert more[..|more| - 1] == fields;
  }

  /** The seven fields as lines of the marker, and as items of the list below it. */
  function MarkerLines(args: Args, h: string): string {
    Line("repository", args.repo) + Line("issue", Decimal(args.issue))
    + Line("event_uuid", args.eventUuid) + Line("event_type", args.eventType)
    + Line("writer_role", args.writerRole) + Line("payload_hash", "sha256:" + h)
    + Line("verification_mode", args.mode)
  }

  function Items(args: Args, h: string): string {
    Line("- repository", args.repo) + Line("- issue", Decimal(args.issue))
    + Line("- event_uuid", args.eventUuid) + Line("- event_type", args.eventType)
    + Line("- writer_role", args.writerRole) + Line("- payload_hash", "sha256:" + h)
    + Line("- verification_mode", args.mode)
  }

  /** The whole body as it is written, line by line. */
  lemma RenderedText(args: Args, body: string, h: string)
    requires RenderBody(args) == Ok(body) && Replay.Spells(args.payloadHash, h)
    ensures body == "<!-- coordination-ledger-materialized-comment:v1" + MarkerLines(args, h) + "\n" + "-->"
                    + ("\n\nCoordination Ledger materialized comment v1\n" + Items(args, h) + "\n")
  {
    Replay.DigitsMean(args.payloadHash);
    FieldLines(args, h);
    ListingIs(args, h);
  }

  lemma ListingIs(args: Args, h: string)
    ensures Listing(args, "sha256:" + h) ==
            "\n\nCoordination Ledger materialized comment v1\n" + Items(args, h) + "\n"
  {
    var title := "\n\nCoordination Ledger materialized comment v1\n";
    var l1, l2 := Line("- repository", args.repo), Line("- issue", Decimal(args.issue));
    var l3, l4 := Line("- event_uuid", args.eventUuid), Line("- event_type", args.eventType);
    var t4 := title + (l1 + l2 + l3 + l4);
    FirstItems(args, title);
    ItemAdded(title, l1 + l2 + l3 + l4, "- writer_role", args.writerRole, "\n- writer_role: ", t4);
    var t5 := t4 + "\n- writer_role: " + args.writerRole;
    var l5, l6 := Line("- writer_role", args.writerRole), Line("- payload_hash", "sha256:" + h);
    ItemAdded(title, l1 + l2 + l3 + l4 + l5, "- payload_hash", "sha256:" + h, "\n- payload_hash: ", t5);
    var t6 := t5 + "\n- payload_hash: " + ("sha256:" + h);
    ItemAdded(title, l1 + l2 + l3 + l4 + l5 + l6, "- verification_mode", args.mode, "\n- verification_mode: ", t6);
  }

  lemma FirstItems(args: Args, title: string)
    ensures title + "\n- repository: " + args.repo + "\n- issue: " + Decimal(args.issue)
            + "\n- event_uuid: " + args.eventUuid + "\n- event_type: " + args.eventType ==
            title + (Line("- repository", args.repo) + Line("- issue", Decimal(args.issue))
                     + Line("- event_uuid", args.eventUuid) + Line("- event_type", args.eventType))
  {
    var l1, l2 := Line("- repository", args.repo), Line("- issue", Decimal(args.issue));
    ItemAdded(title, "", "- repository", args.repo, "\n- repository: ", title);
    var t1 := title + "\n- repository: " + args.repo;
    ItemAdded(title, l1, "- issue", Decimal(args.issue), "\n- issue: ", t1);
    var t2 := t1 + "\n- issue: " + Decimal(args.issue);
    ItemAdded(title, l1 + l2, "- event_uuid", args.eventUuid, "\n- event_uuid: ", t2);
    var l3, t3 := Line("- event_uuid", args.eventUuid), t2 + "\n- event_uuid: " + args.eventUuid;
    ItemAdded(title, l1 + l2 + l3, "- event_type", args.eventType, "\n- event_type: ", t3);
  }

  lemma ItemAdded(title: string, items: string, key: string, value: string, start: string, text: string)
    requires text == title + items && start == "\n" + (key + ": ")
    ensures text + start + value == title + (items + Line(key, value))
  {
    assert Line(key, value) == start + value;
  }

  lemma FieldLines(args: Args, h: string)
    ensures LinesText(MarkerFields(args, "sha256:" + h)) == MarkerLines(args, h)
  {
    var f := MarkerFields(args, "sha256:" + h);
    FirstLines(f[0], f[1], f[2], f[3]);
    LinesSnoc([f[0], f[1], f[2], f[3]], f[4], [f[0], f[1], f[2], f[3], f[4]]);
    LinesSnoc([f[0], f[1], f[2], f[3], f[4]], f[5], [f[0], f[1], f[2], f[3], f[4], f[5]]);
    LinesSnoc([f[0], f[1], f[2], f[3], f[4], f[5]], f[6], f);
  }

  lemma FirstLines(a: Field, b: Field, c: Field, d: Field)
    ensures LinesText([a, b, c, d]) ==
            Line(a.key, a.value) + Line(b.key, b.value) + Line(c.key, c.value) + Line(d.key, d.value)
  {
    LinesSnoc([], a, [a]);
    LinesSnoc([a], b, [a, b]);
    LinesSnoc([a, b], c, [a, b, c]);
    LinesSnoc([a, b, c], d, [a, b, c, d]);
  }
}
