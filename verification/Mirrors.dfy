/** The mirror writers (scripts/coordination/apply-ledger-mirrors.py) and the reader that later
    validates pull request bodies (scripts/coordination/validate-pr-mirrors.py). */
module Mirrors {
  import opened Json
  import opened Markers
  import opened Text
  import Replay

  const AGENT_MARKER := "<!-- agent-state:v1"
  const AGENT_KEYS := ["status", "claim_session", "claim_worktree", "claim_branch", "claim_updated_at", "expires_at"]
  const PR_MARKER := "<!-- coordination-ledger-pr-mirror:v1"
  const PR_KEYS := ["coordination_state", "event_uuid", HASH_KEY, "session"]
  const HASH_KEY := "event_hash"

  datatype Refusal = Marker(why: Trouble) | NoBlock | Stale | MissingValue | BadHash

  predicate HasAll(values: map<string, string>, keys: seq<string>) {
    forall k :: k in keys ==> k in values
  }

  /** The fields a renderer writes, in its fixed order. */
  function Chosen(keys: seq<string>, values: map<string, string>): seq<Field>
    requires HasAll(values, keys)
  {
    if keys == [] then []
    else
      var k := keys[|keys| - 1];
      Chosen(keys[..|keys| - 1], values) + [Field(k, values[k])]
  }

  function Restrict(values: map<string, string>, keys: seq<string>): map<string, string> {
    map k | k in keys && k in values :: values[k]
  }

  /** `parsed.get(key, "")` */
  function Actual(parsed: map<string, string>, key: string): string {
    if key in parsed then parsed[key] else ""
  }

  function Splice(current: string, b: Block, block: string): string
    requires b.start <= b.end <= |current|
  {
    current[..b.start] + block + current[b.end..]
  }

  // ----- update_issue_body

  predicate Agrees(parsed: map<string, string>, guard: map<string, string>) {
    forall k :: k in guard ==> Actual(parsed, k) == guard[k]
  }

  function UpdateIssueBody(current: string, guard: map<string, string>, values: map<string, string>)
    : Result<string, Refusal>
  {
    match ParseBlock(current, AGENT_MARKER, false)
    case Fail(why) => Fail(Marker(why))
    case Ok(None) => Fail(NoBlock)
    case Ok(Some(b)) =>
      if !Agrees(b.fields, guard) then Fail(Stale)
      else if !HasAll(values, AGENT_KEYS) then Fail(MissingValue)
      else Ok(Splice(current, b, RenderBlock(AGENT_MARKER, Chosen(AGENT_KEYS, values))))
  }

  // ----- update_pr_body

  /** The values as `render_pr_marker` writes them. */
  function Prepared(values: map<string, string>): Result<map<string, string>, Refusal>
  {
    if !HasAll(values, PR_KEYS) then Fail(MissingValue)
    else
      match Replay.Labelled(values[HASH_KEY])
      case None => Fail(BadHash)
      case Some(h) => Ok(values[HASH_KEY := h])
  }

  predicate PrAgrees(parsed: map<string, string>, guard: map<string, string>) {
    forall k :: k in guard ==> PrSame(k, Actual(parsed, k), guard[k])
  }

  predicate PrSame(key: string, actual: string, expected: string) {
    if key == HASH_KEY && actual != ""
    then Replay.Labelled(actual).Some? && Replay.Labelled(actual) == Replay.Labelled(expected)
    else actual == expected
  }

  function UpdatePrBody(current: string, guard: map<string, string>, values: map<string, string>)
    : Result<string, Refusal>
  {
    match ParseBlock(current, PR_MARKER, false)
    case Fail(why) => Fail(Marker(why))
    case Ok(found) =>
      (match Prepared(values)
       case Fail(why) => Fail(why)
       case Ok(written) =>
         var block := RenderBlock(PR_MARKER, Chosen(PR_KEYS, written));
         if found.None? then
           if guard != map[] then Fail(NoBlock) else Ok(StripRight(current) + "\n\n" + block + "\n")
         else if !PrAgrees(found.value.fields, guard) then Fail(Stale)
         else Ok(Splice(current, found.value, block)))
  }

  /** `parse_marker` of the validator */
  function ValidatorMarker(body: string): Result<map<string, string>, Refusal> {
    match ParseBlock(body, PR_MARKER, false)
    case Fail(why) => Fail(Marker(why))
    case Ok(None) => Fail(NoBlock)
    case Ok(Some(b)) => CheckedMarker(b.fields)
  }

  function CheckedMarker(parsed: map<string, string>): Result<map<string, string>, Refusal> {
    if exists k :: k in PR_KEYS && Actual(parsed, k) == "" then Fail(MissingValue)
    else
      match Replay.Labelled(Actual(parsed, HASH_KEY))
      case None => Fail(BadHash)
      case Some(h) => Ok(parsed[HASH_KEY := h])
  }

  // ----- fixed texts

  lemma KeysClean(k: string)
    requires k in AGENT_KEYS || k in PR_KEYS
    ensures CleanKey(k)
  {
    WordIsClean(k);
  }

  lemma AgentMarkerPlain()
    ensures '>' !in AGENT_MARKER
  {
  }

  lemma PrMarkerPlain()
    ensures '>' !in PR_MARKER
  {
  }

  lemma PrMarkerOneLine()
    ensures '\n' !in PR_MARKER && PR_MARKER != ""
  {
  }

  lemma {:induction false} ChosenIs(keys: seq<string>, values: map<string, string>)
    requires HasAll(values, keys)
    ensures AsMap(Chosen(keys, values)) == Restrict(values, keys)
  {
    if keys != [] {
      var n := |keys| - 1;
      assert forall k :: k in keys <==> k in keys[..n] || k == keys[n];
      ChosenIs(keys[..n], values);
    }
  }

  ghost predicate CleanValues(values: map<string, string>, keys: seq<string>) {
    forall k :: k in keys && k in values ==> CleanValue(values[k])
  }

  lemma {:induction false} ChosenClean(keys: seq<string>, values: map<string, string>)
    requires HasAll(values, keys) && CleanValues(values, keys) && forall k :: k in keys ==> CleanKey(k)
    ensures Clean(Chosen(keys, values), false)
  {
    if keys != [] {
      ChosenClean(keys[..|keys| - 1], values);
    }
  }

  // ----- replacing a block

  lemma OccursInPrefix(s: string, t: string, sub: string, i: nat, n: nat)
    requires n <= |s| && n <= |t| && s[..n] == t[..n] && i + |sub| <= n
    ensures OccursAt(s, sub, i) <==> OccursAt(t, sub, i)
  {
    assert s[i..i + |sub|] == s[..n][i..i + |sub|];
    assert t[i..i + |sub|] == t[..n][i..i + |sub|];
  }

  /** A text that begins like the old one up to and including its first marker has its first
      marker at the same place. */
  lemma SameStart(s: string, t: string, marker: string)
    requires Find(s, marker, 0).Some?
    requires var n := Find(s, marker, 0).value + |marker|; n <= |t| && s[..n] == t[..n]
    ensures Find(t, marker, 0) == Find(s, marker, 0)
  {
    var start := Find(s, marker, 0).value;
    FindMeans(s, marker, 0);
    OccursInPrefix(s, t, marker, start, start + |marker|);
    forall j | 0 <= j < start ensures !OccursAt(t, marker, j) {
      OccursInPrefix(s, t, marker, j, start + |marker|);
    }
    FindFirst(t, marker, 0, start);
  }

  lemma SpliceKeeps(current: string, b: Block, marker: string, rest: string)
    requires b.start <= b.end <= |current| && OccursAt(current, marker, b.start)
    ensures var next := Splice(current, b, marker + rest);
            && b.start + |marker| <= |next|
            && next[..b.start + |marker|] == current[..b.start + |marker|]
            && next[..b.start] == current[..b.start]
            && next[b.start + |marker + rest|..] == current[b.end..]
  {
    var next := Splice(current, b, marker + rest);
    assert current[..b.start + |marker|] == current[..b.start] + marker;
    assert next[..b.start + |marker|] == current[..b.start] + marker;
  }

  /** Replacing a block keeps the text around it, and reading the result gives the new fields
      at the same start. */
  lemma Rewritten(current: string, b: Block, marker: string, fields: seq<Field>, block: string, next: string)
    requires Find(current, marker, 0) == Some(b.start) && b.start <= b.end <= |current|
    requires '>' !in marker && Clean(fields, false) && block == RenderBlock(marker, fields)
    requires next == Splice(current, b, block)
    ensures var end := b.start + |block|;
            && ParseBlock(next, marker, false) == Ok(Some(Block(b.start, end, AsMap(fields))))
            && end <= |next|
            && next[..b.start] == current[..b.start]
            && next[end..] == current[b.end..]
  {
    var rest := BlockStarts(marker, fields, block);
    SplicedStart(current, b, marker, block, rest);
    var pre, post := current[..b.start], current[b.end..];
    FoundReadBack(next, pre, marker, fields, block, post, Block(b.start, b.start + |block|, AsMap(fields)));
  }

  lemma BlockStarts(marker: string, fields: seq<Field>, block: string) returns (rest: string)
    requires block == RenderBlock(marker, fields)
    ensures block == marker + rest
  {
    rest := LinesText(fields) + "\n" + END;
  }

  lemma FoundReadBack(body: string, pre: string, marker: string, fields: seq<Field>, block: string, post: string,
                      b: Block)
    requires block == RenderBlock(marker, fields) && body == pre + block + post
    requires Find(body, marker, 0) == Some(|pre|)
    requires '>' !in marker && Clean(fields, false)
    requires b == Block(|pre|, |pre| + |block|, AsMap(fields))
    ensures ParseBlock(body, marker, false) == Ok(Some(b))
  {
    BlockReadBack(body, pre, marker, fields, block, post, false, b);
  }

  lemma ParsedAt(current: string, marker: string, b: Block)
    requires ParseBlock(current, marker, false) == Ok(Some(b))
    ensures Find(current, marker, 0) == Some(b.start)
  {
  }

  lemma SplicedStart(current: string, b: Block, marker: string, block: string, rest: string)
    requires Find(current, marker, 0) == Some(b.start) && b.start <= b.end <= |current|
    requires block == marker + rest
    ensures var next := Splice(current, b, block);
            && Find(next, marker, 0) == Some(b.start)
            && b.start + |block| <= |next|
            && next[..b.start] == current[..b.start]
            && next[b.start + |block|..] == current[b.end..]
  {
    SpliceKeeps(current, b, marker, rest);
    SameStart(current, Splice(current, b, block), marker);
  }

  /** A body with a marker block for `values`. */
  ghost predicate Carries(body: string, marker: string, values: map<string, string>) {
    exists start: nat, end: nat :: ParseBlock(body, marker, false) == Ok(Some(Block(start, end, values)))
  }

  /** The text outside the marker block is the same in both bodies. */
  ghost predicate SameAround(current: string, next: string, marker: string) {
    var before, after := ParseBlock(current, marker, false), ParseBlock(next, marker, false);
    && before.Ok? && before.value.Some? && after.Ok? && after.value.Some?
    && after.value.value.start == before.value.value.start
    && next[..after.value.value.start] == current[..before.value.value.start]
    && next[after.value.value.end..] == current[before.value.value.end..]
  }

  lemma IssueUpdateReadBack(current: string, guard: map<string, string>, values: map<string, string>, next: string)
    requires UpdateIssueBody(current, guard, values) == Ok(next)
    requires CleanValues(values, AGENT_KEYS)
    ensures Carries(next, AGENT_MARKER, Restrict(values, AGENT_KEYS))
    ensures SameAround(current, next, AGENT_MARKER)
  {
    var b := ParseBlock(current, AGENT_MARKER, false).value.value;
    var fields := Chosen(AGENT_KEYS, values);
    forall k | k in AGENT_KEYS ensures CleanKey(k) {
      KeysClean(k);
    }
    AgentMarkerPlain();
    ChosenClean(AGENT_KEYS, values);
    ChosenIs(AGENT_KEYS, values);
    ParsedAt(current, AGENT_MARKER, b);
    Rewritten(current, b, AGENT_MARKER, fields, RenderBlock(AGENT_MARKER, fields), next);
  }

  /** After a write, the next one goes through exactly when it expects what was written. */
  lemma NextIssueUpdate(current: string, guard: map<string, string>, values: map<string, string>, next: string,
                        guard': map<string, string>, values': map<string, string>)
    requires UpdateIssueBody(current, guard, values) == Ok(next)
    requires CleanValues(values, AGENT_KEYS)
    ensures UpdateIssueBody(next, guard', values').Ok? <==>
            && HasAll(values', AGENT_KEYS)
            && forall k :: k in guard' ==> guard'[k] == if k in AGENT_KEYS then values[k] else ""
  {
    IssueUpdateReadBack(current, guard, values, next);
    var written := Restrict(values, AGENT_KEYS);
    assert forall k :: Actual(written, k) == if k in AGENT_KEYS then values[k] else "";
  }

  // ----- pull request bodies

  lemma {:induction false} StripRightIsPrefix(s: string)
    ensures StripRight(s) <= s
  {
    if s != [] && IsSpace(s[|s| - 1]) {
      StripRightIsPrefix(s[..|s| - 1]);
    }
  }

  /** A block appended behind a text without the marker is the first one. */
  lemma AppendedStart(pre: string, marker: string, rest: string, i: nat)
    requires marker != "" && '\n' !in marker && forall j :: !OccursAt(pre, marker, j)
    requires i < |pre| + 2
    ensures !OccursAt(pre + "\n\n" + marker + rest, marker, i)
  {
    var s := pre + "\n\n" + marker + rest;
    if i + |marker| <= |pre| {
      OccursInPrefix(s, pre, marker, i, |pre|);
    } else if i + |marker| <= |s| {
      var k := if i < |pre| then |pre| else i;
      assert s[k] == '\n' && s[i..i + |marker|][k - i] == s[k];
      assert marker[k - i] in marker;
    }
  }

  lemma Appended(current: string, r: string, marker: string, fields: seq<Field>, block: string, next: string)
    requires Find(current, marker, 0).None? && marker != "" && '\n' !in marker && r == StripRight(current)
    requires '>' !in marker && Clean(fields, false) && block == RenderBlock(marker, fields)
    requires next == r + "\n\n" + block + "\n"
    ensures ParseBlock(next, marker, false) == Ok(Some(Block(|r| + 2, |r| + 2 + |block|, AsMap(fields))))
  {
    var rest := BlockStarts(marker, fields, block);
    AppendedBlockFound(current, marker, block, rest, next);
    AppendedReadBack(r, marker, fields, block, next);
  }

  lemma AppendedReadBack(r: string, marker: string, fields: seq<Field>, block: string, next: string)
    requires next == r + "\n\n" + block + "\n" && Find(next, marker, 0) == Some(|r| + 2)
    requires '>' !in marker && Clean(fields, false) && block == RenderBlock(marker, fields)
    ensures ParseBlock(next, marker, false) == Ok(Some(Block(|r| + 2, |r| + 2 + |block|, AsMap(fields))))
  {
    FoundReadBack(next, r + "\n\n", marker, fields, block, "\n", Block(|r| + 2, |r| + 2 + |block|, AsMap(fields)));
  }

  lemma Reassociate(a: string, b: string, c: string, d: string)
    ensures a + (b + c) + d == a + b + (c + d)
  {
  }

  lemma AppendedBlockFound(current: string, marker: string, block: string, rest: string, next: string)
    requires Find(current, marker, 0).None? && marker != "" && '\n' !in marker && block == marker + rest
    requires next == StripRight(current) + "\n\n" + block + "\n"
    ensures Find(next, marker, 0) == Some(|StripRight(current)| + 2)
  {
    AppendedFound(current, marker, rest + "\n");
    Reassociate(StripRight(current) + "\n\n", marker, rest, "\n");
  }

  lemma AppendedFound(current: string, marker: string, rest: string)
    requires Find(current, marker, 0).None? && marker != "" && '\n' !in marker
    ensures Find(StripRight(current) + "\n\n" + marker + rest, marker, 0) == Some(|StripRight(current)| + 2)
  {
    var r := StripRight(current);
    var next := r + "\n\n" + marker + rest;
    StripRightIsPrefix(current);
    FindMeans(current, marker, 0);
    forall j ensures !OccursAt(r, marker, j) {
      if OccursAt(r, marker, j) {
        OccursInPrefix(r, current, marker, j, |r|);
      }
    }
    forall i | 0 <= i < |r| + 2 ensures !OccursAt(next, marker, i) {
      AppendedStart(r, marker, rest, i);
    }
    assert next[|r| + 2..|r| + 2 + |marker|] == marker;
    FindFirst(next, marker, 0, |r| + 2);
  }

  lemma LabelIsClean(hash: string)
    requires Replay.Labelled(hash).Some?
    ensures CleanValue(Replay.Labelled(hash).value) && Replay.Labelled(hash).value != ""
    ensures Replay.Labelled(Replay.Labelled(hash).value) == Replay.Labelled(hash)
  {
    var h := Replay.HashDigits(hash).value;
    Replay.LabelledDigits(h);
    var s := Replay.Labelled(hash).value;
    forall i | 0 <= i < |s| ensures s[i] != '>' && !IsSpace(s[i]) {
      if i >= 7 {
        assert s[i] == h[i - 7];
        assert IsHexDigit(h[i - 7]);
      }
    }
  }

  lemma PreparedClean(values: map<string, string>)
    requires CleanValues(values, PR_KEYS) && Prepared(values).Ok?
    ensures HasAll(Prepared(values).value, PR_KEYS) && CleanValues(Prepared(values).value, PR_KEYS)
    ensures Clean(Chosen(PR_KEYS, Prepared(values).value), false)
  {
    assert HASH_KEY == PR_KEYS[2];
    LabelIsClean(values[HASH_KEY]);
    forall k | k in PR_KEYS ensures CleanKey(k) {
      KeysClean(k);
    }
    ChosenClean(PR_KEYS, Prepared(values).value);
  }

  function Written(values: map<string, string>): map<string, string>
    requires Prepared(values).Ok?
  {
    Restrict(Prepared(values).value, PR_KEYS)
  }

  /** Whether the block was replaced or appended, it reads back as what was written. */
  lemma PrUpdateReadBack(current: string, guard: map<string, string>, values: map<string, string>, next: string)
    requires UpdatePrBody(current, guard, values) == Ok(next)
    requires CleanValues(values, PR_KEYS)
    ensures Prepared(values).Ok? && Carries(next, PR_MARKER, Written(values))
    ensures if ParseBlock(current, PR_MARKER, false) == Ok(None) then StripRight(current) <= next
            else SameAround(current, next, PR_MARKER)
  {
    var fields := Chosen(PR_KEYS, Prepared(values).value);
    PreparedClean(values);
    ChosenIs(PR_KEYS, Prepared(values).value);
    PrBlockReadBack(current, ParseBlock(current, PR_MARKER, false).value, fields, RenderBlock(PR_MARKER, fields), next);
  }

  lemma PrBlockReadBack(current: string, found: Option<Block>, fields: seq<Field>, block: string, next: string)
    requires ParseBlock(current, PR_MARKER, false) == Ok(found)
    requires Clean(fields, false) && block == RenderBlock(PR_MARKER, fields)
    requires next == if found.None? then StripRight(current) + "\n\n" + block + "\n"
                     else Splice(current, found.value, block)
    ensures Carries(next, PR_MARKER, AsMap(fields))
    ensures if found.None? then StripRight(current) <= next else SameAround(current, next, PR_MARKER)
  {
    PrMarkerPlain();
    if found.None? {
      PrMarkerOneLine();
      Appended(current, StripRight(current), PR_MARKER, fields, block, next);
    } else {
      ParsedAt(current, PR_MARKER, found.value);
      Rewritten(current, found.value, PR_MARKER, fields, block, next);
    }
  }

  /** After a write, the next one goes through exactly when it is complete and expects what was
      written, the hash in either spelling. */
  lemma NextPrUpdate(current: string, guard: map<string, string>, values: map<string, string>, next: string,
                     guard': map<string, string>, values': map<string, string>)
    requires UpdatePrBody(current, guard, values) == Ok(next)
    requires CleanValues(values, PR_KEYS)
    ensures Prepared(values).Ok?
    ensures UpdatePrBody(next, guard', values').Ok? <==>
            && Prepared(values').Ok?
            && forall k :: k in guard' ==>
                 if k == HASH_KEY then Replay.Labelled(guard'[k]) == Replay.Labelled(values[k])
                 else guard'[k] == if k in PR_KEYS then values[k] else ""
  {
    PrUpdateReadBack(current, guard, values, next);
    WrittenAgrees(values, guard');
  }

  /** An expectation agrees with what was written exactly when it names the written values. */
  lemma WrittenAgrees(values: map<string, string>, guard: map<string, string>)
    requires Prepared(values).Ok?
    ensures PrAgrees(Written(values), guard) <==>
            forall k :: k in guard ==>
              if k == HASH_KEY then Replay.Labelled(guard[k]) == Replay.Labelled(values[k])
              else guard[k] == if k in PR_KEYS then values[k] else ""
  {
    var written := Written(values);
    assert HASH_KEY == PR_KEYS[2];
    LabelIsClean(values[HASH_KEY]);
    forall k | k in guard
      ensures PrSame(k, Actual(written, k), guard[k]) <==>
              if k == HASH_KEY then Replay.Labelled(guard[k]) == Replay.Labelled(values[k])
              else guard[k] == if k in PR_KEYS then values[k] else ""
    {
    }
  }

  /** The validator reads the same fields, and refuses only blank ones. */
  lemma ValidatorReadsBack(current: string, guard: map<string, string>, values: map<string, string>, next: string)
    requires UpdatePrBody(current, guard, values) == Ok(next)
    requires CleanValues(values, PR_KEYS)
    ensures Prepared(values).Ok?
    ensures ValidatorMarker(next) ==
            if forall k :: k in PR_KEYS ==> values[k] != "" then Ok(Written(values)) else Fail(MissingValue)
  {
    PrUpdateReadBack(current, guard, values, next);
    WrittenChecked(values);
  }

  lemma WrittenChecked(values: map<string, string>)
    requires Prepared(values).Ok?
    ensures CheckedMarker(Written(values)) ==
            if forall k :: k in PR_KEYS ==> values[k] != "" then Ok(Written(values)) else Fail(MissingValue)
  {
    var written := Written(values);
    assert HASH_KEY == PR_KEYS[2];
    LabelIsClean(values[HASH_KEY]);
    assert forall k :: k in PR_KEYS ==> (Actual(written, k) == "" <==> values[k] == "");
    assert written[HASH_KEY := written[HASH_KEY]] == written;
  }
}
