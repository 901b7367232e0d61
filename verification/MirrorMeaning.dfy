/** What the marker readers and writers do to arbitrary texts, spelled out
    (scripts/coordination/apply-ledger-mirrors.py, scripts/coordination/validate-pr-mirrors.py). */
module MirrorMeaning {
  import opened Json
  import opened Text
  import opened Markers
  import opened Mirrors
  import Replay

  // ----- reading lines

  predicate AllSpace(s: string) {
    forall i :: 0 <= i < |s| ==> IsSpace(s[i])
  }

  /** The characters that break lines and those that are stripped, by code point. */
  lemma SpaceIff(c: char)
    ensures IsBreak(c) <==> c as int in {10, 11, 12, 13, 28, 29, 30, 133, 8232, 8233}
    ensures IsSpace(c) <==>
            c as int in {9, 10, 11, 12, 13, 28, 29, 30, 31, 32, 133, 160, 5760, 8192, 8193, 8194, 8195, 8196, 8197,
                         8198, 8199, 8200, 8201, 8202, 8232, 8233, 8239, 8287, 12288}
  {
  }

  /** Stripping removes space at both ends and stops at the first other character. */
  lemma {:induction false} StripMeans(s: string) returns (before: string, after: string)
    ensures s == before + Strip(s) + after && AllSpace(before) && AllSpace(after) && Trimmed(Strip(s))
  {
    before, after := "", "";
    if s != "" {
      if IsSpace(s[0]) {
        var b;
        b, after := StripMeans(s[1..]);
        before := [s[0]] + b;
        FrontSpace(s, s[0], s[1..], b, Strip(s), after);
      } else if IsSpace(s[|s| - 1]) {
        var a;
        before, a := StripMeans(s[..|s| - 1]);
        after := a + [s[|s| - 1]];
        SplitLast(s);
        BackSpace(s, s[..|s| - 1], s[|s| - 1], before, Strip(s), a);
      }
    }
  }

  lemma FrontSpace(s: string, c: char, rest: string, before: string, middle: string, after: string)
    requires s != "" && c == s[0] && rest == s[1..] && rest == before + middle + after
    ensures s == ([c] + before) + middle + after
  {
  }

  lemma BackSpace(s: string, rest: string, c: char, before: string, middle: string, after: string)
    requires s == rest + [c] && rest == before + middle + after
    ensures s == before + middle + (after + [c])
  {
  }

  lemma {:induction false} ColonIsFirst(s: string)
    requires ':' in s
    ensures ':' !in s[..ColonAt(s)]
  {
    if s[0] != ':' {
      ColonIsFirst(s[1..]);
      assert s[..ColonAt(s)] == [s[0]] + s[1..][..ColonAt(s[1..])];
    }
  }

  /** A line is skipped when blank and refused without a colon; otherwise the first colon separates
      the key from the value, both stripped. */
  lemma ReadLineMeans(raw: string)
    ensures ReadLine(raw).Skip? <==> Strip(raw) == ""
    ensures ReadLine(raw).NoColon? <==> Strip(raw) != "" && ':' !in Strip(raw)
    ensures ReadLine(raw).Pair? ==>
              exists key, value :: SplitsAt(Strip(raw), key, value) && ReadLine(raw) == Pair(Strip(key), Strip(value))
  {
    var line := Strip(raw);
    if line != "" && ':' in line {
      var key, value := line[..ColonAt(line)], line[ColonAt(line) + 1..];
      ColonIsFirst(line);
      assert line == key + ":" + value;
      assert SplitsAt(line, key, value);
    }
  }

  predicate SplitsAt(line: string, key: string, value: string) {
    line == key + ":" + value && ':' !in key
  }

  /** The line makes the whole block unreadable. */
  predicate Refuses(line: Reading, strict: bool) {
    line.NoColon? || (strict && line.Pair? && (line.key == "" || line.value == ""))
  }

  /** Line `i` is the last to set the key. */
  ghost predicate LastSets(lines: seq<string>, key: string, i: int) {
    && 0 <= i < |lines| && ReadLine(lines[i]).Pair? && ReadLine(lines[i]).key == key
    && forall j :: i < j < |lines| ==> !(ReadLine(lines[j]).Pair? && ReadLine(lines[j]).key == key)
  }

  ghost predicate Dictionary(lines: seq<string>, m: map<string, string>) {
    && (forall key, i :: LastSets(lines, key, i) ==> key in m && m[key] == ReadLine(lines[i]).value)
    && (forall key :: key in m ==> exists i :: LastSets(lines, key, i))
  }

  ghost predicate Refused(lines: seq<string>, strict: bool) {
    exists i :: 0 <= i < |lines| && Refuses(ReadLine(lines[i]), strict)
  }

  lemma RefusedSnoc(lines: seq<string>, init: seq<string>, strict: bool)
    requires lines != [] && init == lines[..|lines| - 1]
    ensures Refused(lines, strict) <==> Refused(init, strict) || Refuses(ReadLine(lines[|init|]), strict)
  {
    assert forall i :: 0 <= i < |init| ==> init[i] == lines[i];
  }

  ghost predicate Reads(lines: seq<string>, parsed: Option<map<string, string>>, strict: bool) {
    && (parsed.None? <==> Refused(lines, strict))
    && (parsed.Some? ==> Dictionary(lines, parsed.value))
  }

  lemma ReadsOneMore(lines: seq<string>, init: seq<string>, parsed: Option<map<string, string>>, strict: bool)
    requires lines != [] && init == lines[..|lines| - 1] && Reads(init, parsed, strict)
    ensures Reads(lines, AddLine(parsed, ReadLine(lines[|init|]), strict), strict)
  {
    RefusedSnoc(lines, init, strict);
    if parsed.Some? {
      DictionarySnoc(lines, init, parsed.value);
    }
  }

  /** The dictionary of a block: no line may refuse, and each key has the value its last line sets. */
  lemma {:induction false} FieldsMean(lines: seq<string>, strict: bool)
    ensures Reads(lines, Fields(lines, strict), strict)
  {
    if lines != [] {
      var init := lines[..|lines| - 1];
      FieldsMean(init, strict);
      ReadsOneMore(lines, init, Fields(init, strict), strict);
    }
  }

  lemma DictionarySnoc(lines: seq<string>, init: seq<string>, m: map<string, string>)
    requires lines != [] && init == lines[..|lines| - 1] && Dictionary(init, m)
    ensures var last := ReadLine(lines[|init|]);
            Dictionary(lines, if last.Pair? then m[last.key := last.value] else m)
  {
    var last := ReadLine(lines[|init|]);
    var next := if last.Pair? then m[last.key := last.value] else m;
    forall key, i | LastSets(lines, key, i) ensures key in next && next[key] == ReadLine(lines[i]).value {
      LastSetsSnoc(lines, init, key, i);
    }
    forall key | key in next ensures exists i :: LastSets(lines, key, i) {
      if last.Pair? && last.key == key {
        LastSetsSnoc(lines, init, key, |init|);
      } else {
        var i :| LastSets(init, key, i);
        LastSetsSnoc(lines, init, key, i);
      }
    }
  }

  lemma LastSetsSnoc(lines: seq<string>, init: seq<string>, key: string, i: int)
    requires lines != [] && init == lines[..|lines| - 1]
    ensures var last := ReadLine(lines[|init|]);
            LastSets(lines, key, i) <==> if last.Pair? && last.key == key then i == |init| else LastSets(init, key, i)
  {
    assert forall j :: 0 <= j < |init| ==> init[j] == lines[j];
  }

  // ----- the written text

  function Line(key: string, value: string): string {
    "\n" + (key + ": " + value)
  }

  lemma ChosenSnoc(init: seq<string>, k: string, keys: seq<string>, values: map<string, string>)
    requires keys == init + [k] && HasAll(values, keys)
    ensures HasAll(values, init) && k in values
    ensures LinesText(Chosen(keys, values)) == LinesText(Chosen(init, values)) + Line(k, values[k])
  {
    assert k in keys && forall x :: x in init ==> x in keys;
    assert keys[..|keys| - 1] == init;
    var fields := Chosen(keys, values);
    assert fields[..|fields| - 1] == Chosen(init, values);
  }

  /** The agent-state block as it is written. */
  function AgentText(values: map<string, string>): string
    requires HasAgentKeys(values)
  {
    "<!-- agent-state:v1" + Line("status", values["status"]) + Line("claim_session", values["claim_session"])
    + Line("claim_worktree", values["claim_worktree"]) + Line("claim_branch", values["claim_branch"])
    + Line("claim_updated_at", values["claim_updated_at"]) + Line("expires_at", values["expires_at"]) + "\n-->"
  }

  predicate HasAgentKeys(values: map<string, string>) {
    && "status" in values && "claim_session" in values && "claim_worktree" in values
    && "claim_branch" in values && "claim_updated_at" in values && "expires_at" in values
  }

  predicate HasPrKeys(values: map<string, string>) {
    "coordination_state" in values && "event_uuid" in values && "event_hash" in values && "session" in values
  }

  /** The pull request block as it is written, for hash digits `h`. */
  function PrText(values: map<string, string>, h: string): string
    requires HasPrKeys(values)
  {
    "<!-- coordination-ledger-pr-mirror:v1" + Line("coordination_state", values["coordination_state"])
    + Line("event_uuid", values["event_uuid"]) + Line("event_hash", "sha256:" + h) + Line("session", values["session"])
    + "\n-->"
  }

  lemma AgentKeysMean(values: map<string, string>)
    ensures HasAll(values, AGENT_KEYS) <==> HasAgentKeys(values)
  {
    assert AGENT_KEYS[0] == "status" && AGENT_KEYS[1] == "claim_session" && AGENT_KEYS[2] == "claim_worktree";
    assert AGENT_KEYS[3] == "claim_branch" && AGENT_KEYS[4] == "claim_updated_at" && AGENT_KEYS[5] == "expires_at";
  }

  lemma PrKeysMean(values: map<string, string>)
    ensures HasAll(values, PR_KEYS) <==> HasPrKeys(values)
  {
    assert PR_KEYS[0] == "coordination_state" && PR_KEYS[1] == "event_uuid";
    assert PR_KEYS[2] == "event_hash" && PR_KEYS[3] == "session";
  }

  lemma OneLineText(a: string, values: map<string, string>)
    requires HasAll(values, [a])
    ensures a in values && LinesText(Chosen([a], values)) == Line(a, values[a])
  {
    ChosenSnoc([], a, [a], values);
  }

  lemma TwoLines(a: string, b: string, values: map<string, string>)
    requires HasAll(values, [a, b])
    ensures a in values && b in values
    ensures LinesText(Chosen([a, b], values)) == Line(a, values[a]) + Line(b, values[b])
  {
    ChosenSnoc([a], b, [a, b], values);
    OneLineText(a, values);
  }

  lemma FourLines(a: string, b: string, c: string, d: string, values: map<string, string>)
    requires HasAll(values, [a, b, c, d])
    ensures a in values && b in values && c in values && d in values
    ensures LinesText(Chosen([a, b, c, d], values)) ==
            Line(a, values[a]) + Line(b, values[b]) + Line(c, values[c]) + Line(d, values[d])
  {
    ChosenSnoc([a, b, c], d, [a, b, c, d], values);
    ChosenSnoc([a, b], c, [a, b, c], values);
    TwoLines(a, b, values);
  }

  lemma SixLines(a: string, b: string, c: string, d: string, e: string, f: string, values: map<string, string>)
    requires HasAll(values, [a, b, c, d, e, f])
    ensures a in values && b in values && c in values && d in values && e in values && f in values
    ensures LinesText(Chosen([a, b, c, d, e, f], values)) ==
            Line(a, values[a]) + Line(b, values[b]) + Line(c, values[c]) + Line(d, values[d])
            + Line(e, values[e]) + Line(f, values[f])
  {
    ChosenSnoc([a, b, c, d, e], f, [a, b, c, d, e, f], values);
    ChosenSnoc([a, b, c, d], e, [a, b, c, d, e], values);
    FourLines(a, b, c, d, values);
  }

  lemma AgentBlockIs(values: map<string, string>)
    requires HasAll(values, AGENT_KEYS)
    ensures HasAgentKeys(values)
    ensures RenderBlock(AGENT_MARKER, Chosen(AGENT_KEYS, values)) == AgentText(values)
  {
    AgentKeysMean(values);
    SixLines("status", "claim_session", "claim_worktree", "claim_branch", "claim_updated_at", "expires_at", values);
    Closed(AGENT_MARKER, Line("status", values["status"]), Line("claim_session", values["claim_session"]),
           Line("claim_worktree", values["claim_worktree"]), Line("claim_branch", values["claim_branch"]),
           Line("claim_updated_at", values["claim_updated_at"]) + Line("expires_at", values["expires_at"]));
    assert Line("status", values["status"]) + Line("claim_session", values["claim_session"])
           + Line("claim_worktree", values["claim_worktree"]) + Line("claim_branch", values["claim_branch"])
           + (Line("claim_updated_at", values["claim_updated_at"]) + Line("expires_at", values["expires_at"])) ==
           LinesText(Chosen(AGENT_KEYS, values));
  }

  lemma Closed(marker: string, a: string, b: string, c: string, d: string, e: string)
    ensures marker + (a + b + c + d + e) + "\n" + "-->" == marker + a + b + c + d + e + "\n-->"
  {
  }

  lemma PrBlockIs(values: map<string, string>, written: map<string, string>, h: string)
    requires Prepared(values) == Ok(written) && Replay.Spells(values["event_hash"], h)
    ensures HasPrKeys(values) && HasAll(written, PR_KEYS)
    ensures RenderBlock(PR_MARKER, Chosen(PR_KEYS, written)) == PrText(values, h)
  {
    PrKeysMean(values);
    Replay.DigitsMean(values["event_hash"]);
    PrKeysMean(written);
    FourLines("coordination_state", "event_uuid", "event_hash", "session", written);
    PrClosed(Line("coordination_state", values["coordination_state"]), Line("event_uuid", values["event_uuid"]),
             Line("event_hash", "sha256:" + h), Line("session", values["session"]));
  }

  lemma PrClosed(a: string, b: string, c: string, d: string)
    ensures PR_MARKER + (a + b + c + d) + "\n" + "-->" ==
            "<!-- coordination-ledger-pr-mirror:v1" + a + b + c + d + "\n-->"
  {
  }

  // ----- updates of arbitrary bodies

  predicate Expected(parsed: map<string, string>, guard: map<string, string>) {
    forall k :: k in guard ==> guard[k] == if k in parsed then parsed[k] else ""
  }

  /** Exactly when an issue body is updated, and into what: there is a block, it says what was
      expected, every value is there, and the block's text is replaced by the new one. */
  lemma IssueUpdateIff(current: string, guard: map<string, string>, values: map<string, string>)
    ensures UpdateIssueBody(current, guard, values).Ok? <==>
            && ParseBlock(current, "<!-- agent-state:v1", false).Ok?
            && ParseBlock(current, "<!-- agent-state:v1", false).value.Some?
            && Expected(ParseBlock(current, "<!-- agent-state:v1", false).value.value.fields, guard)
            && HasAgentKeys(values)
    ensures UpdateIssueBody(current, guard, values).Ok? ==>
              var b := ParseBlock(current, "<!-- agent-state:v1", false).value.value;
              UpdateIssueBody(current, guard, values).value ==
              current[..b.start] + AgentText(values) + current[b.end..]
  {
    AgentKeysMean(values);
    if HasAgentKeys(values) {
      AgentBlockIs(values);
    }
  }

  /** What a pull request marker must say: hashes are compared in either spelling, and a missing or
      empty one as text. */
  ghost predicate PrExpected(parsed: map<string, string>, guard: map<string, string>) {
    forall k :: k in guard ==>
      var actual := if k in parsed then parsed[k] else "";
      if k == "event_hash" && actual != ""
      then exists h :: Replay.Spells(actual, h) && Replay.Spells(guard[k], h)
      else guard[k] == actual
  }

  lemma SameHash(a: string, b: string)
    ensures (Replay.Labelled(a).Some? && Replay.Labelled(a) == Replay.Labelled(b)) <==>
            exists h :: Replay.Spells(a, h) && Replay.Spells(b, h)
  {
    Replay.DigitsMean(a);
    Replay.DigitsMean(b);
    if Replay.Labelled(a).Some? && Replay.Labelled(a) == Replay.Labelled(b) {
      var h := Replay.HashDigits(a).value;
      assert Replay.Labelled(a).value[7..] == h;
      assert Replay.Labelled(b).value[7..] == Replay.HashDigits(b).value;
      assert Replay.Spells(a, h) && Replay.Spells(b, h);
    }
  }

  lemma PrAgreesMeans(parsed: map<string, string>, guard: map<string, string>)
    ensures PrAgrees(parsed, guard) <==> PrExpected(parsed, guard)
  {
    forall k | k in guard {
      SameHash(Actual(parsed, k), guard[k]);
    }
  }

  /** Exactly when a pull request body is updated, and into what. */
  lemma PrUpdateIff(current: string, guard: map<string, string>, values: map<string, string>)
    ensures UpdatePrBody(current, guard, values).Ok? <==>
            && ParseBlock(current, "<!-- coordination-ledger-pr-mirror:v1", false).Ok?
            && HasPrKeys(values) && (exists h :: Replay.Spells(values["event_hash"], h))
            && var found := ParseBlock(current, "<!-- coordination-ledger-pr-mirror:v1", false).value;
               if found.None? then guard == map[] else PrExpected(found.value.fields, guard)
    ensures UpdatePrBody(current, guard, values).Ok? ==>
              var found := ParseBlock(current, "<!-- coordination-ledger-pr-mirror:v1", false).value;
              forall h :: Replay.Spells(values["event_hash"], h) ==>
                UpdatePrBody(current, guard, values).value ==
                if found.None? then StripRight(current) + "\n\n" + PrText(values, h) + "\n"
                else current[..found.value.start] + PrText(values, h) + current[found.value.end..]
  {
    PreparedIff(values);
    var found := ParseBlock(current, PR_MARKER, false);
    if found.Ok? && found.value.Some? {
      PrAgreesMeans(found.value.value.fields, guard);
    }
    if Prepared(values).Ok? {
      forall h | Replay.Spells(values["event_hash"], h)
        ensures RenderBlock(PR_MARKER, Chosen(PR_KEYS, Prepared(values).value)) == PrText(values, h)
      {
        PrBlockIs(values, Prepared(values).value, h);
      }
    }
  }

  lemma PreparedIff(values: map<string, string>)
    ensures Prepared(values).Ok? <==> HasPrKeys(values) && exists h :: Replay.Spells(values["event_hash"], h)
    ensures Prepared(values).Ok? ==> HasAll(Prepared(values).value, PR_KEYS)
  {
    PrKeysMean(values);
    if HasPrKeys(values) {
      Replay.DigitsMean(values["event_hash"]);
      if Replay.HashDigits(values["event_hash"]).Some? {
        assert Replay.Spells(values["event_hash"], Replay.HashDigits(values["event_hash"]).value);
      }
    }
  }

  predicate NotBlank(parsed: map<string, string>, key: string) {
    key in parsed && parsed[key] != ""
  }

  /** What the validator accepts of an arbitrary body, and what it reads. */
  lemma ValidatorIff(body: string)
    ensures ValidatorMarker(body).Ok? <==>
            && ParseBlock(body, "<!-- coordination-ledger-pr-mirror:v1", false).Ok?
            && ParseBlock(body, "<!-- coordination-ledger-pr-mirror:v1", false).value.Some?
            && var parsed := ParseBlock(body, "<!-- coordination-ledger-pr-mirror:v1", false).value.value.fields;
               && NotBlank(parsed, "coordination_state") && NotBlank(parsed, "event_uuid")
               && NotBlank(parsed, "event_hash") && NotBlank(parsed, "session")
               && exists h :: Replay.Spells(parsed["event_hash"], h)
    ensures ValidatorMarker(body).Ok? ==>
              var parsed := ParseBlock(body, "<!-- coordination-ledger-pr-mirror:v1", false).value.value.fields;
              exists h :: Replay.Spells(parsed["event_hash"], h)
                          && ValidatorMarker(body).value == parsed["event_hash" := "sha256:" + h]
  {
    var found := ParseBlock(body, PR_MARKER, false);
    if found.Ok? && found.value.Some? {
      CheckedIff(found.value.value.fields);
    }
  }

  lemma CheckedIff(parsed: map<string, string>)
    ensures CheckedMarker(parsed).Ok? <==>
            && NotBlank(parsed, "coordination_state") && NotBlank(parsed, "event_uuid")
            && NotBlank(parsed, "event_hash") && NotBlank(parsed, "session")
            && exists h :: Replay.Spells(parsed["event_hash"], h)
    ensures CheckedMarker(parsed).Ok? ==>
              exists h :: Replay.Spells(parsed["event_hash"], h)
                          && CheckedMarker(parsed).value == parsed["event_hash" := "sha256:" + h]
  {
    AllNotBlank(parsed);
    Replay.DigitsMean(Actual(parsed, "event_hash"));
    if Replay.HashDigits(Actual(parsed, "event_hash")).Some? {
      var h := Replay.HashDigits(Actual(parsed, "event_hash")).value;
      assert Replay.Spells(Actual(parsed, "event_hash"), h);
      assert CheckedMarker(parsed).Ok? ==> CheckedMarker(parsed).value == parsed["event_hash" := "sha256:" + h];
    } else {
      assert CheckedMarker(parsed).Fail?;
      assert forall h :: !Replay.Spells(Actual(parsed, "event_hash"), h);
    }
  }

  lemma AllNotBlank(parsed: map<string, string>)
    ensures (exists k :: k in PR_KEYS && Actual(parsed, k) == "") <==>
            !(NotBlank(parsed, "coordination_state") && NotBlank(parsed, "event_uuid")
              && NotBlank(parsed, "event_hash") && NotBlank(parsed, "session"))
  {
    assert PR_KEYS[0] == "coordination_state" && PR_KEYS[1] == "event_uuid";
    assert PR_KEYS[2] == "event_hash" && PR_KEYS[3] == "session";
    assert PR_KEYS[0] in PR_KEYS && PR_KEYS[1] in PR_KEYS && PR_KEYS[2] in PR_KEYS && PR_KEYS[3] in PR_KEYS;
    assert forall k :: Actual(parsed, k) == "" <==> !NotBlank(parsed, k);
    forall k | k in PR_KEYS
      ensures k == "coordination_state" || k == "event_uuid" || k == "event_hash" || k == "session"
    {
      var i :| 0 <= i < |PR_KEYS| && PR_KEYS[i] == k;
    }
  }
}
