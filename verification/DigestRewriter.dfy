/** The backend digest rewriter (scripts/automation/apply-test-overlay-digests.py) and the
    inspector that reads the same overlay (scripts/automation/backend-testai-digest-contract.py).

    A line is what the two scripts' patterns make of it; `spelling` stands for the rest of its
    text.  A `Digest` line carries a well-formed digest. */
module DigestRewriter {
  import opened Json
  import opened Text
  import Replay

  datatype Registry = Ghcr(owner: string) | Local

  datatype Line =
    | Entry(spelling: string)
    | Image(registry: Registry, service: string, spelling: string)
    | Exception(issue: string, spelling: string)
    | Digest(indent: string, value: string, spelling: string)
    | Other(spelling: string)

  const OWNER := "halildeu"

  const SERVICES := [
    "auth-service", "permission-service", "user-service", "variant-service", "core-data-service",
    "report-service", "schema-service", "endpoint-admin-service", "audio-gateway-service", "meeting-service",
    "transcript-service", "audit-event-consumer-service", "api-gateway"]

  const BUILD_ONLY := ["discovery-server", "notification-orchestrator"]

  const REQUIRED: set<string> := set s | s in SERVICES

  // ----- index_digest_lines

  /** The service of the entry being read, and the digest line of each service so far. */
  datatype Index = Index(current: Option<string>, at: map<string, nat>)

  function IndexStep(s: Index, line: Line, i: nat): Index {
    match line
    case Entry(_) => s.(current := None)
    case Image(Ghcr(_), service, _) => s.(current := Some(service))
    case Digest(_, _, _) => if s.current.Some? then Index(None, s.at[s.current.value := i]) else s
    case _ => s
  }

  function IndexFold(lines: seq<Line>): Index {
    if lines == [] then Index(None, map[])
    else IndexStep(IndexFold(lines[..|lines| - 1]), lines[|lines| - 1], |lines| - 1)
  }

  function Places(lines: seq<Line>): map<string, nat> {
    IndexFold(lines).at
  }

  ghost predicate Sound(lines: seq<Line>, at: map<string, nat>) {
    && (forall s :: s in at ==> at[s] < |lines| && lines[at[s]].Digest?)
    && (forall s, t :: s in at && t in at && at[s] == at[t] ==> s == t)
  }

  /** Every indexed place is a digest line, and no two services share one. */
  lemma {:induction false} PlacesSound(lines: seq<Line>)
    ensures Sound(lines, Places(lines))
  {
    if lines != [] {
      var n := |lines| - 1;
      PlacesSound(lines[..n]);
      StepSound(lines[..n], IndexFold(lines[..n]), lines[n]);
      assert lines == lines[..n] + [lines[n]];
    }
  }

  lemma StepSound(lines: seq<Line>, state: Index, line: Line)
    requires Sound(lines, state.at)
    ensures Sound(lines + [line], IndexStep(state, line, |lines|).at)
  {
  }

  method IndexDigestLines(lines: seq<Line>) returns (at: map<string, nat>)
    ensures at == Places(lines)
  {
    var state := Index(None, map[]);
    for i := 0 to |lines|
      invariant state == IndexFold(lines[..i])
    {
      assert lines[..i + 1][..i] == lines[..i];
      state := IndexStep(state, lines[i], i);
    }
    assert lines[..|lines|] == lines;
    return state.at;
  }

  /** The digest each indexed service has. */
  function Digests(lines: seq<Line>): map<string, string> {
    PlacesSound(lines);
    var at := Places(lines);
    map s | s in at :: lines[at[s]].value
  }

  // ----- applying a map

  datatype Refusal = OutOfScope | Inconsistent

  /** The map names services of the rollout only, each with a digest line and a proper digest. */
  predicate Applicable(lines: seq<Line>, digests: map<string, string>) {
    && digests.Keys <= REQUIRED
    && Resolvable(Places(lines), digests)
  }

  /** A line that gets a digest: untouched when it has it already. */
  function WithDigest(line: Line, digest: string): Line {
    if line.Digest? && line.value != digest then Digest(line.indent, digest, "") else line
  }

  /** `after` is `before` with the new digests on the lines of the services in `done`. */
  ghost predicate Patched(before: seq<Line>, at: map<string, nat>, after: seq<Line>, digests: map<string, string>,
                          done: set<string>)
    requires Sound(before, at) && done <= at.Keys && done <= digests.Keys
  {
    && |after| == |before|
    && (forall s :: s in done ==> after[at[s]] == WithDigest(before[at[s]], digests[s]))
    && (forall i :: 0 <= i < |before| && (forall s :: s in done ==> at[s] != i) ==> after[i] == before[i])
  }

  /** The services of the map whose digest would change. */
  function Differing(current: map<string, string>, digests: map<string, string>): set<string> {
    set s | s in digests && s in current && current[s] != digests[s]
  }

  /** The overlay file. */
  class Overlay {
    var lines: seq<Line>

    /** The rewrite loop of `main`, over the services of the map in any order. */
    method Apply(digests: map<string, string>, check: bool) returns (r: Result<nat, Refusal>)
      modifies this
      ensures r.Ok? <==> Applicable(old(lines), digests)
      ensures r.Fail? || check ==> lines == old(lines)
      ensures r.Ok? && !check ==> Rewritten(old(lines), lines, digests)
      ensures r.Ok? ==> r.value == |Differing(Digests(old(lines)), digests)|
    {
      if !(digests.Keys <= REQUIRED) {
        return Fail(OutOfScope);
      }
      var at := IndexDigestLines(lines);
      PlacesSound(lines);
      var draft, changes := Rewrite(lines, at, digests);
      if draft.None? {
        return Fail(Inconsistent);
      }
      assert Outdated(lines, at, digests, digests.Keys) == Differing(Digests(lines), digests);
      if !check && changes > 0 {
        lines := draft.value;
      }
      return Ok(changes);
    }
  }

  predicate Resolvable(at: map<string, nat>, digests: map<string, string>) {
    forall s :: s in digests ==> Good(at, digests, s)
  }

  predicate Good(at: map<string, nat>, digests: map<string, string>, s: string)
    requires s in digests
  {
    Replay.IsDigest(digests[s]) && s in at
  }

  /** The services in `done` whose line does not have its new digest. */
  ghost function Outdated(lines: seq<Line>, at: map<string, nat>, digests: map<string, string>, done: set<string>)
    : set<string>
    requires Sound(lines, at) && done <= at.Keys && done <= digests.Keys
  {
    set s | s in done && lines[at[s]].value != digests[s]
  }

  lemma OutdatedOneMore(lines: seq<Line>, at: map<string, nat>, digests: map<string, string>, done: set<string>,
                        s: string)
    requires Sound(lines, at) && done <= at.Keys && done <= digests.Keys && s in at && s in digests && s !in done
    ensures |Outdated(lines, at, digests, done + {s})| ==
            |Outdated(lines, at, digests, done)| + if lines[at[s]].value != digests[s] then 1 else 0
  {
    var before, after := Outdated(lines, at, digests, done), Outdated(lines, at, digests, done + {s});
    assert s !in before;
    if lines[at[s]].value != digests[s] {
      assert after == before + {s};
    } else {
      assert after == before;
    }
  }

  /** The services in `done` are patched, and their changes counted. */
  ghost predicate Progress(lines: seq<Line>, at: map<string, nat>, draft: seq<Line>, digests: map<string, string>,
                           done: set<string>, changes: nat)
    requires Sound(lines, at) && done <= at.Keys && done <= digests.Keys
  {
    Patched(lines, at, draft, digests, done) && changes == |Outdated(lines, at, digests, done)|
  }

  lemma ProgressOne(lines: seq<Line>, at: map<string, nat>, draft: seq<Line>, digests: map<string, string>,
                    done: set<string>, changes: nat, s: string, draft': seq<Line>, changes': nat)
    requires Sound(lines, at) && done <= at.Keys && done <= digests.Keys && s in at && s in digests && s !in done
    requires Progress(lines, at, draft, digests, done, changes)
    requires if lines[at[s]].value != digests[s]
             then draft' == draft[at[s] := Digest(lines[at[s]].indent, digests[s], "")] && changes' == changes + 1
             else draft' == draft && changes' == changes
    ensures Progress(lines, at, draft', digests, done + {s}, changes')
  {
    PatchOne(lines, at, draft, digests, done, s);
    OutdatedOneMore(lines, at, digests, done, s);
  }

  /** What is still to do, what was patched, and whether some service was refused. */
  ghost predicate Sorted(at: map<string, nat>, digests: map<string, string>, todo: set<string>, done: set<string>,
                         refused: bool)
  {
    && todo <= digests.Keys && done <= digests.Keys && done <= at.Keys && todo !! done
    && (forall s :: s in done ==> Good(at, digests, s))
    && (!refused ==> forall s :: s in digests ==> s in todo || s in done)
    && (refused ==> exists s :: s in digests && !Good(at, digests, s))
  }

  lemma SortedOne(at: map<string, nat>, digests: map<string, string>, todo: set<string>, done: set<string>,
                  refused: bool, s: string)
    requires Sorted(at, digests, todo, done, refused) && s in todo
    ensures if Good(at, digests, s) then Sorted(at, digests, todo - {s}, done + {s}, refused)
            else Sorted(at, digests, todo - {s}, done, true)
  {
  }

  lemma SortedAll(at: map<string, nat>, digests: map<string, string>, done: set<string>, refused: bool)
    requires Sorted(at, digests, {}, done, refused)
    ensures refused <==> !Resolvable(at, digests)
    ensures !refused ==> done == digests.Keys
  {
  }

  lemma NothingOutdated(lines: seq<Line>, at: map<string, nat>, after: seq<Line>, digests: map<string, string>)
    requires Sound(lines, at) && digests.Keys <= at.Keys && Patched(lines, at, after, digests, digests.Keys)
    ensures |Outdated(lines, at, digests, digests.Keys)| == 0 ==> after == lines
  {
    if |Outdated(lines, at, digests, digests.Keys)| == 0 {
      forall i | 0 <= i < |lines| ensures after[i] == lines[i] {
        if s :| s in digests && at[s] == i {
          assert s !in Outdated(lines, at, digests, digests.Keys);
          assert after[at[s]] == WithDigest(lines[at[s]], digests[s]);
        }
      }
    }
  }

  method Rewrite(lines: seq<Line>, at: map<string, nat>, digests: map<string, string>)
    returns (r: Option<seq<Line>>, changes: nat)
    requires Sound(lines, at)
    ensures r.Some? <==> Resolvable(at, digests)
    ensures r.Some? ==> digests.Keys <= at.Keys && Patched(lines, at, r.value, digests, digests.Keys)
    ensures r.Some? && changes == 0 ==> r.value == lines
    ensures r.Some? ==> changes == |Outdated(lines, at, digests, digests.Keys)|
  {
    var draft, errors := lines, 0;
    changes := 0;
    var todo := digests.Keys;
    ghost var done: set<string> := {};
    while todo != {}
      invariant Sorted(at, digests, todo, done, errors > 0) && errors >= 0
      invariant Progress(lines, at, draft, digests, done, changes)
      decreases |todo|
    {
      var s :| s in todo;
      SortedOne(at, digests, todo, done, errors > 0, s);
      todo := todo - {s};
      if !Good(at, digests, s) {
        errors := errors + 1;
      } else {
        ghost var before, count := draft, changes;
        if lines[at[s]].value != digests[s] {
          changes := changes + 1;
          draft := draft[at[s] := Digest(lines[at[s]].indent, digests[s], "")];
        }
        ProgressOne(lines, at, before, digests, done, count, s, draft, changes);
        done := done + {s};
      }
    }
    SortedAll(at, digests, done, errors > 0);
    if errors > 0 {
      return None, changes;
    }
    NothingOutdated(lines, at, draft, digests);
    return Some(draft), changes;
  }

  /** The file after a successful application. */
  ghost predicate Rewritten(before: seq<Line>, after: seq<Line>, digests: map<string, string>) {
    var at := Places(before);
    Sound(before, at) && digests.Keys <= at.Keys && Patched(before, at, after, digests, digests.Keys)
  }

  lemma PatchOne(before: seq<Line>, at: map<string, nat>, after: seq<Line>, digests: map<string, string>,
                 done: set<string>, s: string)
    requires Sound(before, at) && done <= at.Keys && done <= digests.Keys && s in at && s in digests && s !in done
    requires Patched(before, at, after, digests, done)
    ensures var i := at[s];
            if before[i].value != digests[s]
            then Patched(before, at, after[i := Digest(before[i].indent, digests[s], "")], digests, done + {s})
            else Patched(before, at, after, digests, done + {s})
  {
    assert forall t :: t in done ==> at[t] != at[s];
    assert after[at[s]] == before[at[s]];
  }

  // ----- what an application keeps

  /** The two differ at most in the digests of digest lines. */
  predicate SameShape(a: seq<Line>, b: seq<Line>) {
    |a| == |b| && forall i :: 0 <= i < |a| ==> a[i] == b[i] || (a[i].Digest? && b[i].Digest?)
  }

  lemma RewrittenShape(before: seq<Line>, after: seq<Line>, digests: map<string, string>)
    requires Rewritten(before, after, digests)
    ensures SameShape(before, after)
  {
    var at := Places(before);
    forall i | 0 <= i < |before| ensures before[i] == after[i] || (before[i].Digest? && after[i].Digest?) {
      if s :| s in digests && at[s] == i {
        assert after[at[s]] == WithDigest(before[at[s]], digests[s]);
      }
    }
  }

  lemma {:induction false} IndexOfShape(a: seq<Line>, b: seq<Line>)
    requires SameShape(a, b)
    ensures IndexFold(a) == IndexFold(b)
  {
    if a != [] {
      IndexOfShape(a[..|a| - 1], b[..|b| - 1]);
    }
  }

  /** Indexing the new file gives the old index overridden by the map. */
  lemma ReindexedDigests(before: seq<Line>, after: seq<Line>, digests: map<string, string>)
    requires Rewritten(before, after, digests)
    ensures Places(after) == Places(before)
    ensures Digests(after) == Digests(before) + digests
  {
    RewrittenShape(before, after, digests);
    IndexOfShape(before, after);
    var at := Places(before);
    forall s | s in at
      ensures after[at[s]].Digest? && after[at[s]].value == if s in digests then digests[s] else before[at[s]].value
    {
      NewValue(before, at, after, digests, s);
    }
  }

  lemma NewValue(before: seq<Line>, at: map<string, nat>, after: seq<Line>, digests: map<string, string>, s: string)
    requires Sound(before, at) && digests.Keys <= at.Keys && s in at
    requires Patched(before, at, after, digests, digests.Keys)
    ensures after[at[s]].Digest?
    ensures after[at[s]].value == if s in digests then digests[s] else before[at[s]].value
  {
    if s in digests {
      assert after[at[s]] == WithDigest(before[at[s]], digests[s]);
    } else {
      assert forall t :: t in digests ==> at[t] != at[s];
    }
  }

  /** A second application of the same map changes nothing, and reports no change. */
  lemma AppliedTwice(before: seq<Line>, after: seq<Line>, again: seq<Line>, digests: map<string, string>)
    requires Rewritten(before, after, digests) && Rewritten(after, again, digests)
    ensures again == after
    ensures Differing(Digests(after), digests) == {}
  {
    ReindexedDigests(before, after, digests);
    var at := Places(after);
    forall i | 0 <= i < |after| ensures again[i] == after[i] {
      if s :| s in digests && at[s] == i {
        assert Digests(after)[s] == digests[s];
        assert again[at[s]] == WithDigest(after[at[s]], digests[s]);
      }
    }
  }

  // ----- inspect_overlay

  datatype Scan = Scan(current: Option<string>, exception: Option<string>, at: map<string, nat>)

  datatype Trouble = UnmarkedLocalRegistry | DuplicateEntry | MissingDigest

  function ScanStep(s: Scan, line: Line, i: nat): Result<Scan, Trouble> {
    match line
    case Entry(_) => Ok(Scan(None, None, s.at))
    case Exception(issue, _) => Ok(s.(exception := Some(issue)))
    case Image(Ghcr(owner), service, _) => Ok(if owner == OWNER then s.(current := Some(service)) else s)
    case Image(Local, service, _) =>
      if service in REQUIRED && s.exception.None? then Fail(UnmarkedLocalRegistry)
      else Ok(s.(current := Some(service)))
    case Digest(_, _, _) =>
      if s.current.None? then Ok(s)
      else if s.current.value !in REQUIRED then Ok(s.(current := None))
      else if s.current.value in s.at then Fail(DuplicateEntry)
      else Ok(s.(current := None, at := s.at[s.current.value := i]))
    case Other(_) => Ok(s)
  }

  function ScanFold(lines: seq<Line>): Result<Scan, Trouble> {
    if lines == [] then Ok(Scan(None, None, map[]))
    else ScanNext(ScanFold(lines[..|lines| - 1]), lines[|lines| - 1], |lines| - 1)
  }

  function ScanNext(before: Result<Scan, Trouble>, line: Line, i: nat): Result<Scan, Trouble> {
    if before.Ok? then ScanStep(before.value, line, i) else before
  }

  ghost predicate ScanSound(lines: seq<Line>, at: map<string, nat>) {
    at.Keys <= REQUIRED && forall s :: s in at ==> at[s] < |lines| && lines[at[s]].Digest?
  }

  lemma {:induction false} ScannedPlaces(lines: seq<Line>)
    requires ScanFold(lines).Ok?
    ensures ScanSound(lines, ScanFold(lines).value.at)
  {
    if lines != [] {
      var n := |lines| - 1;
      ScannedPlaces(lines[..n]);
      ScanStepSound(lines[..n], ScanFold(lines[..n]).value, lines[n]);
      assert lines == lines[..n] + [lines[n]];
    }
  }

  lemma ScanStepSound(lines: seq<Line>, s: Scan, line: Line)
    requires ScanSound(lines, s.at) && ScanStep(s, line, |lines|).Ok?
    ensures ScanSound(lines + [line], ScanStep(s, line, |lines|).value.at)
  {
  }

  function InspectOverlay(lines: seq<Line>): Result<map<string, string>, Trouble> {
    var scan :- ScanFold(lines);
    ScannedPlaces(lines);
    if !(REQUIRED <= scan.at.Keys) then Fail(MissingDigest)
    else Ok(map s | s in scan.at :: lines[scan.at[s]].value)
  }

  method Inspect(lines: seq<Line>) returns (r: Result<map<string, string>, Trouble>)
    ensures r == InspectOverlay(lines)
  {
    var scan := Scan(None, None, map[]);
    for i := 0 to |lines|
      invariant ScanFold(lines[..i]) == Ok(scan)
    {
      assert lines[..i + 1][..i] == lines[..i];
      var next := ScanStep(scan, lines[i], i);
      if next.Fail? {
        ScanStaysFailed(lines, i + 1);
        return Fail(next.error);
      }
      scan := next.value;
    }
    assert lines[..|lines|] == lines;
    ScannedPlaces(lines);
    if !(REQUIRED <= scan.at.Keys) {
      return Fail(MissingDigest);
    }
    return Ok(map s | s in scan.at :: lines[scan.at[s]].value);
  }

  lemma {:induction false} ScanStaysFailed(lines: seq<Line>, i: nat)
    requires i <= |lines| && ScanFold(lines[..i]).Fail?
    ensures ScanFold(lines) == ScanFold(lines[..i])
  {
    if i == |lines| {
      assert lines[..i] == lines;
    } else {
      var init := lines[..|lines| - 1];
      PrefixOfInit(lines, init, i);
      ScanStaysFailed(init, i);
    }
  }

  lemma PrefixOfInit(lines: seq<Line>, init: seq<Line>, i: nat)
    requires i < |lines| && init == lines[..|lines| - 1]
    ensures init[..i] == lines[..i]
  {
  }

  lemma {:induction false} ScanOfShape(a: seq<Line>, b: seq<Line>)
    requires SameShape(a, b)
    ensures ScanFold(a) == ScanFold(b)
  {
    if a != [] {
      ScanOfShape(a[..|a| - 1], b[..|b| - 1]);
    }
  }

  /** Rewriter and inspector mean the same digest line for every required service. */
  ghost predicate SamePlaces(lines: seq<Line>) {
    ScanFold(lines).Ok? ==>
      forall s :: s in ScanFold(lines).value.at ==>
        s in Places(lines) && Places(lines)[s] == ScanFold(lines).value.at[s]
  }

  /** Every image line names the canonical GHCR owner. */
  predicate Canonical(lines: seq<Line>) {
    forall i :: 0 <= i < |lines| ==> lines[i].Image? ==> lines[i].registry == Ghcr(OWNER)
  }

  lemma {:induction false} CanonicalSamePlaces(lines: seq<Line>)
    requires Canonical(lines) && ScanFold(lines).Ok?
    ensures SamePlaces(lines)
    ensures IndexFold(lines).current == ScanFold(lines).value.current
  {
    if lines != [] {
      var n := |lines| - 1;
      CanonicalSamePlaces(lines[..n]);
      ScannedPlaces(lines[..n]);
      StepSamePlaces(ScanFold(lines[..n]).value, IndexFold(lines[..n]), lines[n], n);
    }
  }

  lemma StepSamePlaces(scan: Scan, index: Index, line: Line, n: nat)
    requires scan.current == index.current && scan.at.Keys <= REQUIRED && ScanStep(scan, line, n).Ok?
    requires forall s :: s in scan.at ==> s in index.at && index.at[s] == scan.at[s]
    requires line.Image? ==> line.registry == Ghcr(OWNER)
    ensures var scan', index' := ScanStep(scan, line, n).value, IndexStep(index, line, n);
            && scan'.current == index'.current
            && forall s :: s in scan'.at ==> s in index'.at && index'.at[s] == scan'.at[s]
  {
  }

  /** Rewriting never changes whether the overlay passes inspection, and inspecting a canonical
      overlay after a full map was applied returns that map. */
  lemma InspectAfterApply(before: seq<Line>, after: seq<Line>, digests: map<string, string>)
    requires Rewritten(before, after, digests)
    ensures InspectOverlay(after).Ok? <==> InspectOverlay(before).Ok?
    ensures InspectOverlay(before).Ok? && SamePlaces(before) && digests.Keys == REQUIRED ==>
              InspectOverlay(after) == Ok(digests)
  {
    RewrittenShape(before, after, digests);
    ScanOfShape(before, after);
    if InspectOverlay(before).Ok? && SamePlaces(before) && digests.Keys == REQUIRED {
      ScannedPlaces(after);
      var at := ScanFold(after).value.at;
      InspectedValues(before, after, digests, at);
    }
  }

  lemma InspectedValues(before: seq<Line>, after: seq<Line>, digests: map<string, string>, at: map<string, nat>)
    requires Rewritten(before, after, digests) && digests.Keys == at.Keys
    requires forall s :: s in at ==> s in Places(before) && Places(before)[s] == at[s]
    requires forall s :: s in at ==> at[s] < |after| && after[at[s]].Digest?
    ensures (map s | s in at :: after[at[s]].value) == digests
  {
    ReindexedDigests(before, after, digests);
    forall s | s in at ensures after[at[s]].value == digests[s] {
      assert Digests(after)[s] == digests[s];
    }
  }

  /** A full map with proper digests. */
  ghost predicate FullMap(digests: map<string, string>) {
    digests.Keys == REQUIRED && forall s :: s in digests ==> Replay.IsDigest(digests[s])
  }

  /** Inspection returns whatever full map was applied exactly when the two scripts mean the same
      digest lines. */
  lemma RoundTripIffSamePlaces(before: seq<Line>)
    requires InspectOverlay(before).Ok? && REQUIRED <= Places(before).Keys
    ensures SamePlaces(before) <==>
            forall digests, after :: FullMap(digests) && Rewritten(before, after, digests) ==>
              InspectOverlay(after) == Ok(digests)
  {
    if SamePlaces(before) {
      forall digests, after | FullMap(digests) && Rewritten(before, after, digests)
        ensures InspectOverlay(after) == Ok(digests)
      {
        InspectAfterApply(before, after, digests);
      }
    } else {
      ScannedPlaces(before);
      var scanned := ScanFold(before).value.at;
      var s :| s in scanned && Places(before)[s] != scanned[s];
      var digests, after := Divergence(before, s, scanned[s]);
      InspectAfterApply(before, after, digests);
      ScannedValue(before, after, digests, scanned, s);
      assert FullMap(digests) && Rewritten(before, after, digests);
    }
  }

  function Repeated(c: char): string {
    Replay.Label(seq(64, _ => c))
  }

  lemma RepeatedIsDigest(c: char)
    requires IsHexDigit(c)
    ensures Replay.IsDigest(Repeated(c)) && Repeated(c)[7] == c
  {
    assert Repeated(c)[7..] == seq(64, _ => c);
  }

  lemma TwoDigests(avoid: string) returns (own: string, others: string)
    ensures Replay.IsDigest(own) && Replay.IsDigest(others) && own != others && own != avoid
  {
    RepeatedIsDigest('0');
    RepeatedIsDigest('1');
    RepeatedIsDigest('2');
    own := if avoid == Repeated('0') then Repeated('1') else Repeated('0');
    others := Repeated('2');
  }

  /** A map whose application leaves the wrong digest at `p`, which is not the place of `s`. */
  lemma Divergence(before: seq<Line>, s: string, p: nat) returns (digests: map<string, string>, after: seq<Line>)
    requires REQUIRED <= Places(before).Keys && s in REQUIRED && Places(before)[s] != p
    requires p < |before| && before[p].Digest?
    ensures FullMap(digests) && Rewritten(before, after, digests)
    ensures after[p].Digest? && after[p].value != digests[s]
  {
    var own, others := TwoDigests(before[p].value);
    digests := map t | t in REQUIRED :: if t == s then own else others;
    after := Target(before, Places(before), digests);
    TargetIsRewritten(before, digests);
    PlaceValue(before, after, digests, p);
  }

  /** What the rewriter makes of the file. */
  ghost function Target(before: seq<Line>, at: map<string, nat>, digests: map<string, string>): seq<Line>
    requires digests.Keys <= at.Keys
  {
    seq(|before|, i requires 0 <= i < |before| => TargetLine(before[i], at, digests, i))
  }

  ghost function TargetLine(line: Line, at: map<string, nat>, digests: map<string, string>, i: nat): Line
    requires digests.Keys <= at.Keys
  {
    if exists t :: t in digests && at[t] == i then
      var t :| t in digests && at[t] == i;
      WithDigest(line, digests[t])
    else line
  }

  lemma TargetIsRewritten(before: seq<Line>, digests: map<string, string>)
    requires digests.Keys <= Places(before).Keys
    ensures Rewritten(before, Target(before, Places(before), digests), digests)
  {
    PlacesSound(before);
    TargetIsPatched(before, Places(before), digests);
  }

  lemma TargetIsPatched(before: seq<Line>, at: map<string, nat>, digests: map<string, string>)
    requires Sound(before, at) && digests.Keys <= at.Keys
    ensures Patched(before, at, Target(before, at, digests), digests, digests.Keys)
  {
  }

  lemma ScannedValue(before: seq<Line>, after: seq<Line>, digests: map<string, string>, scanned: map<string, nat>,
                     s: string)
    requires Rewritten(before, after, digests) && InspectOverlay(after).Ok?
    requires ScanFold(before).Ok? && scanned == ScanFold(before).value.at && s in scanned
    ensures s in InspectOverlay(after).value && scanned[s] < |after| && after[scanned[s]].Digest?
    ensures InspectOverlay(after).value[s] == after[scanned[s]].value
  {
    RewrittenShape(before, after, digests);
    ScanOfShape(before, after);
    ScannedPlaces(after);
  }

  /** A digest line has afterwards one of the new digests or the one it had. */
  lemma PlaceValue(before: seq<Line>, after: seq<Line>, digests: map<string, string>, p: nat)
    requires Rewritten(before, after, digests) && p < |before| && before[p].Digest?
    ensures after[p].Digest?
    ensures after[p] == before[p] || exists t :: t in digests && Places(before)[t] == p && after[p].value == digests[t]
  {
    var at := Places(before);
    if t :| t in digests && at[t] == p {
      assert after[at[t]] == WithDigest(before[at[t]], digests[t]);
    }
  }

  /** The failing side is inhabited: behind any inspectable overlay, an entry of another GHCR owner
      for a required service is invisible to the inspector and is what the rewriter edits. */
  lemma OtherOwnerDiverges(pre: seq<Line>, owner: string, s: string, entry: string, image: string, digest: Line)
    requires InspectOverlay(pre).Ok? && owner != OWNER && s in REQUIRED && digest.Digest?
    ensures var longer := pre + [Entry(entry), Image(Ghcr(owner), s, image), digest];
            && InspectOverlay(longer) == InspectOverlay(pre)
            && s in Places(longer) && Places(longer)[s] == |pre| + 2
            && !SamePlaces(longer)
  {
    var a, b := pre + [Entry(entry)], pre + [Entry(entry), Image(Ghcr(owner), s, image)];
    var longer := pre + [Entry(entry), Image(Ghcr(owner), s, image), digest];
    assert longer[..|longer| - 1] == b && b[..|b| - 1] == a && a[..|a| - 1] == pre;
    IndexSnoc(pre, Entry(entry), a);
    IndexSnoc(a, Image(Ghcr(owner), s, image), b);
    IndexSnoc(b, digest, longer);
    ScanSnoc(pre, Entry(entry), a);
    ScanSnoc(a, Image(Ghcr(owner), s, image), b);
    ScanSnoc(b, digest, longer);
    ScannedPlaces(pre);
    var at := ScanFold(pre).value.at;
    assert ScanFold(longer).value.at == at && at[s] < |pre|;
    SameValues(pre, longer, at);
  }

  lemma IndexSnoc(lines: seq<Line>, line: Line, more: seq<Line>)
    requires more == lines + [line]
    ensures IndexFold(more) == IndexStep(IndexFold(lines), line, |lines|)
  {
    assert more[..|lines|] == lines;
  }

  lemma ScanSnoc(lines: seq<Line>, line: Line, more: seq<Line>)
    requires more == lines + [line]
    ensures ScanFold(more) == ScanNext(ScanFold(lines), line, |lines|)
  {
    assert more[..|more| - 1] == lines && more[|more| - 1] == line;
  }

  lemma SameValues(pre: seq<Line>, longer: seq<Line>, at: map<string, nat>)
    requires pre <= longer && forall s :: s in at ==> at[s] < |pre| && pre[at[s]].Digest?
    ensures (map s | s in at :: pre[at[s]].value) == (map s | s in at :: longer[at[s]].value)
  {
  }

  // ----- normalize

  predicate IsDigestValue(v: Value) {
    v.Str? && Replay.IsDigest(v.s)
  }

  /** A dispatch envelope that names every required service, nothing unknown, and digests only. */
  predicate FullEnvelope(payload: map<string, Value>) {
    && (forall s :: s in payload ==> s in SERVICES || s in BUILD_ONLY)
    && (forall s :: s in SERVICES ==> s in payload)
    && (forall s :: s in payload ==> IsDigestValue(payload[s]))
  }

  method Normalize(payload: map<string, Value>) returns (r: Option<map<string, string>>)
    ensures r.Some? <==> FullEnvelope(payload)
    ensures r.Some? ==> r.value.Keys == REQUIRED && forall s :: s in REQUIRED ==> Str(r.value[s]) == payload[s]
    ensures r.Some? ==> forall s :: s in REQUIRED ==> Replay.IsDigest(r.value[s])
  {
    if || (exists s :: s in payload && s !in SERVICES && s !in BUILD_ONLY)
       || (exists s :: s in SERVICES && s !in payload)
    {
      return None;
    }
    var normalized := ReadDigests(SERVICES, payload);
    var ignored := ReadDigests(BUILD_ONLY, payload);
    if normalized.None? || ignored.None? {
      return None;
    }
    return normalized;
  }

  /** The digests of the named services that the envelope has. */
  method ReadDigests(names: seq<string>, payload: map<string, Value>) returns (r: Option<map<string, string>>)
    ensures r.Some? <==> forall s :: s in names && s in payload ==> IsDigestValue(payload[s])
    ensures r.Some? ==> forall s :: s in r.value <==> s in names && s in payload
    ensures r.Some? ==> forall s :: s in r.value ==> Str(r.value[s]) == payload[s]
  {
    var digests := map[];
    for i := 0 to |names|
      invariant forall s :: s in digests <==> s in names[..i] && s in payload
      invariant forall s :: s in digests ==> IsDigestValue(payload[s]) && Str(digests[s]) == payload[s]
    {
      var s := names[i];
      assert names[..i + 1] == names[..i] + [s];
      if s in payload {
        if !IsDigestValue(payload[s]) {
          return None;
        }
        digests := digests[s := payload[s].s];
      }
    }
    assert names[..|names|] == names;
    return Some(digests);
  }
}
