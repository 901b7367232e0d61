/** The in-place editor of the frontend image pin (scripts/automation/test-overlay-frontend-image.py).

    A line is what the script's patterns make of it; `spelling` stands for the rest of its
    text, so that untouched lines stay the same to the character. */
module PinEditor {
  import opened Json
  import opened Text
  import Replay

  datatype Line =
    | Entry(indent: nat, name: string, spelling: string)
    | NewName(pad: string, value: string, spelling: string)
    | NewTag(pad: string, value: string, spelling: string)
    | Digest(pad: string, value: string, spelling: string)
    | Source(pad: string, sha: string, spelling: string)
    | Other(spelling: string)

  const CANONICAL_IMAGE := "ghcr.io/halildeu/platform-web-frontend-testai"

  predicate IsTag(s: string) {
    "sha-" <= s && IsHex(s[4..], 7)
  }

  datatype Request = Request(sha: string, shortSha: string, image: string, tag: string, digest: string)

  /** `validate_request` */
  predicate Proper(req: Request) {
    && IsHex(req.sha, 40)
    && IsHex(req.shortSha, 7) && req.shortSha == req.sha[..7]
    && req.image == CANONICAL_IMAGE
    && IsTag(req.tag) && req.tag == "sha-" + req.shortSha
    && Replay.IsDigest(req.digest)
  }

  /** What a proper request is: a commit, and everything else derived from it and a digest. */
  lemma RequestMeans(req: Request)
    ensures Proper(req) <==>
            && IsHex(req.sha, 40) && req.shortSha == req.sha[..7]
            && req.image == "ghcr.io/halildeu/platform-web-frontend-testai"
            && req.tag == "sha-" + req.sha[..7]
            && "sha256:" <= req.digest && IsHex(req.digest[7..], 64)
  {
    if IsHex(req.sha, 40) {
      var short := req.sha[..7];
      assert forall i :: 0 <= i < 7 ==> short[i] == req.sha[i];
      assert ("sha-" + short)[4..] == short;
    }
  }

  datatype Trouble =
    | BadRequest | NotOneEntry | DuplicateField | WrongImage | BadDigest | BadTag

  // ----- searching

  datatype Count = Zero | One(at: nat) | Many

  function Lookup(lines: seq<Line>, p: Line -> bool): (c: Count)
    ensures c.One? ==> c.at < |lines| && p(lines[c.at])
  {
    if lines == [] then Zero
    else
      var n := |lines| - 1;
      var c := Lookup(lines[..n], p);
      if !p(lines[n]) then c else if c.Zero? then One(n) else Many
  }

  predicate NoneIn(lines: seq<Line>, p: Line -> bool) {
    forall i :: 0 <= i < |lines| ==> !p(lines[i])
  }

  predicate OnlyAt(lines: seq<Line>, p: Line -> bool, i: int) {
    0 <= i < |lines| && p(lines[i]) && forall j :: 0 <= j < |lines| && j != i ==> !p(lines[j])
  }

  /** The search counts none, exactly one (and where) or several. */
  lemma {:induction false} LookupMeans(lines: seq<Line>, p: Line -> bool)
    ensures Lookup(lines, p).Zero? <==> NoneIn(lines, p)
    ensures forall i: nat :: Lookup(lines, p) == One(i) <==> OnlyAt(lines, p, i)
  {
    if lines != [] {
      var n := |lines| - 1;
      var init := lines[..n];
      LookupMeans(init, p);
      assert forall i :: 0 <= i < n ==> init[i] == lines[i];
      assert NoneIn(lines, p) <==> NoneIn(init, p) && !p(lines[n]);
      forall i: nat ensures OnlyAt(lines, p, i) <==>
                            if p(lines[n]) then i == n && NoneIn(init, p) else OnlyAt(init, p, i)
      {
      }
    }
  }

  lemma FoundIsOne(lines: seq<Line>, p: Line -> bool, i: nat)
    requires OnlyAt(lines, p, i)
    ensures Lookup(lines, p) == One(i)
  {
    LookupMeans(lines, p);
  }

  /** Where the entry that starts above line `i` ends: at the next entry of the same indent. */
  function EndFrom(lines: seq<Line>, i: nat, indent: nat): (end: nat)
    requires i <= |lines|
    ensures i <= end <= |lines|
    decreases |lines| - i
  {
    if i == |lines| || (lines[i].Entry? && lines[i].indent == indent) then i
    else EndFrom(lines, i + 1, indent)
  }

  lemma {:induction false} EndIs(lines: seq<Line>, i: nat, indent: nat, end: nat)
    requires i <= end <= |lines|
    requires forall j :: i <= j < end ==> !(lines[j].Entry? && lines[j].indent == indent)
    requires end == |lines| || (lines[end].Entry? && lines[end].indent == indent)
    ensures EndFrom(lines, i, indent) == end
    decreases end - i
  {
    if i < end {
      EndIs(lines, i + 1, indent, end);
    }
  }

  lemma {:induction false} EndMeans(lines: seq<Line>, i: nat, indent: nat)
    requires i <= |lines|
    ensures var end := EndFrom(lines, i, indent);
            && (forall j :: i <= j < end ==> !(lines[j].Entry? && lines[j].indent == indent))
            && (end < |lines| ==> lines[end].Entry? && lines[end].indent == indent)
    decreases |lines| - i
  {
    if i < |lines| && !(lines[i].Entry? && lines[i].indent == indent) {
      EndMeans(lines, i + 1, indent);
    }
  }

  // ----- inspect_lines

  const IsFrontend: Line -> bool := (l: Line) => l.Entry? && l.name == "frontend"
  const IsName: Line -> bool := (l: Line) => l.NewName?
  const IsTagLine: Line -> bool := (l: Line) => l.NewTag?
  const IsDigestLine: Line -> bool := (l: Line) => l.Digest?
  const IsSource: Line -> bool := (l: Line) => l.Source?

  datatype Pin = Pin(
    source: Option<string>,
    tag: Option<string>,
    digest: string,
    pad: string,
    sourceAt: Option<nat>,
    tagAt: Option<nat>,
    digestAt: nat)

  function AtOf(c: Count): Option<nat> {
    if c.One? then Some(c.at) else None
  }

  /** The checks on the lines of the entry; line numbers count from its first line. */
  function InspectBody(body: seq<Line>): Result<Pin, Trouble> {
    Judge(body, Lookup(body, IsName), Lookup(body, IsTagLine), Lookup(body, IsDigestLine), Lookup(body, IsSource))
  }

  function Judge(body: seq<Line>, name: Count, tag: Count, digest: Count, source: Count): Result<Pin, Trouble>
    requires name.One? ==> name.at < |body| && body[name.at].NewName?
    requires tag.One? ==> tag.at < |body| && body[tag.at].NewTag?
    requires digest.One? ==> digest.at < |body| && body[digest.at].Digest?
    requires source.One? ==> source.at < |body| && body[source.at].Source?
  {
    if name.Many? || tag.Many? || digest.Many? || source.Many? then Fail(DuplicateField)
    else if name.Zero? || body[name.at].value != CANONICAL_IMAGE then Fail(WrongImage)
    else if digest.Zero? || !Replay.IsDigest(body[digest.at].value) then Fail(BadDigest)
    else if tag.One? && !IsTag(body[tag.at].value) then Fail(BadTag)
    else
      Ok(Pin(if source.One? then Some(body[source.at].sha) else None,
             if tag.One? then Some(body[tag.at].value) else None,
             body[digest.at].value,
             body[digest.at].pad,
             AtOf(source), AtOf(tag), digest.at))
  }

  datatype Found = Found(start: nat, end: nat, pin: Pin)

  function Located(start: nat, end: nat, r: Result<Pin, Trouble>): Result<Found, Trouble> {
    match r
    case Ok(pin) => Ok(Found(start, end, pin))
    case Fail(why) => Fail(why)
  }

  predicate InEntry(f: Found) {
    && f.start + 1 + f.pin.digestAt < f.end
    && (f.pin.tagAt.Some? ==> f.start + 1 + f.pin.tagAt.value < f.end)
    && (f.pin.sourceAt.Some? ==> f.start + 1 + f.pin.sourceAt.value < f.end)
  }

  datatype Span = Span(start: nat, end: nat)

  /** From the one frontend entry to the next entry of its indent. */
  function EntrySpan(lines: seq<Line>): (r: Option<Span>)
    ensures r.Some? ==> r.value.start < r.value.end <= |lines|
  {
    match Lookup(lines, IsFrontend)
    case One(start) => Some(Span(start, EndFrom(lines, start + 1, lines[start].indent)))
    case _ => None
  }

  function Inspect(lines: seq<Line>): (r: Result<Found, Trouble>)
    ensures r.Ok? ==> r.value.start < r.value.end <= |lines| && InEntry(r.value)
  {
    match EntrySpan(lines)
    case Some(span) => Located(span.start, span.end, InspectBody(lines[span.start + 1..span.end]))
    case None => Fail(NotOneEntry)
  }

  /** The scan for the frontend entry, the one for its end and the one for its fields. */
  method InspectLines(lines: seq<Line>) returns (r: Result<Found, Trouble>)
    ensures r == Inspect(lines)
  {
    var entry := Scan(lines, IsFrontend);
    if !entry.One? {
      return Fail(NotOneEntry);
    }
    var start := entry.at;
    var indent := lines[start].indent;
    var end := ScanEnd(lines, start + 1, indent);
    var body := lines[start + 1..end];
    var name := Scan(body, IsName);
    var tag := Scan(body, IsTagLine);
    var digest := Scan(body, IsDigestLine);
    var source := Scan(body, IsSource);
    var pin := Judge(body, name, tag, digest, source);
    assert pin == InspectBody(body);
    r := Located(start, end, pin);
  }

  method ScanEnd(lines: seq<Line>, from: nat, indent: nat) returns (end: nat)
    requires from <= |lines|
    ensures end == EndFrom(lines, from, indent)
  {
    end := from;
    while end < |lines| && !(lines[end].Entry? && lines[end].indent == indent)
      invariant from <= end <= |lines|
      invariant EndFrom(lines, from, indent) == EndFrom(lines, end, indent)
    {
      end := end + 1;
    }
  }

  method Scan(lines: seq<Line>, p: Line -> bool) returns (c: Count)
    ensures c == Lookup(lines, p)
  {
    c := Zero;
    for i := 0 to |lines|
      invariant c == Lookup(lines[..i], p)
    {
      assert lines[..i + 1][..i] == lines[..i];
      if p(lines[i]) {
        c := if c.Zero? then One(i) else Many;
      }
    }
    assert lines[..|lines|] == lines;
  }

  // ----- what passes inspection

  lemma LinesNamed(l: Line)
    ensures IsFrontend(l) <==> l.Entry? && l.name == "frontend"
    ensures IsName(l) <==> l.NewName?
    ensures IsTagLine(l) <==> l.NewTag?
    ensures IsDigestLine(l) <==> l.Digest?
    ensures IsSource(l) <==> l.Source?
  {
  }

  ghost predicate NoneOrOne(lines: seq<Line>, p: Line -> bool) {
    NoneIn(lines, p) || exists i :: OnlyAt(lines, p, i)
  }

  predicate ShortTag(s: string) {
    |s| == 11 && s[..4] == "sha-" && forall i :: 4 <= i < 11 ==> IsHexDigit(s[i])
  }

  predicate FullDigest(s: string) {
    |s| == 71 && s[..7] == "sha256:" && forall i :: 7 <= i < 71 ==> IsHexDigit(s[i])
  }

  lemma ValuesMean(s: string)
    ensures IsTag(s) <==> ShortTag(s)
    ensures Replay.IsDigest(s) <==> FullDigest(s)
  {
    if |s| >= 4 {
      assert forall i :: 4 <= i < |s| ==> s[i] == s[4..][i - 4];
      assert forall i :: 0 <= i < |s| - 4 ==> s[4..][i] == s[i + 4];
    }
    if |s| >= 7 {
      assert forall i :: 7 <= i < |s| ==> s[i] == s[7..][i - 7];
      assert forall i :: 0 <= i < |s| - 7 ==> s[7..][i] == s[i + 7];
    }
  }

  /** One image line naming the canonical image, one proper digest line, and at most one tag line, a
      proper one, and one revision line. */
  ghost predicate BodyInOrder(body: seq<Line>) {
    && (exists i :: OnlyAt(body, IsName, i) && body[i].value == "ghcr.io/halildeu/platform-web-frontend-testai")
    && (exists i :: OnlyAt(body, IsDigestLine, i) && FullDigest(body[i].value))
    && NoneOrOne(body, IsTagLine) && (forall i :: OnlyAt(body, IsTagLine, i) ==> ShortTag(body[i].value))
    && NoneOrOne(body, IsSource)
  }

  /** The pin says where the managed lines are and what they carry. */
  ghost predicate PinInOrder(body: seq<Line>, pin: Pin) {
    && OnlyAt(body, IsDigestLine, pin.digestAt)
    && pin.digest == body[pin.digestAt].value && pin.pad == body[pin.digestAt].pad
    && (if pin.tagAt.None? then NoneIn(body, IsTagLine) && pin.tag == None
        else OnlyAt(body, IsTagLine, pin.tagAt.value) && pin.tag == Some(body[pin.tagAt.value].value))
    && (if pin.sourceAt.None? then NoneIn(body, IsSource) && pin.source == None
        else OnlyAt(body, IsSource, pin.sourceAt.value) && pin.source == Some(body[pin.sourceAt.value].sha))
  }

  lemma LookupIs(lines: seq<Line>, p: Line -> bool)
    ensures Lookup(lines, p).Many? <==> !NoneOrOne(lines, p)
    ensures Lookup(lines, p).Zero? <==> NoneIn(lines, p)
    ensures Lookup(lines, p).One? ==> OnlyAt(lines, p, Lookup(lines, p).at)
    ensures forall i :: OnlyAt(lines, p, i) ==> Lookup(lines, p) == One(i)
  {
    LookupMeans(lines, p);
    if NoneOrOne(lines, p) && !NoneIn(lines, p) {
      var i :| OnlyAt(lines, p, i);
      assert Lookup(lines, p) == One(i);
    }
    if Lookup(lines, p).One? {
      assert Lookup(lines, p) == One(Lookup(lines, p).at);
    }
    if NoneIn(lines, p) {
      assert forall i :: !OnlyAt(lines, p, i);
    }
    forall i | OnlyAt(lines, p, i) ensures Lookup(lines, p) == One(i) {
    }
  }

  lemma JudgedIff(body: seq<Line>, name: Count, tag: Count, digest: Count, source: Count)
    requires name == Lookup(body, IsName) && tag == Lookup(body, IsTagLine)
    requires digest == Lookup(body, IsDigestLine) && source == Lookup(body, IsSource)
    ensures Judge(body, name, tag, digest, source).Ok? <==> BodyInOrder(body)
    ensures Judge(body, name, tag, digest, source).Ok? ==>
              PinInOrder(body, Judge(body, name, tag, digest, source).value)
  {
    LookupIs(body, IsName);
    LookupIs(body, IsTagLine);
    LookupIs(body, IsDigestLine);
    LookupIs(body, IsSource);
    if tag.One? {
      ValuesMean(body[tag.at].value);
    }
    if digest.One? {
      ValuesMean(body[digest.at].value);
    }
  }

  lemma BodyInspectedIff(body: seq<Line>)
    ensures InspectBody(body).Ok? <==> BodyInOrder(body)
    ensures InspectBody(body).Ok? ==> PinInOrder(body, InspectBody(body).value)
  {
    JudgedIff(body, Lookup(body, IsName), Lookup(body, IsTagLine), Lookup(body, IsDigestLine), Lookup(body, IsSource));
  }

  /** The entry runs from its first line to the next entry of the same indent or the end. */
  ghost predicate SpanInOrder(lines: seq<Line>, start: nat, end: nat) {
    && start < end <= |lines| && OnlyAt(lines, IsFrontend, start) && lines[start].Entry?
    && (forall j :: start < j < end ==> !(lines[j].Entry? && lines[j].indent == lines[start].indent))
    && (end < |lines| ==> lines[end].Entry? && lines[end].indent == lines[start].indent)
  }

  lemma SpanMeans(lines: seq<Line>)
    ensures EntrySpan(lines).Some? <==> exists i :: OnlyAt(lines, IsFrontend, i)
    ensures EntrySpan(lines).Some? ==> SpanInOrder(lines, EntrySpan(lines).value.start, EntrySpan(lines).value.end)
  {
    LookupIs(lines, IsFrontend);
    if EntrySpan(lines).Some? {
      var start := EntrySpan(lines).value.start;
      EndMeans(lines, start + 1, lines[start].indent);
    }
  }

  ghost predicate EntryInOrder(lines: seq<Line>) {
    exists start: nat, end: nat :: SpanInOrder(lines, start, end) && BodyInOrder(lines[start + 1..end])
  }

  lemma EntryMeans(lines: seq<Line>)
    ensures EntryInOrder(lines) <==>
            && EntrySpan(lines).Some?
            && BodyInOrder(lines[EntrySpan(lines).value.start + 1..EntrySpan(lines).value.end])
  {
    SpanMeans(lines);
    if EntrySpan(lines).Some? {
      var span := EntrySpan(lines).value;
      forall start: nat, end: nat | SpanInOrder(lines, start, end) ensures start == span.start && end == span.end {
        SpanUnique(lines, start, end, span.start, span.end);
      }
    }
  }

  /** Exactly which files pass inspection, and what is found: one frontend entry whose lines are in
      order, and their values and places. */
  lemma InspectedIff(lines: seq<Line>)
    ensures Inspect(lines).Ok? <==> EntryInOrder(lines)
    ensures Inspect(lines).Ok? ==>
              var f := Inspect(lines).value;
              SpanInOrder(lines, f.start, f.end) && PinInOrder(lines[f.start + 1..f.end], f.pin)
  {
    EntryMeans(lines);
    SpanMeans(lines);
    if EntrySpan(lines).Some? {
      BodyInspectedIff(lines[EntrySpan(lines).value.start + 1..EntrySpan(lines).value.end]);
    }
  }

  lemma SpanUnique(lines: seq<Line>, start: nat, end: nat, start': nat, end': nat)
    requires SpanInOrder(lines, start, end) && SpanInOrder(lines, start', end')
    ensures start == start' && end == end'
  {
  }

  // ----- apply_pin

  function Insert(lines: seq<Line>, i: nat, x: Line): seq<Line>
    requires i <= |lines|
  {
    lines[..i] + [x] + lines[i..]
  }

  /** `lines[at] = x`, or `lines.insert(fallback, x)` when there is no such line. */
  function Set(lines: seq<Line>, at: Option<nat>, fallback: nat, x: Line): seq<Line>
    requires at.Some? ==> at.value < |lines|
    requires fallback <= |lines|
  {
    if at.Some? then lines[at.value := x] else Insert(lines, fallback, x)
  }

  function Shift(at: Option<nat>, offset: nat): Option<nat> {
    if at.Some? then Some(at.value + offset) else None
  }

  function SetSource(lines: seq<Line>, f: Found, sha: string): seq<Line>
    requires InEntry(f) && f.end <= |lines|
  {
    if f.pin.source == Some(sha) then lines
    else
      Set(lines, Shift(f.pin.sourceAt, f.start + 1),
          f.start + 1 + SourceFallback(f.pin),
          Source(f.pin.pad, sha, ""))
  }

  function SetTag(lines: seq<Line>, f: Found, tag: string): seq<Line>
    requires InEntry(f) && f.end <= |lines|
  {
    if f.pin.tag == Some(tag) then lines
    else Set(lines, Shift(f.pin.tagAt, f.start + 1), f.start + 1 + f.pin.digestAt, NewTag(f.pin.pad, tag, ""))
  }

  function SetDigest(lines: seq<Line>, f: Found, digest: string): seq<Line>
    requires InEntry(f) && f.end <= |lines|
  {
    if f.pin.digest == digest then lines
    else lines[f.start + 1 + f.pin.digestAt := Digest(f.pin.pad, digest, "")]
  }

  datatype Changed = Changed(source: bool, tag: bool, digest: bool)

  datatype Edit = Edit(lines: seq<Line>, changed: Changed)

  /** `apply_pin`, with its inspection before every edit. */
  function Apply(lines: seq<Line>, req: Request): Result<Edit, Trouble> {
    if !Proper(req) then Fail(BadRequest)
    else
      var f0 :- Inspect(lines);
      var l1 := SetSource(lines, f0, req.sha);
      var f1 :- Inspect(l1);
      var l2 := SetTag(l1, f1, req.tag);
      var f2 :- Inspect(l2);
      Ok(Edit(SetDigest(l2, f2, req.digest),
              Changed(f0.pin.source != Some(req.sha), f1.pin.tag != Some(req.tag), f2.pin.digest != req.digest)))
  }

  /** The kustomization file. */
  class Kustomization {
    var lines: seq<Line>

    method ApplyPin(req: Request, check: bool) returns (r: Result<Changed, Trouble>)
      modifies this
      ensures r.Fail? <==> Apply(old(lines), req).Fail?
      ensures r.Ok? ==> r.value == Apply(old(lines), req).value.changed
      ensures lines == if r.Ok? && !check then Apply(old(lines), req).value.lines else old(lines)
    {
      if !Proper(req) {
        return Fail(BadRequest);
      }
      var draft := lines;
      var changed := Changed(false, false, false);
      var first := InspectLines(draft);
      if first.Fail? {
        return Fail(first.error);
      }
      if first.value.pin.source != Some(req.sha) {
        changed := changed.(source := true);
        draft := SetSource(draft, first.value, req.sha);
      }
      var second := InspectLines(draft);
      if second.Fail? {
        return Fail(second.error);
      }
      if second.value.pin.tag != Some(req.tag) {
        changed := changed.(tag := true);
        draft := SetTag(draft, second.value, req.tag);
      }
      var third := InspectLines(draft);
      if third.Fail? {
        return Fail(third.error);
      }
      if third.value.pin.digest != req.digest {
        changed := changed.(digest := true);
        draft := SetDigest(draft, third.value, req.digest);
      }
      if changed != Changed(false, false, false) && !check {
        lines := draft;
      }
      return Ok(changed);
    }
  }

  // ----- edits seen from inside the entry

  function Body(lines: seq<Line>, f: Found): seq<Line>
    requires f.start + 1 <= f.end <= |lines|
  {
    lines[f.start + 1..f.end]
  }

  function WithBody(lines: seq<Line>, f: Found, body: seq<Line>): seq<Line>
    requires f.start + 1 <= f.end <= |lines|
  {
    lines[..f.start + 1] + body + lines[f.end..]
  }

  /** No line of the body opens another frontend entry or ends this one. */
  ghost predicate Inside(body: seq<Line>, indent: nat) {
    forall i :: 0 <= i < |body| ==> body[i].Entry? ==> body[i].indent != indent && body[i].name != "frontend"
  }

  /** The frontend entry runs from `f.start` to `f.end`. */
  ghost predicate Framed(lines: seq<Line>, f: Found) {
    && f.start < f.end <= |lines|
    && OnlyAt(lines, IsFrontend, f.start)
    && Inside(Body(lines, f), lines[f.start].indent)
    && (f.end < |lines| ==> lines[f.end].Entry? && lines[f.end].indent == lines[f.start].indent)
  }

  lemma InspectedBody(lines: seq<Line>, f: Found)
    requires Inspect(lines) == Ok(f)
    ensures Framed(lines, f)
    ensures InspectBody(Body(lines, f)) == Ok(f.pin)
  {
    InspectedParts(lines, f);
    EntryFrame(lines, f);
  }

  lemma InspectedParts(lines: seq<Line>, f: Found)
    requires Inspect(lines) == Ok(f)
    ensures EntrySpan(lines) == Some(Span(f.start, f.end))
    ensures InspectBody(Body(lines, f)) == Ok(f.pin)
  {
  }

  lemma EntryFrame(lines: seq<Line>, f: Found)
    requires EntrySpan(lines) == Some(Span(f.start, f.end))
    ensures Framed(lines, f)
  {
    EndMeans(lines, f.start + 1, lines[f.start].indent);
    LookupMeans(lines, IsFrontend);
    InsideEntry(lines, f.start, f.end);
  }

  lemma InsideEntry(lines: seq<Line>, start: nat, end: nat)
    requires OnlyAt(lines, IsFrontend, start) && start < end <= |lines|
    requires forall j :: start < j < end ==> !(lines[j].Entry? && lines[j].indent == lines[start].indent)
    ensures Inside(lines[start + 1..end], lines[start].indent)
  {
    var body, indent := lines[start + 1..end], lines[start].indent;
    forall i | 0 <= i < |body|
      ensures body[i].Entry? ==> body[i].indent != indent && body[i].name != "frontend"
    {
      assert body[i] == lines[start + 1 + i];
      assert !IsFrontend(lines[start + 1 + i]);
    }
  }

  lemma InsideHasNoEntry(body: seq<Line>, indent: nat)
    requires Inside(body, indent)
    ensures NoneIn(body, IsFrontend)
  {
  }

  lemma StillOneEntry(lines: seq<Line>, f: Found, body: seq<Line>, after: seq<Line>)
    requires f.start < f.end <= |lines| && OnlyAt(lines, IsFrontend, f.start)
    requires NoneIn(body, IsFrontend) && after == WithBody(lines, f, body)
    ensures OnlyAt(after, IsFrontend, f.start)
  {
    var end := f.start + 1 + |body|;
    forall j | 0 <= j < |after| && j != f.start ensures !IsFrontend(after[j]) {
      if j < f.start {
        assert after[j] == lines[j];
      } else if j < end {
        assert after[j] == body[j - f.start - 1];
      } else {
        assert after[j] == lines[j - end + f.end];
      }
    }
  }

  /** The only frontend entry begins at `start`, and `body` is all of it below its first line. */
  ghost predicate Bounded(lines: seq<Line>, start: nat, end: nat, body: seq<Line>) {
    && OnlyAt(lines, IsFrontend, start) && start < end <= |lines| && body == lines[start + 1..end]
    && (forall j :: start < j < end ==> !(lines[j].Entry? && lines[j].indent == lines[start].indent))
    && (end == |lines| || (lines[end].Entry? && lines[end].indent == lines[start].indent))
  }

  /** Replacing the body by another one that stays inside the entry leaves the same entry around it. */
  lemma NewBounds(lines: seq<Line>, f: Found, body: seq<Line>, after: seq<Line>)
    requires Framed(lines, f) && Inside(body, lines[f.start].indent) && after == WithBody(lines, f, body)
    ensures Bounded(after, f.start, f.start + 1 + |body|, body)
  {
    InsideHasNoEntry(body, lines[f.start].indent);
    StillOneEntry(lines, f, body, after);
    NewEnd(lines, f, body, after);
  }

  lemma InspectShape(lines: seq<Line>, start: nat, end: nat, body: seq<Line>)
    requires Bounded(lines, start, end, body)
    ensures Inspect(lines) == Located(start, end, InspectBody(body))
  {
    BoundedSpan(lines, start, end, body);
  }

  lemma BoundedSpan(lines: seq<Line>, start: nat, end: nat, body: seq<Line>)
    requires Bounded(lines, start, end, body)
    ensures EntrySpan(lines) == Some(Span(start, end))
  {
    FoundIsOne(lines, IsFrontend, start);
    EndIs(lines, start + 1, lines[start].indent, end);
  }

  lemma NewEnd(lines: seq<Line>, f: Found, body: seq<Line>, after: seq<Line>)
    requires f.start < f.end <= |lines| && lines[f.start].Entry? && Inside(body, lines[f.start].indent)
    requires after == WithBody(lines, f, body)
    ensures var end := f.start + 1 + |body|;
            && end <= |after|
            && after[f.start] == lines[f.start]
            && after[f.start + 1..end] == body
            && (forall j :: f.start < j < end ==> !(after[j].Entry? && after[j].indent == lines[f.start].indent))
            && (end == |after| <==> f.end == |lines|)
            && (end < |after| ==> after[end] == lines[f.end])
  {
    forall j | f.start < j < f.start + 1 + |body|
      ensures !(after[j].Entry? && after[j].indent == lines[f.start].indent)
    {
      assert after[j] == body[j - f.start - 1];
    }
  }

  lemma SetInsideBody(lines: seq<Line>, f: Found, at: Option<nat>, fallback: nat, x: Line)
    requires f.start + 1 <= f.end <= |lines|
    requires at.Some? ==> at.value < |Body(lines, f)|
    requires fallback <= |Body(lines, f)|
    ensures Set(lines, Shift(at, f.start + 1), f.start + 1 + fallback, x) ==
            WithBody(lines, f, Set(Body(lines, f), at, fallback, x))
  {
    var a, b, c := lines[..f.start + 1], Body(lines, f), lines[f.end..];
    assert lines == a + b + c;
    if at.Some? {
      UpdateInside(lines, a, b, c, at.value, x);
    } else {
      InsertInside(lines, a, b, c, fallback, x);
    }
  }

  lemma UpdateInside(lines: seq<Line>, a: seq<Line>, b: seq<Line>, c: seq<Line>, i: nat, x: Line)
    requires lines == a + b + c && i < |b|
    ensures lines[|a| + i := x] == a + b[i := x] + c
  {
  }

  lemma InsertInside(lines: seq<Line>, a: seq<Line>, b: seq<Line>, c: seq<Line>, i: nat, x: Line)
    requires lines == a + b + c && i <= |b|
    ensures Insert(lines, |a| + i, x) == a + Insert(b, i, x) + c
  {
    assert lines[..|a| + i] == a + b[..i];
    assert lines[|a| + i..] == b[i..] + c;
  }

  // ----- one edit of the body

  predicate Managed(l: Line) {
    l.Source? || l.NewTag? || l.Digest?
  }

  predicate ManagedIn(body: seq<Line>, at: Option<nat>) {
    at.Some? ==> at.value < |body| && Managed(body[at.value])
  }

  /** Everything the editor does not own. */
  function Rest(lines: seq<Line>): seq<Line> {
    if lines == [] then []
    else Rest(lines[..|lines| - 1]) + if Managed(lines[|lines| - 1]) then [] else [lines[|lines| - 1]]
  }

  lemma {:induction false} RestConcat(a: seq<Line>, b: seq<Line>)
    ensures Rest(a + b) == Rest(a) + Rest(b)
  {
    if b == [] {
      assert a + b == a;
    } else {
      var n := |b| - 1;
      RestConcat(a, b[..n]);
      assert (a + b)[..|a + b| - 1] == a + b[..n];
    }
  }

  lemma RestSet(body: seq<Line>, at: Option<nat>, fallback: nat, x: Line)
    requires ManagedIn(body, at) && fallback <= |body| && Managed(x)
    ensures Rest(Set(body, at, fallback, x)) == Rest(body)
  {
    if at.Some? {
      RestReplace(body, at.value, x);
    } else {
      RestInsert(body, fallback, x);
    }
  }

  lemma RestReplace(body: seq<Line>, i: nat, x: Line)
    requires i < |body| && Managed(body[i]) && Managed(x)
    ensures Rest(body[i := x]) == Rest(body)
  {
    var a, b := body[..i], body[i + 1..];
    RestAround(a, body[i], b);
    RestAround(a, x, b);
    assert body == a + [body[i]] + b;
    assert body[i := x] == a + [x] + b;
  }

  lemma SplitAt(s: seq<Line>, i: nat)
    requires i <= |s|
    ensures s == s[..i] + s[i..]
  {
  }

  lemma RestInsert(body: seq<Line>, i: nat, x: Line)
    requires i <= |body| && Managed(x)
    ensures Rest(Insert(body, i, x)) == Rest(body)
  {
    var a, b := body[..i], body[i..];
    SplitAt(body, i);
    RestAround(a, x, b);
    RestConcat(a, b);
  }

  lemma RestAround(a: seq<Line>, x: Line, b: seq<Line>)
    requires Managed(x)
    ensures Rest(a + [x] + b) == Rest(a) + Rest(b)
  {
    RestConcat(a + [x], b);
    RestConcat(a, [x]);
  }

  /** Where a line found at `i` stands after the edit. */
  function Moved(i: nat, at: Option<nat>, fallback: nat): nat {
    if at.None? && fallback <= i then i + 1 else i
  }

  lemma SetElement(body: seq<Line>, at: Option<nat>, fallback: nat, x: Line, i: nat)
    requires (at.Some? ==> at.value < |body|) && fallback <= |body| && i < |body| && at != Some(i)
    ensures Moved(i, at, fallback) < |Set(body, at, fallback, x)|
    ensures Set(body, at, fallback, x)[Moved(i, at, fallback)] == body[i]
  {
  }

  /** A search that the new line does not match, and the old one did not, finds the same line. */
  lemma LookupOthers(body: seq<Line>, at: Option<nat>, fallback: nat, x: Line, q: Line -> bool)
    requires (at.Some? ==> at.value < |body| && !q(body[at.value])) && fallback <= |body| && !q(x)
    ensures var after := Lookup(Set(body, at, fallback, x), q);
            var before := Lookup(body, q);
            && (before.Zero? ==> after.Zero?)
            && (before.One? ==> after == One(Moved(before.at, at, fallback)))
  {
    var next := Set(body, at, fallback, x);
    forall j | 0 <= j < |next|
      ensures next[j] == x || exists i :: 0 <= i < |body| && j == Moved(i, at, fallback) && next[j] == body[i]
    {
      var i := if at.None? && fallback < j then j - 1 else j;
      if at.Some? || j != fallback {
        assert j == Moved(i, at, fallback);
      }
    }
    var before := Lookup(body, q);
    LookupMeans(body, q);
    LookupMeans(next, q);
    if before.One? {
      SetElement(body, at, fallback, x, before.at);
      FoundIsOne(next, q, Moved(before.at, at, fallback));
    }
  }

  /** A search for the edited kind finds the new line. */
  lemma LookupOwn(body: seq<Line>, at: Option<nat>, fallback: nat, x: Line, p: Line -> bool)
    requires Lookup(body, p) == CountOf(at) && fallback <= |body| && p(x)
    ensures var i := if at.Some? then at.value else fallback;
            && Lookup(Set(body, at, fallback, x), p) == One(i)
            && Set(body, at, fallback, x)[i] == x
  {
    LookupMeans(body, p);
    if at.Some? {
      FoundIsOne(body[at.value := x], p, at.value);
    } else {
      LookupInserted(body, fallback, x, p);
    }
  }

  lemma InsertElement(body: seq<Line>, k: nat, x: Line, j: nat)
    requires k <= |body| && j <= |body|
    ensures |Insert(body, k, x)| == |body| + 1
    ensures Insert(body, k, x)[j] == if j < k then body[j] else if j == k then x else body[j - 1]
  {
  }

  lemma LookupInserted(body: seq<Line>, k: nat, x: Line, p: Line -> bool)
    requires Lookup(body, p).Zero? && k <= |body| && p(x)
    ensures Lookup(Insert(body, k, x), p) == One(k) && Insert(body, k, x)[k] == x
  {
    var next := Insert(body, k, x);
    LookupMeans(body, p);
    OnlyInserted(body, k, x, p);
    InsertElement(body, k, x, k);
    FoundIsOne(next, p, k);
  }

  lemma OnlyInserted(body: seq<Line>, k: nat, x: Line, p: Line -> bool)
    requires NoneIn(body, p) && k <= |body| && p(x)
    ensures OnlyAt(Insert(body, k, x), p, k)
  {
    forall j: nat | j <= |body| ensures p(Insert(body, k, x)[j]) <==> j == k {
      InsertElement(body, k, x, j);
    }
  }

  lemma SetStaysInside(body: seq<Line>, at: Option<nat>, fallback: nat, x: Line, indent: nat)
    requires (at.Some? ==> at.value < |body|) && fallback <= |body| && !x.Entry? && Inside(body, indent)
    ensures Inside(Set(body, at, fallback, x), indent)
  {
  }

  function MovedAt(i: Option<nat>, at: Option<nat>, fallback: nat): Option<nat> {
    if i.Some? then Some(Moved(i.value, at, fallback)) else None
  }

  function CountOf(at: Option<nat>): Count {
    if at.Some? then One(at.value) else Zero
  }

  /** What a successful inspection says about the body, the image line being line `n`. */
  ghost predicate Reads(body: seq<Line>, pin: Pin, n: nat) {
    && Lookup(body, IsName) == One(n) && body[n].value == CANONICAL_IMAGE
    && Lookup(body, IsDigestLine) == One(pin.digestAt)
    && body[pin.digestAt].value == pin.digest && body[pin.digestAt].pad == pin.pad && Replay.IsDigest(pin.digest)
    && Lookup(body, IsTagLine) == CountOf(pin.tagAt)
    && pin.tag == (if pin.tagAt.Some? then Some(body[pin.tagAt.value].value) else None)
    && (pin.tag.Some? ==> IsTag(pin.tag.value))
    && Lookup(body, IsSource) == CountOf(pin.sourceAt)
    && pin.source == (if pin.sourceAt.Some? then Some(body[pin.sourceAt.value].sha) else None)
  }

  lemma InspectedReads(body: seq<Line>, pin: Pin) returns (n: nat)
    requires InspectBody(body) == Ok(pin)
    ensures Reads(body, pin, n)
  {
    n := Lookup(body, IsName).at;
  }

  lemma ReadsInspected(body: seq<Line>, pin: Pin, n: nat)
    requires Reads(body, pin, n)
    ensures InspectBody(body) == Ok(pin)
  {
  }

  function SourcePin(pin: Pin, fallback: nat, sha: string): Pin {
    pin.(source := Some(sha),
         sourceAt := Some(if pin.sourceAt.Some? then pin.sourceAt.value else fallback),
         tagAt := MovedAt(pin.tagAt, pin.sourceAt, fallback),
         digestAt := Moved(pin.digestAt, pin.sourceAt, fallback))
  }

  function TagPin(pin: Pin, tag: string): Pin {
    pin.(tag := Some(tag),
         tagAt := Some(if pin.tagAt.Some? then pin.tagAt.value else pin.digestAt),
         sourceAt := MovedAt(pin.sourceAt, pin.tagAt, pin.digestAt),
         digestAt := Moved(pin.digestAt, pin.tagAt, pin.digestAt))
  }

  /** Editing the source line. */
  lemma SourceInBody(body: seq<Line>, pin: Pin, fallback: nat, sha: string)
    requires InspectBody(body) == Ok(pin) && fallback <= |body|
    ensures InspectBody(Set(body, pin.sourceAt, fallback, Source(pin.pad, sha, ""))) ==
            Ok(SourcePin(pin, fallback, sha))
  {
    var at, x := pin.sourceAt, Source(pin.pad, sha, "");
    var n := InspectedReads(body, pin);
    LookupOthers(body, at, fallback, x, IsName);
    LookupOthers(body, at, fallback, x, IsTagLine);
    LookupOthers(body, at, fallback, x, IsDigestLine);
    LookupOwn(body, at, fallback, x, IsSource);
    SetElement(body, at, fallback, x, n);
    SetElement(body, at, fallback, x, pin.digestAt);
    if pin.tagAt.Some? {
      SetElement(body, at, fallback, x, pin.tagAt.value);
    }
    ReadsInspected(Set(body, at, fallback, x),
                   SourcePin(pin, fallback, sha),
                   Moved(n, at, fallback));
  }

  /** Editing the tag line, which when missing goes right above the digest line. */
  lemma TagInBody(body: seq<Line>, pin: Pin, tag: string)
    requires InspectBody(body) == Ok(pin) && IsTag(tag)
    ensures pin.digestAt < |body|
    ensures InspectBody(Set(body, pin.tagAt, pin.digestAt, NewTag(pin.pad, tag, ""))) ==
            Ok(TagPin(pin, tag))
  {
    var at, fallback, x := pin.tagAt, pin.digestAt, NewTag(pin.pad, tag, "");
    var n := InspectedReads(body, pin);
    LookupOthers(body, at, fallback, x, IsName);
    LookupOthers(body, at, fallback, x, IsSource);
    LookupOthers(body, at, fallback, x, IsDigestLine);
    LookupOwn(body, at, fallback, x, IsTagLine);
    SetElement(body, at, fallback, x, n);
    SetElement(body, at, fallback, x, pin.digestAt);
    if pin.sourceAt.Some? {
      SetElement(body, at, fallback, x, pin.sourceAt.value);
    }
    ReadsInspected(Set(body, at, fallback, x),
                   TagPin(pin, tag),
                   Moved(n, at, fallback));
  }

  /** Editing the digest line, which is always there. */
  lemma DigestInBody(body: seq<Line>, pin: Pin, digest: string)
    requires InspectBody(body) == Ok(pin) && Replay.IsDigest(digest)
    ensures pin.digestAt < |body|
    ensures InspectBody(Set(body, Some(pin.digestAt), pin.digestAt, Digest(pin.pad, digest, ""))) ==
            Ok(pin.(digest := digest))
  {
    var at, fallback, x := Some(pin.digestAt), pin.digestAt, Digest(pin.pad, digest, "");
    var n := InspectedReads(body, pin);
    LookupOthers(body, at, fallback, x, IsName);
    LookupOthers(body, at, fallback, x, IsSource);
    LookupOthers(body, at, fallback, x, IsTagLine);
    LookupOwn(body, at, fallback, x, IsDigestLine);
    ReadsInspected(Set(body, at, fallback, x), pin.(digest := digest), n);
  }

  // ----- the whole edit

  /** The file after one edit: same entry, the body edited, everything else as it was. */
  ghost predicate EditedTo(lines: seq<Line>, next: seq<Line>, f: Found, pin: Pin) {
    && f.start + 1 <= f.end <= |lines|
    && Inspect(next).Ok?
    && Inspect(next).value.start == f.start
    && Inspect(next).value.pin == pin
    && Rest(next) == Rest(lines)
    && next[..f.start + 1] == lines[..f.start + 1]
    && next[Inspect(next).value.end..] == lines[f.end..]
  }

  lemma BodyEdit(lines: seq<Line>, f: Found, body: seq<Line>, at: Option<nat>, fallback: nat, x: Line, pin: Pin,
                 next: seq<Line>)
    requires Framed(lines, f) && body == Body(lines, f) && !x.Entry? && Managed(x)
    requires ManagedIn(body, at) && fallback <= |body|
    requires InspectBody(Set(body, at, fallback, x)) == Ok(pin)
    requires next == Set(lines, Shift(at, f.start + 1), f.start + 1 + fallback, x)
    ensures EditedTo(lines, next, f, pin)
  {
    var body' := Set(body, at, fallback, x);
    SetStaysInside(body, at, fallback, x, lines[f.start].indent);
    SetInsideBody(lines, f, at, fallback, x);
    NewBounds(lines, f, body', next);
    InspectShape(next, f.start, f.start + 1 + |body'|, body');
    RestSet(body, at, fallback, x);
    RestOfParts(lines, f, body');
  }

  lemma RestOfParts(lines: seq<Line>, f: Found, body: seq<Line>)
    requires f.start + 1 <= f.end <= |lines| && Rest(body) == Rest(Body(lines, f))
    ensures Rest(WithBody(lines, f, body)) == Rest(lines)
    ensures WithBody(lines, f, body)[..f.start + 1] == lines[..f.start + 1]
    ensures WithBody(lines, f, body)[f.start + 1 + |body|..] == lines[f.end..]
  {
    PartsKept(lines, f, body);
    RestOfThree(lines[..f.start + 1], body, lines[f.end..]);
    RestOfThree(lines[..f.start + 1], Body(lines, f), lines[f.end..]);
  }

  lemma PartsKept(lines: seq<Line>, f: Found, body: seq<Line>)
    requires f.start + 1 <= f.end <= |lines|
    ensures WithBody(lines, f, body)[..f.start + 1] == lines[..f.start + 1]
    ensures WithBody(lines, f, body)[f.start + 1 + |body|..] == lines[f.end..]
    ensures WithBody(lines, f, Body(lines, f)) == lines
  {
  }

  lemma RestOfThree(a: seq<Line>, b: seq<Line>, c: seq<Line>)
    ensures Rest(a + b + c) == Rest(a) + Rest(b) + Rest(c)
  {
    RestConcat(a + b, c);
    RestConcat(a, b);
  }

  lemma NothingEdited(lines: seq<Line>, f: Found)
    requires Inspect(lines) == Ok(f)
    ensures EditedTo(lines, lines, f, f.pin)
  {
  }

  /** The entry was found, its body inspected, and the managed lines found are lines of it. */
  ghost predicate Editable(lines: seq<Line>, f: Found) {
    && Framed(lines, f) && InEntry(f)
    && InspectBody(Body(lines, f)) == Ok(f.pin)
    && ManagedIn(Body(lines, f), Some(f.pin.digestAt))
    && ManagedIn(Body(lines, f), f.pin.tagAt)
    && ManagedIn(Body(lines, f), f.pin.sourceAt)
    && SourceFallback(f.pin) < |Body(lines, f)|
  }

  lemma Places(lines: seq<Line>, f: Found)
    requires Inspect(lines) == Ok(f)
    ensures Editable(lines, f)
  {
    InspectedBody(lines, f);
    ManagedPlaces(Body(lines, f), f.pin);
  }

  lemma ManagedPlaces(body: seq<Line>, pin: Pin)
    requires InspectBody(body) == Ok(pin)
    ensures ManagedIn(body, Some(pin.digestAt)) && ManagedIn(body, pin.tagAt) && ManagedIn(body, pin.sourceAt)
  {
  }

  function SourceFallback(pin: Pin): nat {
    if pin.tagAt.Some? then pin.tagAt.value else pin.digestAt
  }

  lemma SourceEdit(lines: seq<Line>, f: Found, body: seq<Line>, fallback: nat, sha: string, next: seq<Line>)
    requires Framed(lines, f) && body == Body(lines, f) && InspectBody(body) == Ok(f.pin)
    requires ManagedIn(body, f.pin.sourceAt) && fallback <= |body|
    requires next == Set(lines, Shift(f.pin.sourceAt, f.start + 1), f.start + 1 + fallback, Source(f.pin.pad, sha, ""))
    ensures EditedTo(lines, next, f, SourcePin(f.pin, fallback, sha))
  {
    SourceInBody(body, f.pin, fallback, sha);
    BodyEdit(lines, f, body, f.pin.sourceAt, fallback, Source(f.pin.pad, sha, ""),
             SourcePin(f.pin, fallback, sha), next);
  }

  lemma TagEdit(lines: seq<Line>, f: Found, body: seq<Line>, tag: string, next: seq<Line>)
    requires Framed(lines, f) && body == Body(lines, f) && InspectBody(body) == Ok(f.pin)
    requires ManagedIn(body, f.pin.tagAt) && f.pin.digestAt <= |body| && IsTag(tag)
    requires next == Set(lines, Shift(f.pin.tagAt, f.start + 1), f.start + 1 + f.pin.digestAt,
                         NewTag(f.pin.pad, tag, ""))
    ensures EditedTo(lines, next, f, TagPin(f.pin, tag))
  {
    TagInBody(body, f.pin, tag);
    BodyEdit(lines, f, body, f.pin.tagAt, f.pin.digestAt, NewTag(f.pin.pad, tag, ""), TagPin(f.pin, tag), next);
  }

  lemma DigestEdit(lines: seq<Line>, f: Found, digest: string)
    requires Inspect(lines) == Ok(f) && Replay.IsDigest(digest) && f.pin.digest != digest
    ensures EditedTo(lines, SetDigest(lines, f, digest), f, f.pin.(digest := digest))
  {
    Places(lines, f);
    var body := Body(lines, f);
    DigestInBody(body, f.pin, digest);
    BodyEdit(lines, f, body, Some(f.pin.digestAt), f.pin.digestAt, Digest(f.pin.pad, digest, ""),
             f.pin.(digest := digest), SetDigest(lines, f, digest));
  }

  lemma SourceChange(lines: seq<Line>, f: Found, sha: string, next: seq<Line>)
    requires Editable(lines, f) && f.pin.source != Some(sha) && next == SetSource(lines, f, sha)
    ensures EditedTo(lines, next, f, SourcePin(f.pin, SourceFallback(f.pin), sha))
  {
    SetSourceIs(lines, f, sha, next);
    SourceEdit(lines, f, Body(lines, f), SourceFallback(f.pin), sha, next);
  }

  lemma SetSourceIs(lines: seq<Line>, f: Found, sha: string, next: seq<Line>)
    requires InEntry(f) && f.end <= |lines| && f.pin.source != Some(sha) && next == SetSource(lines, f, sha)
    ensures next == Set(lines, Shift(f.pin.sourceAt, f.start + 1), f.start + 1 + SourceFallback(f.pin),
                        Source(f.pin.pad, sha, ""))
  {
  }

  lemma TagChange(lines: seq<Line>, f: Found, tag: string, next: seq<Line>)
    requires Editable(lines, f) && IsTag(tag) && f.pin.tag != Some(tag) && next == SetTag(lines, f, tag)
    ensures EditedTo(lines, next, f, TagPin(f.pin, tag))
  {
    SetTagIs(lines, f, tag, next);
    TagEdit(lines, f, Body(lines, f), tag, next);
  }

  lemma SetTagIs(lines: seq<Line>, f: Found, tag: string, next: seq<Line>)
    requires InEntry(f) && f.end <= |lines| && f.pin.tag != Some(tag) && next == SetTag(lines, f, tag)
    ensures next == Set(lines, Shift(f.pin.tagAt, f.start + 1), f.start + 1 + f.pin.digestAt,
                        NewTag(f.pin.pad, tag, ""))
  {
  }

  function SourceStepPin(pin: Pin, sha: string): Pin {
    if pin.source == Some(sha) then pin else SourcePin(pin, SourceFallback(pin), sha)
  }

  function TagStepPin(pin: Pin, tag: string): Pin {
    if pin.tag == Some(tag) then pin else TagPin(pin, tag)
  }

  /** A revision line that was missing ends up right above the tag line, and a tag line that was
      missing right above the digest line. */
  ghost predicate InsertedAbove(before: Pin, after: Pin) {
    && (before.source.None? ==> after.sourceAt.Some? && after.tagAt == Some(after.sourceAt.value + 1))
    && (before.tag.None? ==> after.tagAt == Some(after.digestAt - 1) && after.digestAt > 0)
  }

  lemma StepsInsertAbove(pin: Pin, sha: string, tag: string)
    requires (pin.source.None? <==> pin.sourceAt.None?) && (pin.tag.None? <==> pin.tagAt.None?)
    ensures InsertedAbove(pin, TagStepPin(SourceStepPin(pin, sha), tag))
  {
  }

  lemma PlacesMatch(lines: seq<Line>, f: Found)
    requires Inspect(lines) == Ok(f)
    ensures (f.pin.source.None? <==> f.pin.sourceAt.None?) && (f.pin.tag.None? <==> f.pin.tagAt.None?)
  {
  }

  /** The three steps, each of which may find its line already as requested. */
  lemma SourceStep(lines: seq<Line>, f: Found, sha: string) returns (pin: Pin)
    requires Inspect(lines) == Ok(f)
    ensures pin == SourceStepPin(f.pin, sha)
    ensures EditedTo(lines, SetSource(lines, f, sha), f, pin)
  {
    if f.pin.source == Some(sha) {
      pin := f.pin;
      NothingEdited(lines, f);
    } else {
      pin := SourcePin(f.pin, SourceFallback(f.pin), sha);
      Places(lines, f);
      SourceChange(lines, f, sha, SetSource(lines, f, sha));
    }
  }

  lemma TagStep(lines: seq<Line>, f: Found, tag: string) returns (pin: Pin)
    requires Inspect(lines) == Ok(f) && IsTag(tag)
    ensures pin == TagStepPin(f.pin, tag)
    ensures EditedTo(lines, SetTag(lines, f, tag), f, pin)
  {
    if f.pin.tag == Some(tag) {
      pin := f.pin;
      NothingEdited(lines, f);
    } else {
      pin := TagPin(f.pin, tag);
      Places(lines, f);
      TagChange(lines, f, tag, SetTag(lines, f, tag));
    }
  }

  lemma DigestStep(lines: seq<Line>, f: Found, digest: string) returns (pin: Pin)
    requires Inspect(lines) == Ok(f) && Replay.IsDigest(digest)
    ensures pin == f.pin.(digest := digest)
    ensures EditedTo(lines, SetDigest(lines, f, digest), f, pin)
  {
    if f.pin.digest == digest {
      pin := f.pin;
      NothingEdited(lines, f);
    } else {
      pin := f.pin.(digest := digest);
      DigestEdit(lines, f, digest);
    }
  }

  lemma EditsCompose(a: seq<Line>, b: seq<Line>, c: seq<Line>, f: Found, g: Found, pin: Pin)
    requires Inspect(b) == Ok(g) && g.start == f.start
    requires EditedTo(a, b, f, g.pin) && EditedTo(b, c, g, pin)
    ensures EditedTo(a, c, f, pin)
  {
  }

  /** For every file that passes inspection and every proper request: no later inspection can
      fail, the result carries exactly the requested revision, tag and digest, and nothing but
      managed lines was added, replaced or moved. */
  lemma ApplySucceeds(lines: seq<Line>, req: Request)
    requires Proper(req) && Inspect(lines).Ok?
    ensures Apply(lines, req).Ok?
    ensures Inspect(Apply(lines, req).value.lines).Ok?
    ensures var before, after := Inspect(lines).value, Inspect(Apply(lines, req).value.lines).value;
            && after.pin.source == Some(req.sha) && after.pin.tag == Some(req.tag) && after.pin.digest == req.digest
            && EditedTo(lines, Apply(lines, req).value.lines, before, after.pin)
            && after.pin == RequestedPin(before.pin, req)
            && InsertedAbove(before.pin, after.pin)
            && SettledLinesKept(lines, Apply(lines, req).value.lines, before, after.pin, req)
  {
    var f0 := Inspect(lines).value;
    var pin := ApplyEdits(lines, req, f0);
    ApplyKeeps(lines, req, f0);
    PlacesMatch(lines, f0);
    RequestedPinMeans(f0.pin, req);
    assert Inspect(Apply(lines, req).value.lines).value.pin == pin;
  }

  // ----- lines that already carry what is requested

  /** Line `i` of the entry is line `j` of the entry afterwards, to the character. */
  ghost predicate LineKept(lines: seq<Line>, next: seq<Line>, start: nat, i: nat, j: nat) {
    start + 1 + i < |lines| && start + 1 + j < |next| && next[start + 1 + j] == lines[start + 1 + i]
  }

  ghost predicate PlaceKept(lines: seq<Line>, next: seq<Line>, start: nat, i: Option<nat>, j: Option<nat>) {
    i.Some? ==> j.Some? && LineKept(lines, next, start, i.value, j.value)
  }

  /** A managed line that already had the requested value is kept as it was spelled. */
  ghost predicate SettledLinesKept(lines: seq<Line>, after: seq<Line>, f: Found, pin: Pin, req: Request) {
    && (f.pin.source == Some(req.sha) ==> PlaceKept(lines, after, f.start, f.pin.sourceAt, pin.sourceAt))
    && (f.pin.tag == Some(req.tag) ==> PlaceKept(lines, after, f.start, f.pin.tagAt, pin.tagAt))
    && (f.pin.digest == req.digest ==> LineKept(lines, after, f.start, f.pin.digestAt, pin.digestAt))
  }

  /** The managed lines found are different lines inside the entry. */
  ghost predicate Apart(lines: seq<Line>, f: Found) {
    && InEntry(f) && f.end <= |lines|
    && f.pin.sourceAt != Some(f.pin.digestAt) && f.pin.tagAt != Some(f.pin.digestAt)
    && (f.pin.sourceAt.Some? ==> f.pin.sourceAt != f.pin.tagAt)
  }

  lemma InspectedApart(lines: seq<Line>, f: Found)
    requires Inspect(lines) == Ok(f)
    ensures Apart(lines, f)
  {
    InspectedBody(lines, f);
    BodyApart(Body(lines, f), f.pin);
  }

  lemma BodyApart(body: seq<Line>, pin: Pin)
    requires InspectBody(body) == Ok(pin)
    ensures pin.sourceAt != Some(pin.digestAt) && pin.tagAt != Some(pin.digestAt)
    ensures pin.sourceAt.Some? ==> pin.sourceAt != pin.tagAt
  {
    var n := InspectedReads(body, pin);
  }

  lemma SetKeeps(lines: seq<Line>, start: nat, at: Option<nat>, fallback: nat, x: Line, next: seq<Line>, i: nat)
    requires (at.Some? ==> start + 1 + at.value < |lines|) && start + 1 + fallback <= |lines|
    requires next == Set(lines, Shift(at, start + 1), start + 1 + fallback, x)
    requires start + 1 + i < |lines| && at != Some(i)
    ensures LineKept(lines, next, start, i, Moved(i, at, fallback))
  {
  }

  lemma SourceKeeps(lines: seq<Line>, f: Found, sha: string, next: seq<Line>)
    requires Apart(lines, f) && next == SetSource(lines, f, sha)
    ensures var pin := SourceStepPin(f.pin, sha);
            && LineKept(lines, next, f.start, f.pin.digestAt, pin.digestAt)
            && PlaceKept(lines, next, f.start, f.pin.tagAt, pin.tagAt)
            && (f.pin.source == Some(sha) ==> PlaceKept(lines, next, f.start, f.pin.sourceAt, pin.sourceAt))
  {
    if f.pin.source != Some(sha) {
      var at, fallback, x := f.pin.sourceAt, SourceFallback(f.pin), Source(f.pin.pad, sha, "");
      SetKeeps(lines, f.start, at, fallback, x, next, f.pin.digestAt);
      if f.pin.tagAt.Some? {
        SetKeeps(lines, f.start, at, fallback, x, next, f.pin.tagAt.value);
      }
    }
  }

  lemma TagKeeps(lines: seq<Line>, f: Found, tag: string, next: seq<Line>)
    requires Apart(lines, f) && next == SetTag(lines, f, tag)
    ensures var pin := TagStepPin(f.pin, tag);
            && LineKept(lines, next, f.start, f.pin.digestAt, pin.digestAt)
            && PlaceKept(lines, next, f.start, f.pin.sourceAt, pin.sourceAt)
            && (f.pin.tag == Some(tag) ==> PlaceKept(lines, next, f.start, f.pin.tagAt, pin.tagAt))
  {
    if f.pin.tag != Some(tag) {
      var at, fallback, x := f.pin.tagAt, f.pin.digestAt, NewTag(f.pin.pad, tag, "");
      SetKeeps(lines, f.start, at, fallback, x, next, f.pin.digestAt);
      if f.pin.sourceAt.Some? {
        SetKeeps(lines, f.start, at, fallback, x, next, f.pin.sourceAt.value);
      }
    }
  }

  lemma DigestKeeps(lines: seq<Line>, f: Found, digest: string, next: seq<Line>)
    requires Apart(lines, f) && next == SetDigest(lines, f, digest)
    ensures f.pin.digest == digest ==> LineKept(lines, next, f.start, f.pin.digestAt, f.pin.digestAt)
    ensures PlaceKept(lines, next, f.start, f.pin.sourceAt, f.pin.sourceAt)
    ensures PlaceKept(lines, next, f.start, f.pin.tagAt, f.pin.tagAt)
  {
  }

  lemma ApplyKeeps(lines: seq<Line>, req: Request, f0: Found)
    requires Proper(req) && Inspect(lines) == Ok(f0)
    ensures Apply(lines, req).Ok?
    ensures SettledLinesKept(lines, Apply(lines, req).value.lines, f0, RequestedPin(f0.pin, req), req)
  {
    var p1 := SourceStep(lines, f0, req.sha);
    var l1 := SetSource(lines, f0, req.sha);
    var f1 := Inspect(l1).value;
    var p2 := TagStep(l1, f1, req.tag);
    var l2 := SetTag(l1, f1, req.tag);
    var f2 := Inspect(l2).value;
    var p3 := DigestStep(l2, f2, req.digest);
    var l3 := SetDigest(l2, f2, req.digest);
    InspectedApart(lines, f0);
    InspectedApart(l1, f1);
    InspectedApart(l2, f2);
    SourceKeeps(lines, f0, req.sha, l1);
    TagKeeps(l1, f1, req.tag, l2);
    DigestKeeps(l2, f2, req.digest, l3);
    KeptThrice(lines, l1, l2, l3, f0, f1, f2, req);
    assert Apply(lines, req).Ok? && Apply(lines, req).value.lines == l3;
  }

  lemma KeptThrice(l0: seq<Line>, l1: seq<Line>, l2: seq<Line>, l3: seq<Line>, f0: Found, f1: Found, f2: Found,
                   req: Request)
    requires f0.start == f1.start == f2.start
    requires f1.pin == SourceStepPin(f0.pin, req.sha) && f2.pin == TagStepPin(f1.pin, req.tag)
    requires LineKept(l0, l1, f0.start, f0.pin.digestAt, f1.pin.digestAt)
    requires LineKept(l1, l2, f0.start, f1.pin.digestAt, f2.pin.digestAt)
    requires f2.pin.digest == req.digest ==> LineKept(l2, l3, f0.start, f2.pin.digestAt, f2.pin.digestAt)
    requires PlaceKept(l0, l1, f0.start, f0.pin.tagAt, f1.pin.tagAt)
    requires f1.pin.tag == Some(req.tag) ==> PlaceKept(l1, l2, f0.start, f1.pin.tagAt, f2.pin.tagAt)
    requires PlaceKept(l2, l3, f0.start, f2.pin.tagAt, f2.pin.tagAt)
    requires f0.pin.source == Some(req.sha) ==> PlaceKept(l0, l1, f0.start, f0.pin.sourceAt, f1.pin.sourceAt)
    requires PlaceKept(l1, l2, f0.start, f1.pin.sourceAt, f2.pin.sourceAt)
    requires PlaceKept(l2, l3, f0.start, f2.pin.sourceAt, f2.pin.sourceAt)
    ensures SettledLinesKept(l0, l3, f0, f2.pin.(digest := req.digest), req)
  {
  }

  lemma RequestedPinMeans(pin: Pin, req: Request)
    requires (pin.source.None? <==> pin.sourceAt.None?) && (pin.tag.None? <==> pin.tagAt.None?)
    ensures var after := RequestedPin(pin, req);
            && after.source == Some(req.sha) && after.tag == Some(req.tag) && after.digest == req.digest
            && InsertedAbove(pin, after)
  {
    StepsInsertAbove(pin, req.sha, req.tag);
  }

  function RequestedPin(pin: Pin, req: Request): Pin {
    TagStepPin(SourceStepPin(pin, req.sha), req.tag).(digest := req.digest)
  }

  lemma ApplyEdits(lines: seq<Line>, req: Request, f0: Found) returns (pin: Pin)
    requires Proper(req) && Inspect(lines) == Ok(f0)
    ensures Apply(lines, req).Ok? && EditedTo(lines, Apply(lines, req).value.lines, f0, pin)
    ensures pin == RequestedPin(f0.pin, req)
  {
    var p1 := SourceStep(lines, f0, req.sha);
    var l1 := SetSource(lines, f0, req.sha);
    var f1 := Inspect(l1).value;
    var p2 := TagStep(l1, f1, req.tag);
    var l2 := SetTag(l1, f1, req.tag);
    var f2 := Inspect(l2).value;
    pin := DigestStep(l2, f2, req.digest);
    var l3 := SetDigest(l2, f2, req.digest);
    EditsCompose(lines, l1, l2, f0, f1, p2);
    EditsCompose(lines, l2, l3, f0, f2, pin);
    assert Apply(lines, req).Ok? && Apply(lines, req).value.lines == l3;
  }

  /** A second application changes nothing and reports no change. */
  lemma ApplyTwice(lines: seq<Line>, req: Request)
    requires Proper(req) && Inspect(lines).Ok?
    ensures Apply(lines, req).Ok?
    ensures Apply(Apply(lines, req).value.lines, req) ==
            Ok(Edit(Apply(lines, req).value.lines, Changed(false, false, false)))
  {
    ApplySucceeds(lines, req);
  }
}
