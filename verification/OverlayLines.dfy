/** Which digest line belongs to which service, said about the lines of the overlay: what the
    rewriter's index and the inspector's scan compute, and when the two mean the same lines
    (scripts/automation/apply-test-overlay-digests.py,
    scripts/automation/backend-testai-digest-contract.py). */
module OverlayLines {
  import opened Json
  import opened DigestRewriter

  /** The two readers differ in the image lines they know: the rewriter those of any GHCR owner,
      the inspector those of the canonical owner and of the local registry. */
  datatype Reader = Rewriter | Inspector

  predicate Knows(r: Reader, l: Line) {
    l.Image? && if r.Rewriter? then l.registry.Ghcr? else l.registry in {Ghcr(OWNER), Local}
  }

  /** Where an image line stops being the current one: at the next entry, known image or digest. */
  predicate Stops(r: Reader, l: Line) {
    l.Entry? || l.Digest? || Knows(r, l)
  }

  /** Image line `j` of the service is current just before line `i`. */
  ghost predicate OpenFrom(lines: seq<Line>, r: Reader, s: string, j: int, i: int) {
    && 0 <= j < i <= |lines| && Knows(r, lines[j]) && lines[j].service == s
    && forall k :: j < k < i ==> !Stops(r, lines[k])
  }

  ghost predicate OpenAt(lines: seq<Line>, r: Reader, s: string, i: int) {
    exists j :: OpenFrom(lines, r, s, j, i)
  }

  /** Line `i` is a digest line of the service: the first below an image line of it, in its entry. */
  ghost predicate DigestOf(lines: seq<Line>, r: Reader, s: string, i: int) {
    0 <= i < |lines| && lines[i].Digest? && OpenAt(lines, r, s, i)
  }

  ghost predicate LastDigestOf(lines: seq<Line>, r: Reader, s: string, i: int) {
    DigestOf(lines, r, s, i) && forall j :: i < j ==> !DigestOf(lines, r, s, j)
  }

  ghost predicate HasDigest(lines: seq<Line>, r: Reader, s: string) {
    exists i :: DigestOf(lines, r, s, i)
  }

  /** A digest line belongs to one service only, so it is never attributed across entries. */
  lemma OneService(lines: seq<Line>, r: Reader, s: string, t: string, i: int)
    requires OpenAt(lines, r, s, i) && OpenAt(lines, r, t, i)
    ensures s == t
  {
    var j :| OpenFrom(lines, r, s, j, i);
    var k :| OpenFrom(lines, r, t, k, i);
    assert j == k;
  }

  // ----- one more line

  lemma OpenPrefix(lines: seq<Line>, init: seq<Line>, r: Reader, s: string, i: int)
    requires init <= lines && i <= |init|
    ensures OpenAt(lines, r, s, i) <==> OpenAt(init, r, s, i)
  {
    assert forall k :: 0 <= k < |init| ==> lines[k] == init[k];
    assert forall j :: OpenFrom(lines, r, s, j, i) <==> OpenFrom(init, r, s, j, i);
  }

  lemma OpenNext(lines: seq<Line>, r: Reader, s: string)
    requires lines != []
    ensures var n := |lines| - 1;
            OpenAt(lines, r, s, n + 1) <==>
            if Stops(r, lines[n]) then Knows(r, lines[n]) && lines[n].service == s else OpenAt(lines, r, s, n)
  {
    var n := |lines| - 1;
    if OpenAt(lines, r, s, n + 1) {
      var j :| OpenFrom(lines, r, s, j, n + 1);
      assert j < n ==> OpenFrom(lines, r, s, j, n) && !Stops(r, lines[n]);
    }
    if Knows(r, lines[n]) && lines[n].service == s {
      assert OpenFrom(lines, r, s, n, n + 1);
    }
    if !Stops(r, lines[n]) && OpenAt(lines, r, s, n) {
      var j :| OpenFrom(lines, r, s, j, n);
      assert OpenFrom(lines, r, s, j, n + 1);
    }
  }

  lemma DigestPrefix(lines: seq<Line>, init: seq<Line>, r: Reader, s: string, i: int)
    requires init <= lines && i < |init|
    ensures DigestOf(lines, r, s, i) <==> DigestOf(init, r, s, i)
  {
    if 0 <= i {
      assert lines[i] == init[i];
      OpenPrefix(lines, init, r, s, i);
    }
  }

  lemma DigestLast(lines: seq<Line>, init: seq<Line>, r: Reader, s: string)
    requires lines != [] && init == lines[..|lines| - 1]
    ensures DigestOf(lines, r, s, |init|) <==> lines[|init|].Digest? && OpenAt(init, r, s, |init|)
  {
    OpenPrefix(lines, init, r, s, |init|);
  }

  lemma HasDigestNext(lines: seq<Line>, init: seq<Line>, r: Reader, s: string)
    requires lines != [] && init == lines[..|lines| - 1]
    ensures HasDigest(lines, r, s) <==>
            HasDigest(init, r, s) || DigestOf(lines, r, s, |init|)
  {
    if HasDigest(lines, r, s) {
      var i :| DigestOf(lines, r, s, i);
      if i < |init| {
        DigestPrefix(lines, init, r, s, i);
      }
    }
    if HasDigest(init, r, s) {
      var i :| DigestOf(init, r, s, i);
      DigestPrefix(lines, init, r, s, i);
    }
  }

  // ----- the rewriter's index

  /** The service the index has open is the one open at the end of the lines. */
  lemma {:induction false} CurrentMeans(lines: seq<Line>, s: string)
    ensures IndexFold(lines).current == Some(s) <==> OpenAt(lines, Rewriter, s, |lines|)
  {
    if lines != [] {
      var init := lines[..|lines| - 1];
      CurrentMeans(init, s);
      OpenNext(lines, Rewriter, s);
      OpenPrefix(lines, init, Rewriter, s, |init|);
    }
  }

  /** The index names exactly the services that have a digest line, each with its last one. */
  lemma {:induction false} PlacesMeaning(lines: seq<Line>, s: string)
    ensures s in Places(lines) <==> HasDigest(lines, Rewriter, s)
    ensures s in Places(lines) ==> LastDigestOf(lines, Rewriter, s, Places(lines)[s])
  {
    if lines != [] {
      var init := lines[..|lines| - 1];
      PlacesMeaning(init, s);
      CurrentMeans(init, s);
      DigestLast(lines, init, Rewriter, s);
      HasDigestNext(lines, init, Rewriter, s);
      LastDigestNext(lines, init, s);
    }
  }

  lemma LastDigestNext(lines: seq<Line>, init: seq<Line>, s: string)
    requires lines != [] && init == lines[..|lines| - 1]
    ensures DigestOf(lines, Rewriter, s, |init|) ==> LastDigestOf(lines, Rewriter, s, |init|)
    ensures !DigestOf(lines, Rewriter, s, |init|) ==>
              forall i :: LastDigestOf(init, Rewriter, s, i) ==> LastDigestOf(lines, Rewriter, s, i)
  {
    forall i | i < |init| ensures DigestOf(lines, Rewriter, s, i) <==> DigestOf(init, Rewriter, s, i) {
      DigestPrefix(lines, init, Rewriter, s, i);
    }
  }

  // ----- the inspector's scan

  /** Exception marker `k` stands above line `i` in the same entry. */
  ghost predicate MarkedFrom(lines: seq<Line>, k: int, i: int) {
    0 <= k < i <= |lines| && lines[k].Exception? && forall m :: k < m < i ==> !lines[m].Entry?
  }

  ghost predicate Marked(lines: seq<Line>, i: int) {
    exists k :: MarkedFrom(lines, k, i)
  }

  predicate RequiredLocal(l: Line) {
    l.Image? && l.registry.Local? && l.service in REQUIRED
  }

  /** Every required service from the local registry has its exception above it in its entry. */
  ghost predicate AllMarked(lines: seq<Line>) {
    forall i :: 0 <= i < |lines| && RequiredLocal(lines[i]) ==> Marked(lines, i)
  }

  ghost predicate AtMostOneDigest(lines: seq<Line>) {
    forall s, i, j :: s in REQUIRED && DigestOf(lines, Inspector, s, i) && DigestOf(lines, Inspector, s, j) ==> i == j
  }

  lemma MarkedPrefix(lines: seq<Line>, init: seq<Line>, i: int)
    requires init <= lines && i <= |init|
    ensures Marked(lines, i) <==> Marked(init, i)
  {
    assert forall k :: 0 <= k < |init| ==> lines[k] == init[k];
    assert forall k :: MarkedFrom(lines, k, i) <==> MarkedFrom(init, k, i);
  }

  lemma MarkedNext(lines: seq<Line>)
    requires lines != []
    ensures var n := |lines| - 1;
            Marked(lines, n + 1) <==> lines[n].Exception? || (!lines[n].Entry? && Marked(lines, n))
  {
    var n := |lines| - 1;
    if Marked(lines, n + 1) {
      var k :| MarkedFrom(lines, k, n + 1);
      assert k < n ==> MarkedFrom(lines, k, n);
    }
    if lines[n].Exception? {
      assert MarkedFrom(lines, n, n + 1);
    }
    if !lines[n].Entry? && Marked(lines, n) {
      var k :| MarkedFrom(lines, k, n);
      assert MarkedFrom(lines, k, n + 1);
    }
  }

  /** The scan's state, read off the lines. */
  ghost predicate Describes(lines: seq<Line>, scan: Scan) {
    && (scan.exception.Some? <==> Marked(lines, |lines|))
    && (forall s :: scan.current == Some(s) <==> OpenAt(lines, Inspector, s, |lines|))
    && (forall s :: s in scan.at <==> s in REQUIRED && HasDigest(lines, Inspector, s))
    && (forall s :: s in scan.at ==> DigestOf(lines, Inspector, s, scan.at[s]))
  }

  /** The scan succeeds exactly when every required local image is marked in its own entry and no
      required service has two digest lines. */
  lemma {:induction false} ScanMeaning(lines: seq<Line>)
    ensures ScanFold(lines).Ok? <==> AllMarked(lines) && AtMostOneDigest(lines)
    ensures ScanFold(lines).Ok? ==> Describes(lines, ScanFold(lines).value)
  {
    if lines != [] {
      var n := |lines| - 1;
      var init := lines[..n];
      ScanMeaning(init);
      AllMarkedNext(lines, init);
      AtMostOneNext(lines, init);
      if ScanFold(init).Ok? {
        ScanStepMeans(lines, init, ScanFold(init).value);
      }
    }
  }

  lemma AllMarkedNext(lines: seq<Line>, init: seq<Line>)
    requires lines != [] && init == lines[..|lines| - 1]
    ensures AllMarked(lines) <==> AllMarked(init) && (RequiredLocal(lines[|init|]) ==> Marked(init, |init|))
  {
    forall i | 0 <= i <= |init| ensures Marked(lines, i) <==> Marked(init, i) {
      MarkedPrefix(lines, init, i);
    }
    assert forall i :: 0 <= i < |init| ==> lines[i] == init[i];
  }

  /** Line `|init|` gives a required service a second digest. */
  ghost predicate Second(lines: seq<Line>, init: seq<Line>) {
    exists s :: s in REQUIRED && DigestOf(lines, Inspector, s, |init|) && HasDigest(init, Inspector, s)
  }

  lemma AtMostOneNext(lines: seq<Line>, init: seq<Line>)
    requires lines != [] && init == lines[..|lines| - 1]
    ensures AtMostOneDigest(lines) <==> AtMostOneDigest(init) && !Second(lines, init)
  {
    forall s, i | i < |init|
      ensures DigestOf(lines, Inspector, s, i) <==> DigestOf(init, Inspector, s, i)
    {
      DigestPrefix(lines, init, Inspector, s, i);
    }
    if AtMostOneDigest(lines) {
      forall s | s in REQUIRED && DigestOf(lines, Inspector, s, |init|) ensures !HasDigest(init, Inspector, s) {
        forall i ensures !DigestOf(init, Inspector, s, i) {
          assert DigestOf(init, Inspector, s, i) ==> DigestOf(lines, Inspector, s, i);
        }
      }
    }
    if AtMostOneDigest(init) && !Second(lines, init) {
      forall s, i, j | s in REQUIRED && DigestOf(lines, Inspector, s, i) && DigestOf(lines, Inspector, s, j)
        ensures i == j
      {
        assert i < |init| ==> DigestOf(init, Inspector, s, i);
        assert j < |init| ==> DigestOf(init, Inspector, s, j);
      }
    }
  }

  lemma ScanStepMeans(lines: seq<Line>, init: seq<Line>, scan: Scan)
    requires lines != [] && init == lines[..|lines| - 1] && Describes(init, scan)
    ensures var next := ScanStep(scan, lines[|init|], |init|);
            && (next.Ok? <==> (RequiredLocal(lines[|init|]) ==> Marked(init, |init|)) && !Second(lines, init))
            && (next.Ok? ==> Describes(lines, next.value))
  {
    StepSucceeds(lines, init, scan);
    var next := ScanStep(scan, lines[|init|], |init|);
    if next.Ok? {
      StepOpens(lines, init, scan, next.value);
      forall s {
        StepDigests(lines, init, scan, next.value, s);
      }
    }
  }

  lemma StepSucceeds(lines: seq<Line>, init: seq<Line>, scan: Scan)
    requires lines != [] && init == lines[..|lines| - 1] && Describes(init, scan)
    ensures ScanStep(scan, lines[|init|], |init|).Ok? <==>
            (RequiredLocal(lines[|init|]) ==> Marked(init, |init|)) && !Second(lines, init)
  {
    forall s ensures DigestOf(lines, Inspector, s, |init|) <==> lines[|init|].Digest? && scan.current == Some(s) {
      DigestLast(lines, init, Inspector, s);
    }
  }

  lemma StepOpens(lines: seq<Line>, init: seq<Line>, scan: Scan, next: Scan)
    requires lines != [] && init == lines[..|lines| - 1] && Describes(init, scan)
    requires ScanStep(scan, lines[|init|], |init|) == Ok(next)
    ensures next.exception.Some? <==> Marked(lines, |lines|)
    ensures forall s :: next.current == Some(s) <==> OpenAt(lines, Inspector, s, |lines|)
  {
    MarkedNext(lines);
    MarkedPrefix(lines, init, |init|);
    forall s ensures next.current == Some(s) <==> OpenAt(lines, Inspector, s, |lines|) {
      OpenNext(lines, Inspector, s);
      OpenPrefix(lines, init, Inspector, s, |init|);
    }
  }

  lemma StepDigests(lines: seq<Line>, init: seq<Line>, scan: Scan, next: Scan, s: string)
    requires lines != [] && init == lines[..|lines| - 1] && Describes(init, scan)
    requires ScanStep(scan, lines[|init|], |init|) == Ok(next)
    ensures s in next.at <==> s in REQUIRED && HasDigest(lines, Inspector, s)
    ensures s in next.at ==> DigestOf(lines, Inspector, s, next.at[s])
  {
    DigestLast(lines, init, Inspector, s);
    HasDigestNext(lines, init, Inspector, s);
    if s in scan.at {
      DigestPrefix(lines, init, Inspector, s, scan.at[s]);
    }
  }

  /** Exactly when an overlay passes inspection, and what it then returns. */
  lemma InspectedIff(lines: seq<Line>)
    ensures InspectOverlay(lines).Ok? <==>
            && AllMarked(lines) && AtMostOneDigest(lines)
            && forall s :: s in REQUIRED ==> HasDigest(lines, Inspector, s)
    ensures InspectOverlay(lines).Ok? ==>
            && InspectOverlay(lines).value.Keys == REQUIRED
            && forall s, i :: s in REQUIRED && DigestOf(lines, Inspector, s, i) ==>
                 InspectOverlay(lines).value[s] == lines[i].value
  {
    ScanMeaning(lines);
    if ScanFold(lines).Ok? {
      ScannedPlaces(lines);
    }
  }

  // ----- where the two readers meet

  /** The digest line the inspector reads for each required service is the one the rewriter edits. */
  ghost predicate SameDigestLines(lines: seq<Line>) {
    forall s, i :: s in REQUIRED && DigestOf(lines, Inspector, s, i) ==> LastDigestOf(lines, Rewriter, s, i)
  }

  lemma SamePlacesIff(lines: seq<Line>)
    requires InspectOverlay(lines).Ok?
    ensures SamePlaces(lines) <==> SameDigestLines(lines)
  {
    ScanMeaning(lines);
    InspectedIff(lines);
    var at := ScanFold(lines).value.at;
    forall s | s in at
      ensures (s in Places(lines) && Places(lines)[s] == at[s]) <==> LastDigestOf(lines, Rewriter, s, at[s])
    {
      PlacesMeaning(lines, s);
    }
  }

  /** Inspection returns every full map that was applied exactly when, for each required service, the
      inspected digest line is the last one the rewriter attributes to it. */
  lemma RoundTripIff(lines: seq<Line>)
    requires InspectOverlay(lines).Ok? && REQUIRED <= Places(lines).Keys
    ensures SameDigestLines(lines) <==>
            forall digests, after :: FullMap(digests) && Rewritten(lines, after, digests) ==>
              InspectOverlay(after) == Ok(digests)
  {
    SamePlacesIff(lines);
    RoundTripIffSamePlaces(lines);
  }

  /** Image lines that only one of the readers knows are for services outside the rollout, and do
      not interrupt the entry of a required service. */
  ghost predicate OthersHarmless(lines: seq<Line>) {
    forall i :: 0 <= i < |lines| && lines[i].Image? && lines[i].registry != Ghcr(OWNER) ==>
      && lines[i].service !in REQUIRED
      && forall r, s :: s in REQUIRED ==> !OpenAt(lines, r, s, i)
  }

  lemma SameOpen(lines: seq<Line>, r: Reader, r': Reader, s: string, i: int)
    requires OthersHarmless(lines) && s in REQUIRED && 0 <= i < |lines| && OpenAt(lines, r, s, i)
    ensures OpenAt(lines, r', s, i)
  {
    var j :| OpenFrom(lines, r, s, j, i);
    forall k | j < k < i ensures !Stops(r', lines[k]) {
      assert OpenFrom(lines, r, s, j, k);
      assert OpenAt(lines, r, s, k);
    }
    assert OpenFrom(lines, r', s, j, i);
  }

  /** An inspectable overlay whose other image lines are harmless round-trips. */
  lemma HarmlessRoundTrips(lines: seq<Line>)
    requires InspectOverlay(lines).Ok? && OthersHarmless(lines)
    ensures SameDigestLines(lines)
  {
    InspectedIff(lines);
    forall s, i | s in REQUIRED && DigestOf(lines, Inspector, s, i) ensures LastDigestOf(lines, Rewriter, s, i) {
      SameOpen(lines, Inspector, Rewriter, s, i);
      forall j | DigestOf(lines, Rewriter, s, j) ensures j == i {
        SameOpen(lines, Rewriter, Inspector, s, j);
        assert DigestOf(lines, Inspector, s, j);
      }
    }
  }
}
