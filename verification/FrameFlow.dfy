/** The reduction of raw broker logs to a frame-flow summary
    (scripts/faz22-remote-ops/build-view-only-viewer-frame-flow-summary.py).

    A log line is what the frame pattern finds in it. */
module FrameFlow {
  import opened Json

  datatype Line =
    | Noise
    | Frame(session: string, seqNo: nat, bytes: nat, content: string, disposition: string, timestamp: nat)

  datatype Mark = Mark(delivered: bool, at: nat)

  type Sequences = map<nat, Mark>

  predicate ValidSession(s: string) {
    && 0 < |s| <= 160
    && forall i :: 0 <= i < |s| ==>
         || 'A' <= s[i] <= 'Z' || 'a' <= s[i] <= 'z' || '0' <= s[i] <= '9'
         || s[i] == '.' || s[i] == '_' || s[i] == ':' || s[i] == '-'
  }

  // ----- the first loop

  /** Empty frames and frames of other sessions are skipped. */
  predicate Relevant(l: Line, session: string) {
    l.Frame? && l.session == session && l.bytes != 0
  }

  predicate Proper(l: Line)
    requires l.Frame?
  {
    && l.content == "image/png"
    && (l.disposition == "DELIVERED" || l.disposition == "DROPPED_NO_VIEWER")
    && l.timestamp > 0
  }

  function MarkOf(l: Line): Mark
    requires l.Frame?
  {
    Mark(l.disposition == "DELIVERED", l.timestamp)
  }

  function Note(m: Sequences, l: Line, session: string): Option<Sequences> {
    if !Relevant(l, session) then Some(m)
    else if !Proper(l) then None
    else if l.seqNo in m then if m[l.seqNo] == MarkOf(l) then Some(m) else None
    else Some(m[l.seqNo := MarkOf(l)])
  }

  function Collect(lines: seq<Line>, session: string): Option<Sequences> {
    if lines == [] then Some(map[])
    else
      match Collect(lines[..|lines| - 1], session)
      case None => None
      case Some(m) => Note(m, lines[|lines| - 1], session)
  }

  /** The line is a frame of the session with this sequence number and mark. */
  predicate Shows(l: Line, session: string, k: nat, mark: Mark) {
    Relevant(l, session) && Proper(l) && l.seqNo == k && MarkOf(l) == mark
  }

  ghost predicate Collected(lines: seq<Line>, session: string, m: Sequences) {
    && (forall l :: l in lines && Relevant(l, session) ==> Proper(l) && l.seqNo in m && m[l.seqNo] == MarkOf(l))
    && (forall k :: k in m ==> exists l :: l in lines && Shows(l, session, k, m[k]))
  }

  /** The dictionary holds exactly what the lines show, and the loop fails exactly when there
      is no such dictionary. */
  lemma {:induction false} CollectMeans(lines: seq<Line>, session: string)
    ensures Collect(lines, session).Some? ==> Collected(lines, session, Collect(lines, session).value)
    ensures Collect(lines, session).None? ==> forall m :: !Collected(lines, session, m)
  {
    if lines != [] {
      var n := |lines| - 1;
      var init, last := lines[..n], lines[n];
      CollectMeans(init, session);
      assert lines == init + [last];
      if Collect(init, session).Some? {
        CollectStep(init, last, session, Collect(init, session).value);
      } else {
        forall m ensures !Collected(lines, session, m) {
          if Collected(lines, session, m) {
            StillCollected(init, last, session, m);
          }
        }
      }
    }
  }

  /** A dictionary of more lines restricts to one of fewer lines. */
  lemma StillCollected(init: seq<Line>, last: Line, session: string, m: Sequences)
    requires Collected(init + [last], session, m)
    ensures exists m' :: Collected(init, session, m')
  {
    var m' := map k | k in m && exists l :: l in init && Shows(l, session, k, m[k]) :: m[k];
    forall l | l in init && Relevant(l, session) ensures Proper(l) && l.seqNo in m' && m'[l.seqNo] == MarkOf(l) {
      assert l in init + [last];
      assert Shows(l, session, l.seqNo, m[l.seqNo]);
    }
    assert Collected(init, session, m');
  }

  lemma CollectStep(init: seq<Line>, last: Line, session: string, m: Sequences)
    requires Collected(init, session, m)
    ensures Note(m, last, session).Some? ==> Collected(init + [last], session, Note(m, last, session).value)
    ensures Note(m, last, session).None? ==> forall m' :: !Collected(init + [last], session, m')
  {
    var lines := init + [last];
    if Note(m, last, session).Some? {
      var next := Note(m, last, session).value;
      forall k | k in next ensures exists l :: l in lines && Shows(l, session, k, next[k]) {
        if k in m {
          var l :| l in init && Shows(l, session, k, m[k]);
          assert l in lines;
        } else {
          assert Shows(last, session, k, next[k]);
          assert last in lines;
        }
      }
    } else {
      forall m' ensures !Collected(lines, session, m') {
        assert last in lines;
        if Proper(last) {
          var l :| l in init && Shows(l, session, last.seqNo, m[last.seqNo]);
          assert l in lines;
        }
      }
    }
  }

  lemma CollectedUnique(lines: seq<Line>, session: string, m: Sequences, m': Sequences)
    requires Collected(lines, session, m) && Collected(lines, session, m')
    ensures m == m'
  {
    forall k ensures k in m ==> k in m' && m'[k] == m[k] {
      if k in m {
        var l :| l in lines && Shows(l, session, k, m[k]);
      }
    }
    forall k ensures k in m' ==> k in m {
      if k in m' {
        var l :| l in lines && Shows(l, session, k, m'[k]);
      }
    }
  }

  /** Only the set of lines matters: reordering or repeating them changes neither whether the
      log is accepted nor what is collected. */
  lemma SameLinesSameSequences(a: seq<Line>, b: seq<Line>, session: string)
    requires forall l :: l in a <==> l in b
    ensures Collect(a, session) == Collect(b, session)
  {
    CollectMeans(a, session);
    CollectMeans(b, session);
    assert forall m :: Collected(a, session, m) <==> Collected(b, session, m);
    if Collect(a, session).Some? && Collect(b, session).Some? {
      CollectedUnique(a, session, Collect(a, session).value, Collect(b, session).value);
    }
  }

  // ----- the sequences in order

  lemma {:induction false} HasTop(keys: set<nat>)
    requires keys != {}
    ensures exists top :: top in keys && forall k :: k in keys ==> k <= top
    decreases |keys|
  {
    var one :| one in keys;
    var rest := keys - {one};
    if rest == {} {
      assert keys == {one};
    } else {
      HasTop(rest);
      var top :| top in rest && forall k :: k in rest ==> k <= top;
      var best := if one < top then top else one;
      assert forall k :: k in keys ==> k == one || k in rest;
      assert best in keys && forall k :: k in keys ==> k <= best;
    }
  }

  /** `max` */
  function Top(keys: set<nat>): (top: nat)
    requires keys != {}
    ensures top in keys && forall k :: k in keys ==> k <= top
  {
    HasTop(keys);
    var top :| top in keys && forall k :: k in keys ==> k <= top;
    top
  }

  predicate Increasing(s: seq<nat>) {
    forall i, j :: 0 <= i < j < |s| ==> s[i] < s[j]
  }

  /** `sorted` */
  function Sorted(keys: set<nat>): (s: seq<nat>)
    ensures |s| == |keys| && Increasing(s)
    ensures forall k :: k in s <==> k in keys
    decreases |keys|
  {
    if keys == {} then []
    else
      var top := Top(keys);
      var rest := Sorted(keys - {top});
      assert forall i :: 0 <= i < |rest| ==> rest[i] in rest;
      rest + [top]
  }

  /** Numbers below `n` are at most `n` many. */
  lemma {:induction false} Pigeonhole(keys: set<nat>, n: nat)
    requires forall k :: k in keys ==> k < n
    ensures |keys| <= n
  {
    if n > 0 {
      Pigeonhole(keys - {n - 1}, n - 1);
      assert keys <= (keys - {n - 1}) + {n - 1};
      CardAtMost(keys, keys - {n - 1}, n - 1);
    } else {
      assert forall k :: k !in keys;
      assert keys == {};
    }
  }

  lemma CardAtMost(a: set<nat>, b: set<nat>, x: nat)
    requires b == a - {x}
    ensures |a| <= |b| + 1
  {
    if x in a {
      assert a == b + {x};
    } else {
      assert a == b;
    }
  }

  // ----- the second loop

  datatype Tally = Tally(prior: nat, delivered: nat, dropped: nat, times: seq<nat>)

  function Count(t: Tally, mark: Mark): Option<Tally> {
    if mark.at < t.prior then None
    else if mark.delivered then Some(Tally(mark.at, t.delivered + 1, t.dropped, t.times + [mark.at]))
    else Some(Tally(mark.at, t.delivered, t.dropped + 1, t.times))
  }

  function Pass(m: Sequences, ks: seq<nat>): Option<Tally>
    requires forall i :: 0 <= i < |ks| ==> ks[i] in m
  {
    if ks == [] then Some(Tally(0, 0, 0, []))
    else
      match Pass(m, ks[..|ks| - 1])
      case None => None
      case Some(t) => Count(t, m[ks[|ks| - 1]])
  }

  datatype Trouble =
    | BadSession | BadFrame | TooFew | NotMonotonic | NothingDelivered | NotFromZero | Inconsistent | NoBrowserEvidence

  datatype Browser = Browser(binding: Option<string>, observedAt: Option<string>)

  datatype Summary = Summary(
    observedAt: string,
    binding: string,
    firstSeq: nat,
    lastSeq: nat,
    firstObservedAt: nat,
    firstDeliveredAt: nat,
    lastDeliveredAt: nat,
    lastObservedAt: nat,
    produced: nat,
    distinct: nat,
    gaps: int,
    delivered: nat,
    dropped: nat)

  /** `ks` lists the sequence numbers in order. */
  predicate Lists(ks: seq<nat>, m: Sequences) {
    && |ks| == |m| && Increasing(ks)
    && (forall k :: k in ks ==> k in m) && (forall k :: k in m ==> k in ks)
    && (forall i :: 0 <= i < |ks| ==> ks[i] in m)
  }

  function Ordered(m: Sequences): (ks: seq<nat>)
    ensures Lists(ks, m)
  {
    var ks := Sorted(m.Keys);
    assert forall i :: 0 <= i < |ks| ==> ks[i] in ks;
    ks
  }

  function Summarize(m: Sequences, browser: Browser): Result<Summary, Trouble> {
    if |m| < 100 then Fail(TooFew) else SummarizeOrdered(m, Ordered(m), browser)
  }

  function SummarizeOrdered(m: Sequences, ks: seq<nat>, browser: Browser): Result<Summary, Trouble>
    requires Lists(ks, m) && ks != []
  {
    match Pass(m, ks)
    case None => Fail(NotMonotonic)
    case Some(t) => Report(m, ks[0], ks[|ks| - 1], t, browser)
  }

  function Report(m: Sequences, first: nat, last: nat, t: Tally, browser: Browser): Result<Summary, Trouble>
    requires first in m && last in m
  {
    var gaps := last + 1 - |m|;
    if t.times == [] then Fail(NothingDelivered)
    else if first != 0 then Fail(NotFromZero)
    else if gaps < 0 then Fail(Inconsistent)
    else if browser.binding.None? || browser.observedAt.None? then Fail(NoBrowserEvidence)
    else
      Ok(Summary(browser.observedAt.value, browser.binding.value, first, last,
                 m[first].at, t.times[0], t.times[|t.times| - 1], m[last].at,
                 last + 1, |m|, gaps, t.delivered, t.dropped))
  }

  function Reduce(lines: seq<Line>, session: string, browser: Browser): Result<Summary, Trouble> {
    if !ValidSession(session) then Fail(BadSession)
    else
      match Collect(lines, session)
      case None => Fail(BadFrame)
      case Some(m) => Summarize(m, browser)
  }

  method Build(lines: seq<Line>, session: string, browser: Browser) returns (r: Result<Summary, Trouble>)
    ensures r == Reduce(lines, session, browser)
  {
    if !ValidSession(session) {
      return Fail(BadSession);
    }
    var collected := CollectLines(lines, session);
    if collected.None? {
      return Fail(BadFrame);
    }
    r := SummarizeSequences(collected.value, browser);
  }

  method SummarizeSequences(sequences: Sequences, browser: Browser) returns (r: Result<Summary, Trouble>)
    ensures r == Summarize(sequences, browser)
  {
    if |sequences| < 100 {
      return Fail(TooFew);
    }
    var ordered := Ordered(sequences);
    var tally := TallyUp(sequences, ordered);
    if tally.None? {
      return Fail(NotMonotonic);
    }
    return Report(sequences, ordered[0], ordered[|ordered| - 1], tally.value, browser);
  }

  method CollectLines(lines: seq<Line>, session: string) returns (r: Option<Sequences>)
    ensures r == Collect(lines, session)
  {
    var sequences: Sequences := map[];
    for i := 0 to |lines|
      invariant Collect(lines[..i], session) == Some(sequences)
    {
      assert lines[..i + 1][..i] == lines[..i];
      var next := Note(sequences, lines[i], session);
      if next.None? {
        CollectStaysFailed(lines, i + 1, session);
        return None;
      }
      sequences := next.value;
    }
    assert lines[..|lines|] == lines;
    return Some(sequences);
  }

  method TallyUp(m: Sequences, ordered: seq<nat>) returns (r: Option<Tally>)
    requires forall i :: 0 <= i < |ordered| ==> ordered[i] in m
    ensures r == Pass(m, ordered)
  {
    var tally := Tally(0, 0, 0, []);
    for i := 0 to |ordered|
      invariant Pass(m, ordered[..i]) == Some(tally)
    {
      assert ordered[..i + 1][..i] == ordered[..i];
      var next := Count(tally, m[ordered[i]]);
      if next.None? {
        PassStaysFailed(m, ordered, i + 1);
        return None;
      }
      tally := next.value;
    }
    assert ordered[..|ordered|] == ordered;
    return Some(tally);
  }

  lemma {:induction false} CollectStaysFailed(lines: seq<Line>, i: nat, session: string)
    requires i <= |lines| && Collect(lines[..i], session).None?
    ensures Collect(lines, session).None?
  {
    if i == |lines| {
      assert lines[..i] == lines;
    } else {
      assert lines[..|lines| - 1][..i] == lines[..i];
      CollectStaysFailed(lines[..|lines| - 1], i, session);
    }
  }

  lemma {:induction false} PassStaysFailed(m: Sequences, ks: seq<nat>, i: nat)
    requires i <= |ks| && (forall j :: 0 <= j < |ks| ==> ks[j] in m) && Pass(m, ks[..i]).None?
    ensures Pass(m, ks).None?
  {
    if i == |ks| {
      assert ks[..i] == ks;
    } else {
      assert ks[..|ks| - 1][..i] == ks[..i];
      PassStaysFailed(m, ks[..|ks| - 1], i);
    }
  }

  // ----- what a summary says

  /** Time never runs backwards along the sequence numbers. */
  predicate Monotonic(m: Sequences) {
    forall j, k :: j in m && k in m && j < k ==> m[j].at <= m[k].at
  }

  predicate DeliveredAt(m: Sequences, k: nat, time: nat) {
    k in m && m[k] == Mark(true, time)
  }

  predicate Delivery(m: Sequences, ks: seq<nat>, time: nat) {
    exists k :: k in ks && DeliveredAt(m, k, time)
  }

  /** The times are those of the delivered frames, in order and none after `prior`. */
  ghost predicate Times(m: Sequences, ks: seq<nat>, t: Tally) {
    && |t.times| == t.delivered && t.delivered + t.dropped == |ks|
    && (forall i :: 0 <= i < |t.times| ==> t.times[i] <= t.prior)
    && (forall i, j :: 0 <= i < j < |t.times| ==> t.times[i] <= t.times[j])
    && (forall i :: 0 <= i < |t.times| ==> Delivery(m, ks, t.times[i]))
    && (forall k :: k in ks && k in m && m[k].delivered ==> m[k].at in t.times)
  }

  ghost predicate InOrder(m: Sequences, ks: seq<nat>)
    requires forall i :: 0 <= i < |ks| ==> ks[i] in m
  {
    forall i, j :: 0 <= i < j < |ks| ==> m[ks[i]].at <= m[ks[j]].at
  }

  lemma {:induction false} PassMeans(m: Sequences, ks: seq<nat>)
    requires forall i :: 0 <= i < |ks| ==> ks[i] in m
    ensures Pass(m, ks).Some? <==> InOrder(m, ks)
    ensures Pass(m, ks).Some? ==> Times(m, ks, Pass(m, ks).value)
    ensures Pass(m, ks).Some? ==> Pass(m, ks).value.prior == if ks == [] then 0 else m[ks[|ks| - 1]].at
  {
    if ks != [] {
      var n := |ks| - 1;
      var init, last := ks[..n], ks[n];
      PassMeans(m, init);
      assert ks == init + [last];
      if Pass(m, init).Some? {
        var t := Pass(m, init).value;
        OrderSnoc(m, init, last);
        if Count(t, m[last]).Some? {
          TimesSnoc(m, init, last, t);
        }
      } else {
        OrderPrefix(m, init, last);
      }
    }
  }

  lemma OrderPrefix(m: Sequences, init: seq<nat>, last: nat)
    requires (forall i :: 0 <= i < |init| ==> init[i] in m) && last in m
    ensures InOrder(m, init + [last]) ==> InOrder(m, init)
  {
    var ks := init + [last];
    if InOrder(m, ks) {
      forall i, j | 0 <= i < j < |init| ensures m[init[i]].at <= m[init[j]].at {
        assert ks[i] == init[i] && ks[j] == init[j];
      }
    }
  }

  lemma OrderSnoc(m: Sequences, init: seq<nat>, last: nat)
    requires (forall i :: 0 <= i < |init| ==> init[i] in m) && last in m && InOrder(m, init)
    ensures InOrder(m, init + [last]) <==> (init == [] || m[init[|init| - 1]].at <= m[last].at)
  {
    var ks := init + [last];
    if init != [] {
      var n := |init| - 1;
      assert ks[n] == init[n] && ks[n + 1] == last;
      assert forall i :: 0 <= i <= n ==> ks[i] == init[i] && m[init[i]].at <= m[init[n]].at;
    }
  }

  lemma TimesSnoc(m: Sequences, init: seq<nat>, last: nat, t: Tally)
    requires last in m && Times(m, init, t) && Count(t, m[last]).Some?
    ensures Times(m, init + [last], Count(t, m[last]).value)
  {
    var ks, next := init + [last], Count(t, m[last]).value;
    forall i | 0 <= i < |next.times| ensures Delivery(m, ks, next.times[i]) {
      if i < |t.times| {
        DeliveryLater(m, init, last, t.times[i]);
      } else {
        assert last in ks && DeliveredAt(m, last, next.times[i]);
      }
    }
    DeliveredListed(m, init, last, t, next);
  }

  lemma DeliveryLater(m: Sequences, init: seq<nat>, last: nat, time: nat)
    requires Delivery(m, init, time)
    ensures Delivery(m, init + [last], time)
  {
    var k :| k in init && DeliveredAt(m, k, time);
    assert k in init + [last];
  }

  lemma DeliveredListed(m: Sequences, init: seq<nat>, last: nat, t: Tally, next: Tally)
    requires last in m && Count(t, m[last]) == Some(next)
    requires forall k :: k in init && k in m && m[k].delivered ==> m[k].at in t.times
    ensures forall k :: k in init + [last] && k in m && m[k].delivered ==> m[k].at in next.times
  {
  }

  /** The sequence numbers of delivered frames among `ks`. */
  function DeliveredIn(m: Sequences, ks: seq<nat>): set<nat> {
    set k | k in ks && k in m && m[k].delivered
  }

  lemma DeliveredInSnoc(m: Sequences, init: seq<nat>, last: nat)
    requires last in m && last !in init
    ensures |DeliveredIn(m, init + [last])| == |DeliveredIn(m, init)| + if m[last].delivered then 1 else 0
  {
    var before, after := DeliveredIn(m, init), DeliveredIn(m, init + [last]);
    assert last !in before;
    if m[last].delivered {
      assert after == before + {last};
    } else {
      assert after == before;
    }
  }

  /** The delivered counter counts each delivered sequence number once. */
  lemma {:induction false} DeliveredCounted(m: Sequences, ks: seq<nat>)
    requires (forall i :: 0 <= i < |ks| ==> ks[i] in m) && Increasing(ks) && Pass(m, ks).Some?
    ensures Pass(m, ks).value.delivered == |DeliveredIn(m, ks)|
  {
    if ks == [] {
      assert DeliveredIn(m, ks) == {};
    } else {
      var n := |ks| - 1;
      var init, last := ks[..n], ks[n];
      DeliveredCounted(m, init);
      SplitLastKey(ks, init, last);
      DeliveredInSnoc(m, init, last);
    }
  }

  lemma SplitLastKey(ks: seq<nat>, init: seq<nat>, last: nat)
    requires ks != [] && Increasing(ks) && init == ks[..|ks| - 1] && last == ks[|ks| - 1]
    ensures ks == init + [last] && last !in init
  {
  }

  /** Exactly which collected sequences are accepted; the check for a negative gap never fires. */
  lemma AcceptedIff(m: Sequences, browser: Browser)
    ensures Summarize(m, browser).Ok? <==>
            && |m| >= 100 && Monotonic(m) && 0 in m
            && (exists k :: k in m && m[k].delivered)
            && browser.binding.Some? && browser.observedAt.Some?
    ensures Summarize(m, browser) != Fail(Inconsistent)
  {
    if |m| >= 100 {
      AcceptedOrdered(m, Ordered(m), browser);
    }
  }

  lemma AcceptedOrdered(m: Sequences, ks: seq<nat>, browser: Browser)
    requires Lists(ks, m) && ks != []
    ensures SummarizeOrdered(m, ks, browser).Ok? <==>
            && Monotonic(m) && 0 in m
            && (exists k :: k in m && m[k].delivered)
            && browser.binding.Some? && browser.observedAt.Some?
    ensures SummarizeOrdered(m, ks, browser) != Fail(Inconsistent)
  {
    OrderIffMonotonic(m, ks);
    PassMeans(m, ks);
    if Pass(m, ks).Some? {
      ReportIff(m, ks, Pass(m, ks).value, browser);
    }
  }

  lemma ReportIff(m: Sequences, ks: seq<nat>, t: Tally, browser: Browser)
    requires Lists(ks, m) && ks != [] && Times(m, ks, t)
    ensures var r := Report(m, ks[0], ks[|ks| - 1], t, browser);
            && (r.Ok? <==> 0 in m && (exists k :: k in m && m[k].delivered)
                           && browser.binding.Some? && browser.observedAt.Some?)
            && r != Fail(Inconsistent)
  {
    LastBound(m, ks);
    StartsAtZero(m, ks);
    DeliveredIff(m, ks, t);
  }

  lemma StartsAtZero(m: Sequences, ks: seq<nat>)
    requires Lists(ks, m) && ks != []
    ensures ks[0] == 0 <==> 0 in m
  {
    if 0 in m {
      var i :| 0 <= i < |ks| && ks[i] == 0;
    }
  }

  lemma OrderIffMonotonic(m: Sequences, ks: seq<nat>)
    requires Lists(ks, m)
    ensures InOrder(m, ks) <==> Monotonic(m)
  {
    if InOrder(m, ks) {
      forall j, k | j in m && k in m && j < k ensures m[j].at <= m[k].at {
        var a :| 0 <= a < |ks| && ks[a] == j;
        var b :| 0 <= b < |ks| && ks[b] == k;
        assert a < b;
      }
    }
  }

  lemma DeliveredIff(m: Sequences, ks: seq<nat>, t: Tally)
    requires Lists(ks, m) && Times(m, ks, t)
    ensures t.times != [] <==> exists k :: k in m && m[k].delivered
  {
    if t.times != [] {
      assert Delivery(m, ks, t.times[0]);
      var k :| k in ks && DeliveredAt(m, k, t.times[0]);
    }
  }

  lemma LastBound(m: Sequences, ks: seq<nat>)
    requires Lists(ks, m) && ks != []
    ensures |m| <= ks[|ks| - 1] + 1
    ensures forall k :: k in m ==> k <= ks[|ks| - 1]
  {
    forall k | k in m ensures k <= ks[|ks| - 1] {
      var i :| 0 <= i < |ks| && ks[i] == k;
    }
    Pigeonhole(m.Keys, ks[|ks| - 1] + 1);
    assert |m.Keys| == |m|;
  }

  /** What the later readers of a summary check: the gap equation, the sum of the dispositions
      and the order of the four timestamps, whose delivered ones are the first and the last of
      all deliveries. */
  ghost predicate Faithful(m: Sequences, ks: seq<nat>, s: Summary) {
    FaithfulCounts(m, s) && FaithfulTimes(m, ks, s)
  }

  /** The sequence numbers of delivered frames. */
  function Delivered(m: Sequences): set<nat> {
    set k | k in m && m[k].delivered
  }

  ghost predicate FaithfulCounts(m: Sequences, s: Summary) {
    && s.firstSeq == 0 && s.lastSeq in m && (forall k :: k in m ==> k <= s.lastSeq)
    && s.produced == s.lastSeq + 1 && s.distinct == |m| && s.gaps == s.produced - s.distinct && s.gaps >= 0
    && s.delivered == |Delivered(m)| && s.delivered + s.dropped == s.distinct
  }

  ghost predicate FaithfulTimes(m: Sequences, ks: seq<nat>, s: Summary) {
    && s.firstObservedAt <= s.firstDeliveredAt <= s.lastDeliveredAt <= s.lastObservedAt
    && (forall k :: k in m && m[k].delivered ==> s.firstDeliveredAt <= m[k].at <= s.lastDeliveredAt)
    && Delivery(m, ks, s.firstDeliveredAt) && Delivery(m, ks, s.lastDeliveredAt)
  }

  lemma SummaryFaithful(m: Sequences, ks: seq<nat>, browser: Browser, s: Summary)
    requires Lists(ks, m) && ks != [] && SummarizeOrdered(m, ks, browser) == Ok(s)
    ensures Faithful(m, ks, s)
  {
    OrderIffMonotonic(m, ks);
    PassMeans(m, ks);
    DeliveredCounted(m, ks);
    assert DeliveredIn(m, ks) == Delivered(m);
    ReportFaithful(m, ks, Pass(m, ks).value, browser, s);
  }

  lemma ReportFaithful(m: Sequences, ks: seq<nat>, t: Tally, browser: Browser, s: Summary)
    requires Lists(ks, m) && ks != [] && Times(m, ks, t) && Monotonic(m) && t.prior == m[ks[|ks| - 1]].at
    requires Report(m, ks[0], ks[|ks| - 1], t, browser) == Ok(s) && t.delivered == |Delivered(m)|
    ensures Faithful(m, ks, s)
  {
    ReportFields(m, ks[0], ks[|ks| - 1], t, browser, s);
    LastBound(m, ks);
    ReportedCounts(m, ks[|ks| - 1], t, s);
    ReportedTimes(m, ks, t, s);
  }

  lemma ReportFields(m: Sequences, first: nat, last: nat, t: Tally, browser: Browser, s: Summary)
    requires first in m && last in m && Report(m, first, last, t, browser) == Ok(s)
    ensures first == 0 && t.times != []
    ensures s.firstSeq == first && s.lastSeq == last && s.produced == last + 1 && s.distinct == |m|
    ensures s.gaps == last + 1 - |m| && s.delivered == t.delivered && s.dropped == t.dropped
    ensures s.firstObservedAt == m[first].at && s.lastObservedAt == m[last].at
    ensures s.firstDeliveredAt == t.times[0] && s.lastDeliveredAt == t.times[|t.times| - 1]
  {
  }

  lemma ReportedCounts(m: Sequences, last: nat, t: Tally, s: Summary)
    requires last in m && |m| <= last + 1 && (forall k :: k in m ==> k <= last)
    requires s.firstSeq == 0 && s.lastSeq == last && s.produced == last + 1 && s.distinct == |m|
    requires s.gaps == last + 1 - |m| && s.delivered == t.delivered && s.dropped == t.dropped
    requires t.delivered == |Delivered(m)| && t.delivered + t.dropped == |m|
    ensures FaithfulCounts(m, s)
  {
  }

  lemma ReportedTimes(m: Sequences, ks: seq<nat>, t: Tally, s: Summary)
    requires Lists(ks, m) && Times(m, ks, t) && Monotonic(m) && 0 in m && t.times != []
    requires s.firstObservedAt == m[0].at && s.lastObservedAt == t.prior
    requires s.firstDeliveredAt == t.times[0] && s.lastDeliveredAt == t.times[|t.times| - 1]
    ensures FaithfulTimes(m, ks, s)
  {
    DeliveredBetween(m, ks, t);
    FirstIsFirst(m, ks, t);
  }

  lemma FirstIsFirst(m: Sequences, ks: seq<nat>, t: Tally)
    requires 0 in m && Monotonic(m) && Times(m, ks, t) && t.times != []
    ensures m[0].at <= t.times[0]
  {
    assert Delivery(m, ks, t.times[0]);
    var j :| j in ks && DeliveredAt(m, j, t.times[0]);
    assert j == 0 || m[0].at <= m[j].at;
  }

  lemma DeliveredBetween(m: Sequences, ks: seq<nat>, t: Tally)
    requires Lists(ks, m) && Times(m, ks, t) && t.times != []
    ensures forall k :: k in m && m[k].delivered ==> t.times[0] <= m[k].at <= t.times[|t.times| - 1]
    ensures Delivery(m, ks, t.times[0]) && Delivery(m, ks, t.times[|t.times| - 1])
  {
    forall k | k in m && m[k].delivered ensures t.times[0] <= m[k].at <= t.times[|t.times| - 1] {
      assert m[k].at in t.times;
      var i :| 0 <= i < |t.times| && t.times[i] == m[k].at;
    }
  }

  /** Only the set of log lines matters to the whole reduction, so any permutation of the log
      has the same outcome and the same summary. */
  lemma PermutationInvariant(a: seq<Line>, b: seq<Line>, session: string, browser: Browser)
    requires multiset(a) == multiset(b)
    ensures Reduce(a, session, browser) == Reduce(b, session, browser)
  {
    forall l ensures l in a <==> l in b {
      assert l in a <==> l in multiset(a);
      assert l in b <==> l in multiset(b);
    }
    SameLinesSameSequences(a, b, session);
  }

  /** Every summary the reduction returns is faithful to what the log shows, and none of its
      timestamps is zero. */
  lemma ReducedFaithful(lines: seq<Line>, session: string, browser: Browser, s: Summary) returns (m: Sequences)
    requires Reduce(lines, session, browser) == Ok(s)
    ensures Collected(lines, session, m) && |m| >= 100
    ensures Faithful(m, Ordered(m), s) && s.firstDeliveredAt > 0
  {
    m := Collect(lines, session).value;
    CollectMeans(lines, session);
    var ks := Ordered(m);
    SummaryFaithful(m, ks, browser, s);
    var k :| k in ks && DeliveredAt(m, k, s.firstDeliveredAt);
    ShownPositive(lines, session, m, k);
  }

  lemma ShownPositive(lines: seq<Line>, session: string, m: Sequences, k: nat)
    requires Collected(lines, session, m) && k in m
    ensures m[k].at > 0
  {
    var l :| l in lines && Shows(l, session, k, m[k]);
  }
}
