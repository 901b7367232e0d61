/** The frame-flow summary said about the log lines themselves
    (scripts/faz22-remote-ops/build-view-only-viewer-frame-flow-summary.py). */
module FrameLines {
  import opened Json
  import opened Text
  import opened FrameFlow

  predicate SessionChar(c: char) {
    || c in "ABCDEFGHIJKLMNOPQRSTUVWXYZ"
    || c in "abcdefghijklmnopqrstuvwxyz"
    || c in "0123456789"
    || c in "._:-"
  }

  lemma MarkMeans(c: char)
    ensures c == '.' || c == '_' || c == ':' || c == '-' <==> c in "._:-"
  {
    var marks := "._:-";
    assert marks[0] == '.' && marks[1] == '_' && marks[2] == ':' && marks[3] == '-';
  }

  /** A session id has 1 to 160 characters, each a letter, a digit or one of four marks. */
  lemma SessionIff(s: string)
    ensures ValidSession(s) <==> s != "" && |s| < 161 && forall i :: 0 <= i < |s| ==> SessionChar(s[i])
  {
    forall i | 0 <= i < |s|
      ensures SessionChar(s[i]) <==>
              || 'A' <= s[i] <= 'Z' || 'a' <= s[i] <= 'z' || '0' <= s[i] <= '9'
              || s[i] == '.' || s[i] == '_' || s[i] == ':' || s[i] == '-'
    {
      UpperMeans(s[i]);
      LowerMeans(s[i]);
      DigitMeans(s[i]);
      MarkMeans(s[i]);
    }
  }

  /** A non-empty frame of the session. */
  predicate Counts(l: Line, session: string) {
    l.Frame? && l.session == session && l.bytes != 0
  }

  /** The sequence numbers of all frames, and of those with a disposition. */
  function Seqs(lines: seq<Line>, session: string): set<nat> {
    set l | l in lines && Counts(l, session) :: l.seqNo
  }

  function SeqsWith(lines: seq<Line>, session: string, disposition: string): set<nat> {
    set l | l in lines && Counts(l, session) && l.disposition == disposition :: l.seqNo
  }

  /** Every frame is a picture that was delivered or dropped for lack of a viewer, at some time. */
  predicate FramesInOrder(lines: seq<Line>, session: string) {
    forall l :: l in lines && Counts(l, session) ==> InOrderFrame(l)
  }

  predicate InOrderFrame(l: Line)
    requires l.Frame?
  {
    && l.content == "image/png"
    && (l.disposition == "DELIVERED" || l.disposition == "DROPPED_NO_VIEWER")
    && l.timestamp > 0
  }

  /** Frames with the same number say the same. */
  predicate FramesAgree(lines: seq<Line>, session: string) {
    forall l, m :: l in lines && m in lines && Counts(l, session) && Counts(m, session) && l.seqNo == m.seqNo ==>
      l.disposition == m.disposition && l.timestamp == m.timestamp
  }

  predicate TimesFollow(lines: seq<Line>, session: string) {
    forall l, m :: l in lines && m in lines && Counts(l, session) && Counts(m, session) && l.seqNo < m.seqNo ==>
      l.timestamp <= m.timestamp
  }

  /** The dictionary records what the lines say. */
  ghost predicate Recorded(lines: seq<Line>, session: string, m: Sequences) {
    && m.Keys == Seqs(lines, session)
    && forall l :: l in lines && Counts(l, session) ==>
         l.seqNo in m && m[l.seqNo] == Mark(l.disposition == "DELIVERED", l.timestamp)
  }

  lemma CountsMeans(l: Line, session: string)
    ensures Relevant(l, session) <==> Counts(l, session)
    ensures Counts(l, session) ==>
              && MarkOf(l) == Mark(l.disposition == "DELIVERED", l.timestamp)
              && (Proper(l) <==> InOrderFrame(l))
  {
  }

  lemma CollectedMeans(lines: seq<Line>, session: string, m: Sequences)
    requires Collected(lines, session, m)
    ensures Recorded(lines, session, m) && FramesInOrder(lines, session) && FramesAgree(lines, session)
  {
    forall l | l in lines && Counts(l, session)
      ensures InOrderFrame(l)
      ensures l.seqNo in m && m[l.seqNo] == Mark(l.disposition == "DELIVERED", l.timestamp)
    {
      CountsMeans(l, session);
    }
    KeysMean(lines, session, m);
  }

  lemma KeysMean(lines: seq<Line>, session: string, m: Sequences)
    requires Collected(lines, session, m)
    ensures m.Keys == Seqs(lines, session)
  {
    forall k ensures k in m <==> k in Seqs(lines, session) {
      if k in m {
        var l :| l in lines && Shows(l, session, k, m[k]);
        CountsMeans(l, session);
      }
      if k in Seqs(lines, session) {
        var l :| l in lines && Counts(l, session) && l.seqNo == k;
        CountsMeans(l, session);
      }
    }
  }

  lemma CollectedFrom(lines: seq<Line>, session: string)
    requires FramesInOrder(lines, session) && FramesAgree(lines, session)
    ensures exists m :: Collected(lines, session, m)
  {
    var m := map k | k in Seqs(lines, session) :: MarkAt(lines, session, k);
    forall l | l in lines && Relevant(l, session) ensures Proper(l) && l.seqNo in m && m[l.seqNo] == MarkOf(l) {
      CountsMeans(l, session);
    }
    forall k | k in m ensures exists l :: l in lines && Shows(l, session, k, m[k]) {
      var l :| l in lines && Counts(l, session) && l.seqNo == k;
      CountsMeans(l, session);
      assert Shows(l, session, k, m[k]);
    }
    assert Collected(lines, session, m);
  }

  ghost function MarkAt(lines: seq<Line>, session: string, k: nat): Mark
    requires k in Seqs(lines, session)
  {
    var l :| l in lines && Counts(l, session) && l.seqNo == k;
    Mark(l.disposition == "DELIVERED", l.timestamp)
  }

  /** Exactly when the log can be collected at all. */
  lemma CollectIff(lines: seq<Line>, session: string)
    ensures Collect(lines, session).Some? <==> FramesInOrder(lines, session) && FramesAgree(lines, session)
    ensures Collect(lines, session).Some? ==> Recorded(lines, session, Collect(lines, session).value)
  {
    CollectMeans(lines, session);
    if Collect(lines, session).Some? {
      CollectedMeans(lines, session, Collect(lines, session).value);
    } else if FramesInOrder(lines, session) && FramesAgree(lines, session) {
      CollectedFrom(lines, session);
    }
  }

  lemma RecordedMeans(lines: seq<Line>, session: string, m: Sequences)
    requires Recorded(lines, session, m) && FramesInOrder(lines, session)
    ensures |m| == |Seqs(lines, session)|
    ensures Delivered(m) == SeqsWith(lines, session, "DELIVERED")
    ensures Monotonic(m) <==> TimesFollow(lines, session)
  {
    assert m.Keys == Seqs(lines, session) && |m.Keys| == |m|;
    forall k ensures k in Delivered(m) <==> k in SeqsWith(lines, session, "DELIVERED") {
      if k in m {
        var l :| l in lines && Counts(l, session) && l.seqNo == k;
      }
    }
    if TimesFollow(lines, session) {
      forall j, k | j in m && k in m && j < k ensures m[j].at <= m[k].at {
        var a :| a in lines && Counts(a, session) && a.seqNo == j;
        var b :| b in lines && Counts(b, session) && b.seqNo == k;
      }
    }
  }

  /** Exactly which logs have a summary. */
  lemma SummarizedIff(lines: seq<Line>, session: string, browser: Browser)
    ensures Reduce(lines, session, browser).Ok? <==>
            && ValidSession(session)
            && FramesInOrder(lines, session) && FramesAgree(lines, session) && TimesFollow(lines, session)
            && |Seqs(lines, session)| >= 100 && 0 in Seqs(lines, session)
            && SeqsWith(lines, session, "DELIVERED") != {}
            && browser.binding.Some? && browser.observedAt.Some?
  {
    CollectIff(lines, session);
    if ValidSession(session) && Collect(lines, session).Some? {
      var m := Collect(lines, session).value;
      RecordedMeans(lines, session, m);
      AcceptedIff(m, browser);
      assert (exists k :: k in m && m[k].delivered) <==> Delivered(m) != {} by {
        if k :| k in m && m[k].delivered {
          assert k in Delivered(m);
        }
      }
    }
  }

  lemma DispositionsSplit(lines: seq<Line>, session: string)
    requires FramesInOrder(lines, session) && FramesAgree(lines, session)
    ensures |Seqs(lines, session)| ==
            |SeqsWith(lines, session, "DELIVERED")| + |SeqsWith(lines, session, "DROPPED_NO_VIEWER")|
  {
    var all, a, b := Seqs(lines, session), SeqsWith(lines, session, "DELIVERED"),
                     SeqsWith(lines, session, "DROPPED_NO_VIEWER");
    forall k ensures k in all <==> k in a || k in b {
      if k in all {
        var l :| l in lines && Counts(l, session) && l.seqNo == k;
      }
    }
    assert all == a + b;
    forall k | k in a ensures k !in b {
      var l :| l in lines && Counts(l, session) && l.disposition == "DELIVERED" && l.seqNo == k;
    }
    assert a !! b;
  }

  /** The counts of a summary are the numbers of distinct frames, of delivered and of dropped ones, and
      the gaps those that are missing below the last. */
  lemma SummaryCounts(lines: seq<Line>, session: string, browser: Browser, s: Summary)
    requires Reduce(lines, session, browser) == Ok(s)
    ensures s.distinct == |Seqs(lines, session)|
    ensures s.delivered == |SeqsWith(lines, session, "DELIVERED")|
    ensures s.dropped == |SeqsWith(lines, session, "DROPPED_NO_VIEWER")|
    ensures s.firstSeq == 0 && s.lastSeq in Seqs(lines, session)
    ensures forall k :: k in Seqs(lines, session) ==> k <= s.lastSeq
    ensures s.produced == s.lastSeq + 1 && s.gaps == s.produced - |Seqs(lines, session)|
    ensures Some(s.binding) == browser.binding && Some(s.observedAt) == browser.observedAt
  {
    CollectIff(lines, session);
    var m := Collect(lines, session).value;
    RecordedMeans(lines, session, m);
    DispositionsSplit(lines, session);
    SummaryFaithful(m, Ordered(m), browser, s);
    FromBrowser(m, Ordered(m), browser, s);
  }

  lemma FromBrowser(m: Sequences, ks: seq<nat>, browser: Browser, s: Summary)
    requires Lists(ks, m) && ks != [] && SummarizeOrdered(m, ks, browser) == Ok(s)
    ensures Some(s.binding) == browser.binding && Some(s.observedAt) == browser.observedAt
    ensures 0 in m && s.firstObservedAt == m[0].at && s.lastSeq in m && s.lastObservedAt == m[s.lastSeq].at
  {
  }

  /** The four times of a summary: of the first and of the last frame, and the earliest and latest of
      the delivered ones. */
  lemma SummaryTimes(lines: seq<Line>, session: string, browser: Browser, s: Summary)
    requires Reduce(lines, session, browser) == Ok(s)
    ensures forall l :: l in lines && Counts(l, session) && l.seqNo == 0 ==> s.firstObservedAt == l.timestamp
    ensures forall l :: l in lines && Counts(l, session) && l.seqNo == s.lastSeq ==> s.lastObservedAt == l.timestamp
    ensures forall l :: l in lines && Counts(l, session) && l.disposition == "DELIVERED" ==>
              s.firstDeliveredAt <= l.timestamp <= s.lastDeliveredAt
    ensures exists l :: l in lines && DeliveredFrame(l, session, s.firstDeliveredAt)
    ensures exists l :: l in lines && DeliveredFrame(l, session, s.lastDeliveredAt)
  {
    CollectIff(lines, session);
    var m := Collect(lines, session).value;
    var ks := Ordered(m);
    SummaryFaithful(m, ks, browser, s);
    FromBrowser(m, ks, browser, s);
    DeliveryShown(lines, session, m, ks, s.firstDeliveredAt);
    DeliveryShown(lines, session, m, ks, s.lastDeliveredAt);
  }

  predicate DeliveredFrame(l: Line, session: string, time: nat) {
    Counts(l, session) && l.disposition == "DELIVERED" && l.timestamp == time
  }

  lemma DeliveryShown(lines: seq<Line>, session: string, m: Sequences, ks: seq<nat>, time: nat)
    requires Recorded(lines, session, m) && Delivery(m, ks, time)
    ensures exists l :: l in lines && DeliveredFrame(l, session, time)
  {
    var k :| k in ks && DeliveredAt(m, k, time);
    assert k in Seqs(lines, session);
    var l :| l in lines && Counts(l, session) && l.seqNo == k;
    assert DeliveredFrame(l, session, time);
  }
}
