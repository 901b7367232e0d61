/** The append-only check between two versions of the ledger
    (scripts/coordination/enforce-append-only-ledger.py). */
module Enforcer {
  import opened Json
  import opened Replay
  import opened Chain
  import opened Appender

  datatype Objection =
    | Shorter
    | PrefixMismatch(line: nat)
    | OldInvalid(line: nat, reason: Reason)
    | NewInvalid(line: nat, reason: Reason)

  datatype Verdict = Accept(oldEvents: nat, newEvents: nat, appended: nat) | Reject(why: Objection)

  /** Both versions replay, and the non-blank lines of the old one begin the new one. */
  ghost predicate AppendOnly(env: Env, older: seq<string>, newer: seq<string>) {
    NonBlank(older) <= NonBlank(newer) && Replays(env, older) && Replays(env, newer)
  }

  method Compare(env: Env, older: seq<string>, newer: seq<string>) returns (v: Verdict)
    ensures v.Accept? <==> AppendOnly(env, older, newer)
    ensures v.Accept? ==>
              && v.oldEvents == Run(env, older).st.valid
              && v.newEvents == Run(env, newer).st.valid
              && v.appended == |NonBlank(newer)| - |NonBlank(older)|
    ensures v.Reject? && v.why.PrefixMismatch? ==>
              && 0 < v.why.line <= |NonBlank(older)| <= |NonBlank(newer)|
              && NonBlank(older)[v.why.line - 1] != NonBlank(newer)[v.why.line - 1]
              && NonBlank(older)[..v.why.line - 1] == NonBlank(newer)[..v.why.line - 1]
  {
    var oldLines, newLines := NonBlank(older), NonBlank(newer);
    if |newLines| < |oldLines| {
      return Reject(Shorter);
    }
    var i := 0;
    while i < |oldLines|
      invariant 0 <= i <= |oldLines|
      invariant oldLines[..i] == newLines[..i]
    {
      if newLines[i] != oldLines[i] {
        return Reject(PrefixMismatch(i + 1));
      }
      i := i + 1;
    }
    assert oldLines[..i] == oldLines;
    var oldEvents, newEvents := 0, 0;
    if oldLines != [] {
      var r := ReplayLedger(env, older);
      if !r.valid {
        return Reject(OldInvalid(r.invalidLine.value, r.reason.value));
      }
      oldEvents := r.validEvents;
    } else {
      BlankReplays(env, older);
    }
    if newLines != [] {
      var r := ReplayLedger(env, newer);
      if !r.valid {
        return Reject(NewInvalid(r.invalidLine.value, r.reason.value));
      }
      newEvents := r.validEvents;
    } else {
      BlankReplays(env, newer);
    }
    return Accept(oldEvents, newEvents, |newLines| - |oldLines|);
  }

  lemma {:induction false} BlankReplays(env: Env, lines: seq<string>)
    requires NonBlank(lines) == []
    ensures Run(env, lines) == Done(START)
  {
    if lines != [] {
      BlankReplays(env, lines[..|lines| - 1]);
    }
  }

  lemma AppendOnlyTransitive(env: Env, a: seq<string>, b: seq<string>, c: seq<string>)
    requires AppendOnly(env, a, b) && AppendOnly(env, b, c)
    ensures AppendOnly(env, a, c)
  {
    var x, y, z := NonBlank(a), NonBlank(b), NonBlank(c);
    assert x == y[..|x|] == z[..|x|];
  }

  lemma {:induction false} AcceptedOfNonBlank(env: Env, lines: seq<string>)
    ensures Accepted(env, NonBlank(lines)) == Accepted(env, lines)
  {
    if lines != [] {
      var n := |lines|;
      AcceptedOfNonBlank(env, lines[..n - 1]);
      if lines[n - 1] == "" {
        assert NonBlank(lines) == NonBlank(lines[..n - 1]);
      } else {
        AcceptedSnoc(env, NonBlank(lines[..n - 1]), lines[n - 1]);
      }
    }
  }

  /** An accepted change keeps every event the old version held, in place. */
  lemma AppendOnlyKeepsEvents(env: Env, older: seq<string>, newer: seq<string>)
    requires AppendOnly(env, older, newer)
    ensures Accepted(env, older) <= Accepted(env, newer)
    ensures Run(env, older).st.valid <= Run(env, newer).st.valid
  {
    var x, y := NonBlank(older), NonBlank(newer);
    AcceptedOfNonBlank(env, older);
    AcceptedOfNonBlank(env, newer);
    assert y == x + y[|x|..];
    AcceptedMonotone(env, x, y[|x|..]);
    ReplayedHeads(env, older);
    ReplayedHeads(env, newer);
  }

  lemma {:induction false} NonBlankMonotone(lines: seq<string>, more: seq<string>)
    ensures NonBlank(lines) <= NonBlank(lines + more)
  {
    if more == [] {
      assert lines + more == lines;
    } else {
      var n := |more|;
      NonBlankMonotone(lines, more[..n - 1]);
      assert lines + more == (lines + more[..n - 1]) + [more[n - 1]];
      NonBlankSnoc(lines + more[..n - 1], more[n - 1]);
    }
  }

  /** Whatever requests the appender serves, every version of the ledger passes the check
      against every earlier version. */
  lemma AppenderIsAppendOnly(env: Env, lines: seq<string>, reqs: seq<Request>, i: nat)
    requires Replays(env, lines) && i <= |reqs|
    ensures AppendOnly(env, Serve(env, lines, reqs[..i]), Serve(env, lines, reqs))
  {
    ServeGrows(env, lines, reqs, i);
    ServeGrows(env, lines, reqs[..i], 0);
    LongerIsAppendOnly(env, Serve(env, lines, reqs[..i]), Serve(env, lines, reqs));
  }

  lemma LongerIsAppendOnly(env: Env, older: seq<string>, newer: seq<string>)
    requires older <= newer && Replays(env, older) && Replays(env, newer)
    ensures AppendOnly(env, older, newer)
  {
    NonBlankMonotone(older, newer[|older|..]);
    assert newer == older + newer[|older|..];
  }

  // ----- raw lines and accepted events

  /** Every non-blank line that decodes to an object, duplicates included: what the claim
      evaluator, the reaper and the takeover planner fold over. */
  function RawEvents(env: Env, lines: seq<string>): seq<Object> {
    if lines == [] then []
    else WithRaw(env, RawEvents(env, lines[..|lines| - 1]), lines[|lines| - 1])
  }

  function WithRaw(env: Env, raw: seq<Object>, text: string): seq<Object> {
    if text == "" || ReadEvent(env, text).Fail? then raw else raw + [ReadEvent(env, text).value]
  }

  lemma RawStep(env: Env, st: State, evs: seq<Object>, raw: seq<Object>, text: string)
    requires Summarizes(env, st, evs) && Step(env, st, text).Ok?
    requires |raw| == st.valid + st.dup && (st.dup == 0 ==> raw == evs)
    ensures var st' := Step(env, st, text).value;
            && |WithRaw(env, raw, text)| == st'.valid + st'.dup
            && (st'.dup == 0 ==> WithRaw(env, raw, text) == Extended(env, evs, text))
  {
  }

  lemma {:induction false} RawIsAcceptedPlusDuplicates(env: Env, lines: seq<string>)
    requires Replays(env, lines)
    ensures |RawEvents(env, lines)| == Run(env, lines).st.valid + Run(env, lines).st.dup
    ensures Run(env, lines).st.dup == 0 ==> RawEvents(env, lines) == Accepted(env, lines)
  {
    if lines != [] {
      var shorter := lines[..|lines| - 1];
      RawIsAcceptedPlusDuplicates(env, shorter);
      ReplayedSummary(env, shorter);
      RawStep(env, Run(env, shorter).st, Accepted(env, shorter), RawEvents(env, shorter), lines[|lines| - 1]);
    }
  }

  /** The raw events are the accepted events exactly when replay reports no duplicate. */
  lemma RawEqualsAcceptedIff(env: Env, lines: seq<string>)
    requires Replays(env, lines)
    ensures RawEvents(env, lines) == Accepted(env, lines) <==> Run(env, lines).st.dup == 0
  {
    RawIsAcceptedPlusDuplicates(env, lines);
    ReplayedHeads(env, lines);
  }

  lemma {:induction false} DuplicatesOnlyGrow(env: Env, lines: seq<string>, k: nat)
    requires Replays(env, lines) && k <= |lines|
    ensures Replays(env, lines[..k]) && Run(env, lines[..k]).st.dup <= Run(env, lines).st.dup
  {
    if k < |lines| {
      DuplicatesOnlyGrow(env, lines[..|lines| - 1], k);
      assert lines[..|lines| - 1][..k] == lines[..k];
    } else {
      assert lines[..k] == lines;
    }
  }

  lemma RepeatIsCounted(env: Env, lines: seq<string>, i: nat)
    requires Replays(env, lines) && i < |lines| - 1 && lines[i] == lines[|lines| - 1] != ""
    ensures Run(env, lines).st.dup == Run(env, lines[..|lines| - 1]).st.dup + 1
  {
    var shorter := lines[..|lines| - 1];
    assert shorter[i] == lines[i] && Replays(env, shorter);
    ReplayedReadable(env, shorter, i);
    SeenAgrees(env, shorter, i);
  }

  lemma NoDuplicateLines(env: Env, lines: seq<string>, i: nat, j: nat)
    requires Replays(env, lines) && Run(env, lines).st.dup == 0
    requires i < j < |lines| && lines[i] != ""
    ensures lines[i] != lines[j]
  {
    if lines[i] == lines[j] {
      DuplicatesOnlyGrow(env, lines, j + 1);
      RepeatIsCounted(env, lines[..j + 1], i);
      assert false;
    }
  }

  /** Every ledger grown from nothing by the appender is free of duplicate lines, so all
      readers see the same events. */
  lemma ReachableHasNoDuplicates(env: Env, reqs: seq<Request>)
    requires env.Valid() && Unforged(env, Serve(env, [], reqs))
    ensures Replays(env, Serve(env, [], reqs))
    ensures RawEvents(env, Serve(env, [], reqs)) == Accepted(env, Serve(env, [], reqs))
    ensures forall i, j :: 0 <= i < j < |Serve(env, [], reqs)| && Serve(env, [], reqs)[i] != "" ==>
              Serve(env, [], reqs)[i] != Serve(env, [], reqs)[j]
  {
    var lines := Serve(env, [], reqs);
    ServeGrows(env, [], reqs, 0);
    EventsCountSuccesses(env, [], reqs);
    RawEqualsAcceptedIff(env, lines);
    forall i, j | 0 <= i < j < |lines| && lines[i] != "" ensures lines[i] != lines[j] {
      NoDuplicateLines(env, lines, i, j);
    }
  }
}
