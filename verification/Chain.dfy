/** What replay accepts, said without the replay loop: the first occurrences of the events
    form a hash chain.  From that characterisation: tamper evidence and unique heads. */
module Chain {
  import opened Json
  import opened Replay

  function UuidOf(e: Object): string {
    if Get(e, EventUuid).Str? then Get(e, EventUuid).s else ""
  }

  function LinkOf(e: Object): Option<string> {
    if NormalizeLink(Get(e, PreviousEventHash)).Ok? then NormalizeLink(Get(e, PreviousEventHash)).value else None
  }

  function TimeOf(env: Env, e: Object): int {
    if ReadTime(env, e, CommittedAt).Ok? then ReadTime(env, e, CommittedAt).value else 0
  }

  predicate HasEnvelope(env: Env, e: Object) {
    && RequireString(e, EventUuid).Ok?
    && RequireString(e, SchemaVersion) == Ok(SCHEMA)
    && RequireString(e, EventType).Ok?
    && RequireString(e, EventType).value in env.authority
    && RequireString(e, WriterRole).Ok?
    && RequireString(e, WriterRole).value in env.authority[RequireString(e, EventType).value]
    && NormalizeLink(Get(e, PreviousEventHash)).Ok?
    && ReadTime(env, e, CommittedAt).Ok?
  }

  predicate HasContent(env: Env, e: Object) {
    && Get(e, Payload).Obj?
    && NormalizeHash(Get(e, PayloadHash), PayloadHash) == Ok(env.hash(Get(e, Payload)))
    && NormalizeHash(Get(e, EventHash), EventHash) == Ok(Digest(env, e))
  }

  /** An event that could stand somewhere in a ledger. */
  predicate WellFormed(env: Env, e: Object) {
    && HasEnvelope(env, e) && HasContent(env, e)
    && ValidateBinding(env, e, env.hash(Get(e, Payload)), TimeOf(env, e)).Ok?
  }

  function Head(env: Env, evs: seq<Object>): Option<string> {
    if evs == [] then None else Some(Digest(env, evs[|evs| - 1]))
  }

  /** Well-formed events with distinct uuids and non-decreasing times, each linked to the
      digest of the one before it, the first to nothing. */
  ghost predicate IsChain(env: Env, evs: seq<Object>) {
    AllWellFormed(env, evs) && Linked(env, evs) && TimesOrdered(env, evs) && UuidsDistinct(evs)
  }

  ghost predicate AllWellFormed(env: Env, evs: seq<Object>) {
    forall i :: 0 <= i < |evs| ==> WellFormed(env, evs[i])
  }

  ghost predicate Linked(env: Env, evs: seq<Object>) {
    forall i :: 0 <= i < |evs| ==> LinksBack(env, evs, i)
  }

  predicate LinksBack(env: Env, evs: seq<Object>, i: nat)
    requires i < |evs|
  {
    LinkOf(evs[i]) == if i == 0 then None else Some(Digest(env, evs[i - 1]))
  }

  ghost predicate TimesOrdered(env: Env, evs: seq<Object>) {
    forall i, j :: 0 <= i < j < |evs| ==> TimeOf(env, evs[i]) <= TimeOf(env, evs[j])
  }

  ghost predicate UuidsDistinct(evs: seq<Object>) {
    forall i, j :: 0 <= i < j < |evs| ==> UuidOf(evs[i]) != UuidOf(evs[j])
  }

  predicate Readable(env: Env, text: string) {
    ReadEvent(env, text).Ok? && RequireString(ReadEvent(env, text).value, EventUuid).Ok?
  }

  function EventOf(env: Env, text: string): Object
    requires Readable(env, text)
  {
    ReadEvent(env, text).value
  }

  predicate HasUuid(evs: seq<Object>, uuid: string) {
    exists i :: 0 <= i < |evs| && UuidOf(evs[i]) == uuid
  }

  /** The events of the ledger, each at its first occurrence. */
  function Accepted(env: Env, lines: seq<string>): seq<Object> {
    if lines == [] then []
    else
      Extended(env, Accepted(env, lines[..|lines| - 1]), lines[|lines| - 1])
  }

  /** The accepted events after one more line. */
  function Extended(env: Env, evs: seq<Object>, text: string): seq<Object> {
    if text == "" || !Readable(env, text) || HasUuid(evs, UuidOf(EventOf(env, text))) then evs
    else evs + [EventOf(env, text)]
  }

  /** A ledger is in order when its non-blank lines are events, lines that share a uuid are
      the same event, and the first occurrences form a chain. */
  ghost predicate InOrder(env: Env, lines: seq<string>) {
    && (forall i :: 0 <= i < |lines| && lines[i] != "" ==> Readable(env, lines[i]))
    && (forall i, j :: 0 <= i < j < |lines| && lines[i] != "" && lines[j] != "" ==>
          UuidOf(EventOf(env, lines[i])) == UuidOf(EventOf(env, lines[j])) ==>
          EventOf(env, lines[i]) == EventOf(env, lines[j]))
    && IsChain(env, Accepted(env, lines))
  }

  /** The loop variables of replay, read off the accepted events. */
  ghost predicate Summarizes(env: Env, st: State, evs: seq<Object>) {
    && st.valid == |evs|
    && st.lastHash == Head(env, evs)
    && st.lastTime == (if evs == [] then None else Some(TimeOf(env, evs[|evs| - 1])))
    && (forall i :: 0 <= i < |evs| ==> UuidOf(evs[i]) in st.seen && st.seen[UuidOf(evs[i])] == evs[i])
    && (forall u :: u in st.seen ==> HasUuid(evs, u))
  }

  lemma LinkedPrefix(env: Env, evs: seq<Object>, k: nat)
    requires Linked(env, evs) && k <= |evs|
    ensures Linked(env, evs[..k])
  {
    forall i | 0 <= i < k
      ensures LinksBack(env, evs[..k], i)
    {
      assert LinksBack(env, evs, i);
    }
  }

  lemma ChainPrefix(env: Env, evs: seq<Object>, k: nat)
    requires IsChain(env, evs) && k <= |evs|
    ensures IsChain(env, evs[..k])
  {
    LinkedPrefix(env, evs, k);
  }

  lemma LinkedSnoc(env: Env, evs: seq<Object>, e: Object)
    requires Linked(env, evs) && LinkOf(e) == Head(env, evs)
    ensures Linked(env, evs + [e])
  {
    var longer := evs + [e];
    forall i | 0 <= i < |longer|
      ensures LinksBack(env, longer, i)
    {
      assert i < |evs| ==> LinksBack(env, evs, i);
    }
  }

  lemma TimesSnoc(env: Env, evs: seq<Object>, e: Object)
    requires TimesOrdered(env, evs)
    requires evs != [] ==> TimeOf(env, evs[|evs| - 1]) <= TimeOf(env, e)
    ensures TimesOrdered(env, evs + [e])
  {
  }

  lemma UuidsSnoc(evs: seq<Object>, e: Object)
    requires UuidsDistinct(evs) && !HasUuid(evs, UuidOf(e))
    ensures UuidsDistinct(evs + [e])
  {
  }

  lemma ChainSnoc(env: Env, evs: seq<Object>, e: Object)
    requires IsChain(env, evs)
    requires WellFormed(env, e) && LinkOf(e) == Head(env, evs)
    requires evs != [] ==> TimeOf(env, evs[|evs| - 1]) <= TimeOf(env, e)
    requires !HasUuid(evs, UuidOf(e))
    ensures IsChain(env, evs + [e])
  {
    LinkedSnoc(env, evs, e);
    TimesSnoc(env, evs, e);
    UuidsSnoc(evs, e);
  }

  /** Validation of a fresh event succeeds exactly when it extends the chain. */
  lemma ValidateExtendsChain(env: Env, evs: seq<Object>, st: State, e: Object)
    requires Summarizes(env, st, evs)
    requires RequireString(e, EventUuid).Ok?
    ensures ValidateNewEvent(env, e, st.lastHash, st.lastTime, st.valid).Ok? <==>
            && WellFormed(env, e)
            && LinkOf(e) == Head(env, evs)
            && (evs != [] ==> TimeOf(env, evs[|evs| - 1]) <= TimeOf(env, e))
    ensures var r := ValidateNewEvent(env, e, st.lastHash, st.lastTime, st.valid);
            r.Ok? ==> r.value == (Digest(env, e), TimeOf(env, e))
  {
  }

  lemma AcceptedSnoc(env: Env, lines: seq<string>, text: string)
    ensures Accepted(env, lines + [text]) == Extended(env, Accepted(env, lines), text)
  {
    assert (lines + [text])[..|lines|] == lines;
  }

  /** The accepted events of a shorter ledger are a prefix of those of a longer one. */
  lemma {:induction false} AcceptedMonotone(env: Env, lines: seq<string>, more: seq<string>)
    ensures Accepted(env, lines) <= Accepted(env, lines + more)
  {
    if more == [] {
      assert lines + more == lines;
    } else {
      var n := |more|;
      AcceptedMonotone(env, lines, more[..n - 1]);
      assert lines + more == (lines + more[..n - 1]) + [more[n - 1]];
      AcceptedSnoc(env, lines + more[..n - 1], more[n - 1]);
    }
  }

  /** Accepted events come from lines, and no readable line's uuid is lost. */
  lemma {:induction false} AcceptedCovers(env: Env, lines: seq<string>)
    ensures forall e :: e in Accepted(env, lines) ==>
              exists i :: 0 <= i < |lines| && lines[i] != "" && Readable(env, lines[i]) && EventOf(env, lines[i]) == e
    ensures forall i :: 0 <= i < |lines| && lines[i] != "" && Readable(env, lines[i]) ==>
              HasUuid(Accepted(env, lines), UuidOf(EventOf(env, lines[i])))
  {
    if lines != [] {
      var n := |lines|;
      var shorter := lines[..n - 1];
      AcceptedCovers(env, shorter);
      var before, after := Accepted(env, shorter), Accepted(env, lines);
      forall e | e in after
        ensures exists i :: 0 <= i < n && lines[i] != "" && Readable(env, lines[i]) && EventOf(env, lines[i]) == e
      {
        if e in before {
          var i :| 0 <= i < n - 1 && shorter[i] != "" && Readable(env, shorter[i]) && EventOf(env, shorter[i]) == e;
          assert lines[i] == shorter[i];
        } else {
          assert lines[n - 1] != "" && EventOf(env, lines[n - 1]) == e;
        }
      }
      forall i | 0 <= i < n && lines[i] != "" && Readable(env, lines[i])
        ensures HasUuid(after, UuidOf(EventOf(env, lines[i])))
      {
        if i < n - 1 {
          assert lines[i] == shorter[i];
          var k :| 0 <= k < |before| && UuidOf(before[k]) == UuidOf(EventOf(env, lines[i]));
          assert after[k] == before[k];
        } else if after != before {
          assert after[|before|] == EventOf(env, lines[i]);
        }
      }
    }
  }

  /** What an accepted line does to the loop variables. */
  lemma StepCases(env: Env, st: State, text: string, next: State)
    requires Step(env, st, text) == Ok(next)
    ensures text == "" ==> next == st
    ensures text != "" ==> Readable(env, text)
    ensures text != "" && UuidOf(EventOf(env, text)) in st.seen ==> next == st.(dup := st.dup + 1)
    ensures text != "" && UuidOf(EventOf(env, text)) !in st.seen ==>
              Joined(env, st, EventOf(env, text), next)
  {
  }

  ghost predicate Joined(env: Env, st: State, e: Object, next: State) {
    && RequireString(e, EventUuid).Ok?
    && ValidateNewEvent(env, e, st.lastHash, st.lastTime, st.valid).Ok?
    && var ok := ValidateNewEvent(env, e, st.lastHash, st.lastTime, st.valid).value;
       next == State(Some(ok.0), Some(ok.1), st.valid + 1, st.dup, st.seen[UuidOf(e) := e])
  }

  /** One accepted line keeps the loop variables describing a chain. */
  lemma StepExtends(env: Env, st: State, evs: seq<Object>, text: string, next: State, more: seq<Object>)
    requires Summarizes(env, st, evs) && IsChain(env, evs)
    requires Step(env, st, text) == Ok(next) && more == Extended(env, evs, text)
    ensures Summarizes(env, next, more) && IsChain(env, more)
  {
    StepCases(env, st, text, next);
    if text != "" {
      ReadableExtends(env, st, evs, EventOf(env, text), next, more);
    }
  }

  lemma ReadableExtends(env: Env, st: State, evs: seq<Object>, e: Object, next: State, more: seq<Object>)
    requires Summarizes(env, st, evs) && IsChain(env, evs)
    requires if UuidOf(e) in st.seen then next == st.(dup := st.dup + 1) else Joined(env, st, e, next)
    requires more == if HasUuid(evs, UuidOf(e)) then evs else evs + [e]
    ensures Summarizes(env, next, more) && IsChain(env, more)
  {
    if UuidOf(e) in st.seen {
      DuplicateSummarized(env, st, evs, next);
    } else {
      FreshExtends(env, st, evs, e, next);
    }
  }

  lemma DuplicateSummarized(env: Env, st: State, evs: seq<Object>, next: State)
    requires Summarizes(env, st, evs) && next == st.(dup := st.dup + 1)
    ensures Summarizes(env, next, evs)
  {
  }

  lemma FreshExtends(env: Env, st: State, evs: seq<Object>, e: Object, next: State)
    requires Summarizes(env, st, evs) && IsChain(env, evs)
    requires UuidOf(e) !in st.seen && Joined(env, st, e, next)
    ensures Summarizes(env, next, evs + [e])
    ensures !HasUuid(evs, UuidOf(e)) && IsChain(env, evs + [e])
  {
    ValidateExtendsChain(env, evs, st, e);
    ChainSnoc(env, evs, e);
    SummarySnoc(env, st, evs, e);
  }

  lemma {:induction false} ReplayedIsChain(env: Env, lines: seq<string>)
    requires Replays(env, lines)
    ensures Summarizes(env, Run(env, lines).st, Accepted(env, lines))
    ensures IsChain(env, Accepted(env, lines))
  {
    if lines != [] {
      var shorter, text := lines[..|lines| - 1], lines[|lines| - 1];
      ReplayedIsChain(env, shorter);
      var st, evs := Run(env, shorter).st, Accepted(env, shorter);
      StepExtends(env, st, evs, text, Run(env, lines).st, Accepted(env, lines));
    }
  }

  lemma {:induction false} ReplayedReadable(env: Env, lines: seq<string>, i: nat)
    requires Replays(env, lines) && i < |lines| && lines[i] != ""
    ensures Readable(env, lines[i])
  {
    if i < |lines| - 1 {
      ReplayedReadable(env, lines[..|lines| - 1], i);
    }
  }

  lemma ReplayedSummary(env: Env, lines: seq<string>)
    requires Replays(env, lines)
    ensures Summarizes(env, Run(env, lines).st, Accepted(env, lines))
  {
    ReplayedIsChain(env, lines);
  }

  /** The part of `ReplayedIsChain` that concerns heads and identity only. */
  lemma ReplayedHeads(env: Env, lines: seq<string>)
    requires Replays(env, lines)
    ensures var st, evs := Run(env, lines).st, Accepted(env, lines);
            st.valid == |evs| && st.lastHash == Head(env, evs) && Linked(env, evs) && UuidsDistinct(evs)
  {
    ReplayedIsChain(env, lines);
  }

  lemma SummarySnoc(env: Env, st: State, evs: seq<Object>, e: Object)
    requires Summarizes(env, st, evs) && !HasUuid(evs, UuidOf(e))
    ensures Summarizes(env,
              State(Some(Digest(env, e)), Some(TimeOf(env, e)), st.valid + 1, st.dup, st.seen[UuidOf(e) := e]),
              evs + [e])
  {
    var longer := evs + [e];
    forall u | u in st.seen || u == UuidOf(e)
      ensures HasUuid(longer, u)
    {
      if u in st.seen {
        var i :| 0 <= i < |evs| && UuidOf(evs[i]) == u;
        assert longer[i] == evs[i];
      } else {
        assert longer[|evs|] == e;
      }
    }
  }

  lemma {:induction false} SameUuidSameEvent(env: Env, lines: seq<string>, i: nat, j: nat)
    requires Replays(env, lines) && i < j < |lines| && lines[i] != "" && lines[j] != ""
    requires Readable(env, lines[i]) && Readable(env, lines[j])
    requires UuidOf(EventOf(env, lines[i])) == UuidOf(EventOf(env, lines[j]))
    ensures EventOf(env, lines[i]) == EventOf(env, lines[j])
    decreases j
  {
    // Both lines were compared with the event first seen under their uuid.
    SeenAgrees(env, lines, i);
    SeenAgrees(env, lines, j);
  }

  lemma {:induction false} SeenAgrees(env: Env, lines: seq<string>, i: nat)
    requires Replays(env, lines) && i < |lines| && lines[i] != "" && Readable(env, lines[i])
    ensures var seen := Run(env, lines).st.seen;
            var e := EventOf(env, lines[i]);
            UuidOf(e) in seen && seen[UuidOf(e)] == e
  {
    var n := |lines|;
    if i < n - 1 {
      SeenAgrees(env, lines[..n - 1], i);
    }
  }

  /** Replay accepts a ledger exactly when it is in order, and then its loop variables
      describe the chain of accepted events. */
  lemma {:induction false} ReplaysIffInOrder(env: Env, lines: seq<string>)
    ensures Replays(env, lines) <==> InOrder(env, lines)
    ensures Replays(env, lines) ==> Summarizes(env, Run(env, lines).st, Accepted(env, lines))
  {
    if Replays(env, lines) {
      ReplayedIsChain(env, lines);
      forall i | 0 <= i < |lines| && lines[i] != "" ensures Readable(env, lines[i]) {
        ReplayedReadable(env, lines, i);
      }
      forall i, j | 0 <= i < j < |lines| && lines[i] != "" && lines[j] != "" &&
                    UuidOf(EventOf(env, lines[i])) == UuidOf(EventOf(env, lines[j]))
        ensures EventOf(env, lines[i]) == EventOf(env, lines[j])
      {
        SameUuidSameEvent(env, lines, i, j);
      }
    }
    if InOrder(env, lines) {
      InOrderReplays(env, lines);
    }
  }

  lemma InOrderShorter(env: Env, lines: seq<string>)
    requires lines != [] && InOrder(env, lines)
    ensures InOrder(env, lines[..|lines| - 1])
  {
    var shorter := lines[..|lines| - 1];
    assert shorter + [lines[|lines| - 1]] == lines;
    AcceptedMonotone(env, shorter, [lines[|lines| - 1]]);
    var evs := Accepted(env, lines);
    ChainPrefix(env, evs, |Accepted(env, shorter)|);
    assert evs[..|Accepted(env, shorter)|] == Accepted(env, shorter);
    forall i | 0 <= i < |shorter| && shorter[i] != "" ensures Readable(env, shorter[i]) {
      assert shorter[i] == lines[i];
    }
    forall i, j | 0 <= i < j < |shorter| && shorter[i] != "" && shorter[j] != "" &&
                  UuidOf(EventOf(env, shorter[i])) == UuidOf(EventOf(env, shorter[j]))
      ensures EventOf(env, shorter[i]) == EventOf(env, shorter[j])
    {
      assert shorter[i] == lines[i] && shorter[j] == lines[j];
    }
  }

  /** A line that keeps the ledger in order is a line replay accepts. */
  lemma InOrderStep(env: Env, st: State, evs: seq<Object>, text: string)
    requires Summarizes(env, st, evs) && text != "" && Readable(env, text)
    requires HasUuid(evs, UuidOf(EventOf(env, text))) ==> EventOf(env, text) in evs
    requires !HasUuid(evs, UuidOf(EventOf(env, text))) ==> IsChain(env, evs + [EventOf(env, text)])
    ensures Step(env, st, text).Ok?
  {
    var e := EventOf(env, text);
    if HasUuid(evs, UuidOf(e)) {
      var k :| 0 <= k < |evs| && evs[k] == e;
    } else {
      LastOfChain(env, evs, e);
      ValidateExtendsChain(env, evs, st, e);
    }
  }

  lemma LastOfChain(env: Env, evs: seq<Object>, e: Object)
    requires IsChain(env, evs + [e])
    ensures WellFormed(env, e) && LinkOf(e) == Head(env, evs)
    ensures evs != [] ==> TimeOf(env, evs[|evs| - 1]) <= TimeOf(env, e)
  {
    var all, n := evs + [e], |evs|;
    assert all[n] == e;
    assert LinksBack(env, all, n);
    assert evs != [] ==> all[n - 1] == evs[n - 1];
  }

  lemma {:induction false} InOrderReplays(env: Env, lines: seq<string>)
    requires InOrder(env, lines)
    ensures Replays(env, lines)
  {
    if lines != [] {
      var n := |lines|;
      var shorter, text := lines[..n - 1], lines[n - 1];
      InOrderShorter(env, lines);
      InOrderReplays(env, shorter);
      ReplayedIsChain(env, shorter);
      if text != "" {
        if HasUuid(Accepted(env, shorter), UuidOf(EventOf(env, text))) {
          RepeatIsKnown(env, lines);
        }
        InOrderStep(env, Run(env, shorter).st, Accepted(env, shorter), text);
      }
    }
  }

  lemma RepeatIsKnown(env: Env, lines: seq<string>)
    requires lines != [] && InOrder(env, lines) && lines[|lines| - 1] != ""
    requires HasUuid(Accepted(env, lines[..|lines| - 1]), UuidOf(EventOf(env, lines[|lines| - 1])))
    ensures EventOf(env, lines[|lines| - 1]) in Accepted(env, lines[..|lines| - 1])
  {
    var shorter, e := lines[..|lines| - 1], EventOf(env, lines[|lines| - 1]);
    var i := KnownLine(env, shorter, UuidOf(e));
    assert shorter[i] == lines[i];
  }

  lemma KnownLine(env: Env, lines: seq<string>, uuid: string) returns (i: nat)
    requires HasUuid(Accepted(env, lines), uuid)
    ensures i < |lines| && lines[i] != "" && Readable(env, lines[i])
    ensures UuidOf(EventOf(env, lines[i])) == uuid && EventOf(env, lines[i]) in Accepted(env, lines)
  {
    var evs := Accepted(env, lines);
    AcceptedCovers(env, lines);
    var k :| 0 <= k < |evs| && UuidOf(evs[k]) == uuid;
    assert evs[k] in evs;
    i :| 0 <= i < |lines| && lines[i] != "" && Readable(env, lines[i]) && EventOf(env, lines[i]) == evs[k];
  }

  // ----- tamper evidence

  function Materials(evs: seq<Object>): set<Value> {
    set i | 0 <= i < |evs| :: Material(evs[i])
  }

  /** No two of the given hashed values share a hash. */
  ghost predicate NoCollision(env: Env, hashed: set<Value>) {
    forall a, b :: a in hashed && b in hashed && env.hash(a) == env.hash(b) ==> a == b
  }

  ghost predicate SameMaterials(a: seq<Object>, b: seq<Object>) {
    |a| == |b| && forall i :: 0 <= i < |a| ==> Material(a[i]) == Material(b[i])
  }

  lemma MaterialDeterminesLink(a: Object, b: Object)
    requires Material(a) == Material(b)
    ensures LinkOf(a) == LinkOf(b) && UuidOf(a) == UuidOf(b)
  {
    MaterialDeterminesMembers(a, b);
  }

  lemma MaterialDeterminesMembers(a: Object, b: Object)
    requires Material(a) == Material(b)
    ensures forall k :: k != EventHash ==> Get(a, k) == Get(b, k)
  {
    var ma, mb := a - {EventHash}, b - {EventHash};
    forall k | k != EventHash ensures Get(a, k) == Get(b, k) {
      assert k in a <==> k in ma;
      assert k in b <==> k in mb;
    }
  }

  lemma EqualHashesEqualMaterials(env: Env, x: Object, y: Object, hashed: set<Value>)
    requires NoCollision(env, hashed) && Material(x) in hashed && Material(y) in hashed
    requires Digest(env, x) == Digest(env, y)
    ensures Material(x) == Material(y)
  {
  }

  /** The link of the last event is the head before it. */
  lemma LastLink(env: Env, evs: seq<Object>)
    requires Linked(env, evs) && evs != []
    ensures LinkOf(evs[|evs| - 1]) == Head(env, evs[..|evs| - 1])
  {
    assert LinksBack(env, evs, |evs| - 1);
  }

  /** Equal heads: the last events have equal materials, so the heads before them are equal. */
  lemma EqualHeadsStep(env: Env, a: seq<Object>, b: seq<Object>)
    requires Linked(env, a) && Linked(env, b) && a != [] && b != []
    requires NoCollision(env, Materials(a) + Materials(b))
    requires Head(env, a) == Head(env, b)
    ensures Material(a[|a| - 1]) == Material(b[|b| - 1])
    ensures Head(env, a[..|a| - 1]) == Head(env, b[..|b| - 1])
  {
    var x, y := a[|a| - 1], b[|b| - 1];
    assert Material(x) in Materials(a) && Material(y) in Materials(b);
    EqualHashesEqualMaterials(env, x, y, Materials(a) + Materials(b));
    MaterialDeterminesLink(x, y);
    LastLink(env, a);
    LastLink(env, b);
  }

  /** Two chains with the same head have the same length and the same events, up to the
      spelling of `event_hash`: walking back from the head, equal hashes give equal
      materials, which carry equal links, down to the null link of the first event. */
  lemma {:induction false} EqualHeadsEqualChains(env: Env, a: seq<Object>, b: seq<Object>)
    requires Linked(env, a) && Linked(env, b)
    requires NoCollision(env, Materials(a) + Materials(b))
    requires Head(env, a) == Head(env, b)
    ensures SameMaterials(a, b)
  {
    if a != [] && b != [] {
      var shorterA, shorterB := a[..|a| - 1], b[..|b| - 1];
      EqualHeadsStep(env, a, b);
      ShorterChain(env, a, shorterA);
      ShorterChain(env, b, shorterB);
      FewerHashed(env, Materials(a) + Materials(b), Materials(shorterA) + Materials(shorterB));
      EqualHeadsEqualChains(env, shorterA, shorterB);
      SameMaterialsSnoc(a, b);
    }
  }

  lemma ShorterChain(env: Env, evs: seq<Object>, shorter: seq<Object>)
    requires evs != [] && shorter == evs[..|evs| - 1] && Linked(env, evs)
    ensures Linked(env, shorter) && Materials(shorter) <= Materials(evs)
  {
    LinkedPrefix(env, evs, |evs| - 1);
  }

  lemma FewerHashed(env: Env, hashed: set<Value>, fewer: set<Value>)
    requires NoCollision(env, hashed) && fewer <= hashed
    ensures NoCollision(env, fewer)
  {
  }

  lemma SameMaterialsSnoc(a: seq<Object>, b: seq<Object>)
    requires a != [] && b != [] && SameMaterials(a[..|a| - 1], b[..|b| - 1])
    requires Material(a[|a| - 1]) == Material(b[|b| - 1])
    ensures SameMaterials(a, b)
  {
    forall i | 0 <= i < |a| - 1 ensures Material(a[i]) == Material(b[i]) {
      assert a[..|a| - 1][i] == a[i] && b[..|b| - 1][i] == b[i];
    }
  }

  /** Tamper evidence: any two valid ledgers with the same `valid_prefix_hash` have the same
      number of events and event for event the same contents; the recorded hashes agree
      once their spelling is normalised. */
  lemma TamperEvident(env: Env, lines: seq<string>, other: seq<string>)
    requires Replays(env, lines) && Replays(env, other)
    requires NoCollision(env, Materials(Accepted(env, lines)) + Materials(Accepted(env, other)))
    requires Run(env, lines).st.lastHash == Run(env, other).st.lastHash
    ensures Run(env, lines).st.valid == Run(env, other).st.valid
    ensures SameUpToSpelling(Accepted(env, lines), Accepted(env, other))
  {
    ReplayedIsChain(env, lines);
    ReplayedIsChain(env, other);
    EqualHeadsEqualChains(env, Accepted(env, lines), Accepted(env, other));
    SameMaterialsSameEvents(env, Accepted(env, lines), Accepted(env, other));
  }

  predicate SameEvent(a: Object, b: Object) {
    && a - {EventHash} == b - {EventHash}
    && NormalizeHash(Get(a, EventHash), EventHash) == NormalizeHash(Get(b, EventHash), EventHash)
  }

  ghost predicate SameUpToSpelling(a: seq<Object>, b: seq<Object>) {
    |a| == |b| && forall i :: 0 <= i < |a| ==> SameEvent(a[i], b[i])
  }

  lemma SameMaterialsSameEvents(env: Env, a: seq<Object>, b: seq<Object>)
    requires SameMaterials(a, b) && AllWellFormed(env, a) && AllWellFormed(env, b)
    ensures SameUpToSpelling(a, b)
  {
    forall i | 0 <= i < |a| ensures SameEvent(a[i], b[i]) {
      assert WellFormed(env, a[i]) && WellFormed(env, b[i]);
      assert Material(a[i]) == Material(b[i]);
    }
  }

  /** An event linked to the current head is not yet in the chain. */
  lemma LinkedToHeadIsNew(env: Env, evs: seq<Object>, e: Object)
    requires Linked(env, evs) && UuidsDistinct(evs) && NoCollision(env, Materials(evs))
    requires LinkOf(e) == Head(env, evs)
    ensures e !in evs
  {
    if e in evs {
      var k :| 0 <= k < |evs| && evs[k] == e;
      assert LinksBack(env, evs, k);
      assert evs[..|evs|] == evs;
      HeadsDistinct(env, evs, k, |evs|);
      assert false;
    }
  }

  /** Within one chain no head hash occurs twice, so a head never comes back. */
  lemma HeadsDistinct(env: Env, evs: seq<Object>, i: nat, j: nat)
    requires UuidsDistinct(evs) && NoCollision(env, Materials(evs))
    requires i < j <= |evs|
    ensures Head(env, evs[..i]) != Head(env, evs[..j])
  {
    if i > 0 && Digest(env, evs[i - 1]) == Digest(env, evs[j - 1]) {
      assert Material(evs[i - 1]) in Materials(evs) && Material(evs[j - 1]) in Materials(evs);
      MaterialDeterminesLink(evs[i - 1], evs[j - 1]);
      assert false;
    }
  }
}
