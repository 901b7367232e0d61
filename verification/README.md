# Coordination Ledger, overlay editors and session evidence: a verified model

This project models the parts of the platform's GitOps repository that keep state or must agree with
each other, and proves what they promise. Check it with `dafny verify dfyconfig.toml`.

## What is modelled

**The Coordination Ledger** is an append-only JSONL log of hash-chained events.

- `Replay` is the verifier: a loop over the lines that carries the last hash, the last time, two
  counters and the events seen by uuid. `Chain` says what it accepts without the loop: the first
  occurrences of the events form a chain of well-formed events with distinct uuids, non-decreasing
  times and each link equal to the digest of the event before.
- `Ledger` says the same about the members of the decoded lines alone, and what a reported reason means.
- `Appender` is the compare-and-swap appender. Its file is a class, a call is one atomic step, and a
  run of any number of concurrent writers is a sequence of requests.
- `Enforcer` is the append-only comparison of two versions of the file, and `Repeats` says what repeated
  lines do to the readers of raw lines.
- `AuditDebt` runs any number of retriers beside other writers, with crashes and lost answers after
  any step.
- `Claims` decides which session may act on an issue and `Denials` says what each denial means. `Readings`
  says what its readers make of a written event, up to the two-phase takeover.
  `Takeover` plans two-phase takeovers. `Reaper` is the second projection of the same ledger, and
  `Projections` says what it computes and when it agrees with the first.
- `Comments` renders, recognises and binds materialized comments; `CommentMeaning` says what that means for
  the text, the command line and the fetched object.
- `Markers` and `Mirrors` write and read the marker blocks in issue and pull request bodies;
  `MirrorMeaning` spells out the written text and what is read from arbitrary ones.

**The overlay editors** change a kustomization file line by line. `PinEditor` sets the frontend pin;
`DigestRewriter` sets the backend digests and inspects them, and `OverlayLines` says which line is whose.

**Evidence and capacity.** `RecordingChain` is the length-prefixed session recording chain, `FrameFlow`
the reduction of broker logs (with `FrameLines`, which states it on the log lines), `VerifiedMap` the inheritance of stability windows between verification
runs, and `Headroom` the resource quota check before a rollout.

`Json` and `Text` hold decoded values and facts about text.

## What is assumed

- JSON decoding and encoding, SHA-256 of the canonical encoding, the reading of timestamps and of
  decimal text, and the authority table are parameters (`Replay.Env`). Encoding is never blank and
  decodes to what was encoded; a hash is 64 lowercase hexadecimal digits. UTF-8 is a parameter of
  `RecordingChain` and injective.
- Freedom from collisions is a hypothesis about the finite set of values that the ledgers at hand
  actually hash (`Chain.NoCollision`, `Appender.Unforged`, `RecordingChain.NoCollision`); no theorem
  asks for a hash that is injective on everything.
- The file lock makes each append one step. Times are integers in microseconds, so that the truncation
  in `utc_z` is visible.
- Lines of the overlay files and of the broker log are given as what the scripts' patterns make of them.
  A `Digest` line of `DigestRewriter` carries a well-formed digest.
- Object member names that a script looks up are constructors of `Json.Key`.
- In `AuditDebt`, only retriers write `DENY_RECORDED`, and every emission is guarded by the head the
  retrier last knew.

## Where the code and a stated intention differ

- The reaper's claim key joins repository, issue and session with `#` and `|`. Two repositories can share
  a key exactly when one of them reads like a claim key of the other (`Reaper.CollideIff`); repositories
  without `#` never do (`Reaper.ClaimKeyInjective`).
- The evaluator stores deadlines through `utc_z`, which drops the fraction of a second; the reaper keeps
  it. On issues held by a claim the two agree everywhere exactly at whole seconds
  (`Reaper.AgreeEverywhereIff`); at any other time some claim is stale to one and in order to the other
  (`Reaper.FractionalNowDisagrees`).
- The reaper ignores `TAKEOVER_COMMITTED`. Its book tracks exactly the sessions that claimed an issue
  themselves, each by its last own claim (`Projections.BookMeaning`), so it judges a holder by takeover by
  that claim if it still stands, and never reports one that never claimed
  (`Projections.NeverClaimedNeverReported`). When the two scripts agree on a holder, by claim or by
  takeover, is stated exactly for every ledger and time (`Projections.AgreeIff`).
- Reaping takes permission from exactly the sessions it judges overdue (`Reaper.ReapingDecisionIff`,
  `Projections.OverdueIff`): none, where the holder holds by a claim (`Reaper.ReapingChangesNoDecision`),
  and otherwise possibly a live holder whose old claim ran out
  (`Reaper.ReapingAfterTakeoverRevokesHolder`).
- Replay skips a repeated line while the claim, reaper and takeover readers fold it again. The raw events
  are the accepted ones exactly when replay counts no duplicate (`Enforcer.RawEqualsAcceptedIff`), and the
  appender never produces one (`Enforcer.ReachableHasNoDuplicates`). A file with one is still valid
  (`Repeats.RepeatedLine`), and what folding it again does to a decision is stated exactly
  (`Repeats.RepeatChangesDecisionIff`). Repeating the line of a revoked claim gives the permission back
  (`Repeats.RepeatedLineRestores`); repeated lines that do not bear on an issue leave its state alone
  (`Repeats.FoldsAgree`).
- A recording row names its session in `chainId`, which the entry hash does not cover. Equal last hashes
  mean equal rows up to that field (`RecordingChain.SameEndSameContents`); a recording relabelled to
  another session still verifies with the same last hash (`RecordingChain.RelabelledVerifies`), and the
  recordings are equal exactly when the sessions are (`RecordingChain.SameEndSameChainIff`).
- The comment above `changed_services` says that an empty list means every service. The workflow that
  calls it turns an empty inherited list into no window at all. `VerifiedMap.Scope` follows the workflow,
  which asks for less, so its theorem covers the other reading too.
- The rewriter indexes image entries of every GHCR owner, the inspector only one owner's and marked
  local ones. They round-trip exactly when, for each required service, the inspected digest line is the
  last one the rewriter attributes to it (`OverlayLines.RoundTripIff`). Other image lines are harmless when
  they are for services outside the rollout and do not interrupt a required one
  (`OverlayLines.HarmlessRoundTrips`); one more entry of another owner for a required service breaks it
  (`DigestRewriter.OtherOwnerDiverges`).
- A comment verified without `--committed-at` skips the tolerance check; whether the replay verifier then
  accepts its binding is stated exactly in `Comments.VerifiedBindingAcceptedIff`.
- The canonical JSON is sorted-key `json.dumps`; conformance to RFC 8785 is not claimed.

## Model

| member | source | states |
|---|---|---|
| `Replay.ReplayLedger` | scripts/coordination/verify-ledger-replay.py:292-354 | the loop with its early exit reports validity, both counters, the head, and the line and reason of the first refusal of the fold `Run` |
| `Replay.ValidPrefixExact` | scripts/coordination/verify-ledger-replay.py:299-336 | a refusal at line k means the k-1 lines before it replay, with exactly the reported counters and head |
| `Replay.StoppedForever` | scripts/coordination/verify-ledger-replay.py:299-336 | every extension of a refused ledger is refused at the same line for the same reason |
| `Replay.PrefixReplays` | scripts/coordination/verify-ledger-replay.py:292-354 | every prefix of a valid ledger is valid |
| `Replay.EveryLineCounted` | scripts/coordination/verify-ledger-replay.py:300-326 | on a valid ledger the two counters add up to the number of non-blank lines |
| `Replay.BlankLinesIgnored` | scripts/coordination/verify-ledger-replay.py:301-336 | blank lines change no verdict, counter, head or reason; only the number of a refused line counts them |
| `Replay.BindingMeans` | scripts/coordination/verify-ledger-replay.py:150-214 | a comment binding is accepted exactly when absent or an object with the right surface, an owner/repo, positive ids, an author, the payload's hash, equal creation and update times, and a creation within its mode's tolerance of the commit |
| `Replay.DigitsMean` | scripts/coordination/verify-ledger-replay.py:73-81 | a hash is read from exactly its 64 lowercase digits, bare or after `sha256:` |
| `Text.HexIff` | scripts/coordination/verify-ledger-replay.py:26 | which characters the digits of a hash are, one by one |
| `Ledger.WellFormedMeans` | scripts/coordination/verify-ledger-replay.py:217-289 | a well-formed event, member by member: schema, authorised type and role, payload and its hash, time, link, binding, and the hash of everything but the hash |
| `Ledger.ChainMeans` | scripts/coordination/verify-ledger-replay.py:245-289 | a chain is events in order, each naming the hash of the one before, in time order, with distinct uuids |
| `Ledger.ReplaysIff` | scripts/coordination/verify-ledger-replay.py:292-354 | replay accepts exactly the ledgers whose lines decode, consistently per uuid, into such a chain |
| `Ledger.AcceptedInOrder` | scripts/coordination/verify-ledger-replay.py:150-289 | every accepted event is in order; in particular a bound comment was never edited |
| `Ledger.ReasonIsTrue` | scripts/coordination/verify-ledger-replay.py:121-289 | the reason reported for a refused line is true of that line and of the replay so far |
| `Chain.ReplaysIffInOrder` | scripts/coordination/verify-ledger-replay.py:217-326 | replay accepts exactly the ledgers whose lines are events, equal under equal uuids, and whose first occurrences form a chain |
| `Chain.ReplayedIsChain` | scripts/coordination/verify-ledger-replay.py:292-326 | after a valid replay the loop variables are the head, last time, count and uuid table of the accepted chain |
| `Chain.ValidateExtendsChain` | scripts/coordination/verify-ledger-replay.py:217-289 | a new event is accepted exactly when it is well-formed, linked to the head and not earlier than the last event |
| `Chain.TamperEvident` | scripts/coordination/verify-ledger-replay.py:217-326 | two valid ledgers with the same head hold the same number of events and the same events up to the spelling of `event_hash` |
| `Chain.EqualHeadsEqualChains` | scripts/coordination/verify-ledger-replay.py:245-289 | walking back from equal heads, equal hashes give equal hashed content down to the null link |
| `Chain.HeadsDistinct` | scripts/coordination/verify-ledger-replay.py:245-289 | the heads of two different prefixes of one chain differ |
| `Chain.LinkedToHeadIsNew` | scripts/coordination/append-ledger-event.py:143-177 | an event linked to the current head is not already in the chain |
| `Chain.AcceptedMonotone` | scripts/coordination/verify-ledger-replay.py:307-326 | appending lines keeps the accepted events as a prefix |
| `Appender.LedgerFile.AppendEvent` | scripts/coordination/append-ledger-event.py:287-320 | the locked section leaves the file as it was or adds exactly the line of `Append`, and reports the new head and count |
| `Appender.BuiltMembers` | scripts/coordination/append-ledger-event.py:143-177 | the built event carries what the request asked for, whatever optional members it has |
| `Appender.BuiltOptional` | scripts/coordination/append-ledger-event.py:155-176 | metadata, binding, key id and signature are in the event exactly when and as they were given, and nothing else is |
| `Appender.BuiltHashes` | scripts/coordination/append-ledger-event.py:143-177 | payload hash, link and event hash, spelled out; the event hash covers everything else |
| `Appender.AppendedLine` | scripts/coordination/append-ledger-event.py:227-238 | the appended line is that event |
| `Appender.RefusalMeans` | scripts/coordination/append-ledger-event.py:119-211 | which refusal a call gets, in which order, and what it reports |
| `Appender.BuiltWellFormed` | scripts/coordination/append-ledger-event.py:143-177 | the built event is well-formed exactly when type and role are authorised and the binding is acceptable; its link is the given head |
| `Appender.BuiltIsNew` | scripts/coordination/append-ledger-event.py:143-177 | the event built on the head of a valid ledger is never one it already holds |
| `Appender.AppendAddsOne` | scripts/coordination/append-ledger-event.py:187-238 | a successful append adds exactly one accepted event, no duplicate, and its digest is the head |
| `Appender.AppendSucceedsIff` | scripts/coordination/append-ledger-event.py:119-211 | an append succeeds exactly when the guard matches, the request is authorised, the binding acceptable, the uuid fresh and the time not before the last |
| `Appender.GuardMeansUnchanged` | scripts/coordination/append-ledger-event.py:134-141 | if an append guarded by an earlier version's head succeeds, no event was added since |
| `Appender.HeadNeverReturns` | scripts/coordination/append-ledger-event.py:134-177 | in any interleaving a head on which an append succeeded is never the head again |
| `Appender.CasWinsOnce` | scripts/coordination/append-ledger-event.py:134-141 | at most one append ever succeeds per expected previous hash |
| `Appender.EventsCountSuccesses` | scripts/coordination/append-ledger-event.py:287-320 | over any run the event count grows by one per success and duplicates never |
| `Enforcer.Compare` | scripts/coordination/enforce-append-only-ledger.py:40-105 | accepts exactly when both versions replay and the old non-blank lines begin the new ones; a mismatch names the first differing line |
| `Enforcer.AppendOnlyTransitive` | scripts/coordination/enforce-append-only-ledger.py:64-88 | acceptance is transitive |
| `Enforcer.AppendOnlyKeepsEvents` | scripts/coordination/enforce-append-only-ledger.py:64-88 | acceptance keeps every old accepted event in place |
| `Enforcer.AppenderIsAppendOnly` | scripts/coordination/append-ledger-event.py:227-238 | every version the appender produces is accepted against every earlier one |
| `Enforcer.RawEqualsAcceptedIff` | scripts/coordination/ledger-claim-state.py:87-97 | the events of the raw lines are the accepted events exactly when replay counts no duplicate |
| `Enforcer.ReachableHasNoDuplicates` | scripts/coordination/append-ledger-event.py:180-238 | every ledger grown from nothing by the appender has no duplicate line, so all readers see the same events |
| `Repeats.RepeatedLine` | scripts/coordination/verify-ledger-replay.py:310-318 | repeating any line of a valid ledger keeps it valid, adds one duplicate and no accepted event, and one raw event |
| `Repeats.DecisionAfter` | scripts/coordination/ledger-claim-state.py:108-261 | exactly what one more event does to a decision: a grant decides anew, a withdrawal denies, a heartbeat renews, anything else leaves it |
| `Repeats.RepeatChangesDecisionIff` | scripts/coordination/ledger-claim-state.py:87-222 | folding an event again changes a decision exactly when it is a grant or heartbeat that decides otherwise or a withdrawal from an allowed session |
| `Repeats.RepeatedLineRestores` | scripts/coordination/ledger-claim-state.py:87-147 | repeating the line of a claim that is still in time leaves the accepted events alone and makes the evaluator allow its session, whatever withdrew it |
| `Repeats.ClaimRevokedClaimed` | scripts/coordination/ledger-claim-state.py:130-173 | claim and revocation deny, the claim once more allows |
| `Repeats.FoldsAgree` | scripts/coordination/ledger-claim-state.py:87-222 | where every repeated line is inert for an issue, raw lines and accepted events fold to the same state |
| `AuditDebt.TerminalIds` | scripts/coordination/retry-audit-debt.py:152-162 | exactly the ids that terminal markers settle |
| `AuditDebt.RetryableMeans` | scripts/coordination/retry-audit-debt.py:72-130 | a retried record is a blocked one of a disallowed intent with a hash id, code, session, operation and owner/repo#number |
| `AuditDebt.SettledMeans` | scripts/coordination/retry-audit-debt.py:152-162 | what settles an id, and which ledger events record one |
| `AuditDebt.PendingIds` | scripts/coordination/retry-audit-debt.py:165-183 | exactly the retryable, unsettled ids, each once, in the order in which the queue first mentions them |
| `AuditDebt.RecordedIds` | scripts/coordination/retry-audit-debt.py:186-230 | exactly the ids the ledger already records |
| `AuditDebt.ActionableIsNew` | scripts/coordination/retry-audit-debt.py:269-286 | the plan is the pending ids that the ledger does not record, each once |
| `AuditDebt.CheckoutSplits` | scripts/coordination/retry-audit-debt.py:364-372 | every pending id is either emitted or, exactly if an accepted event records it, marked as already recorded |
| `AuditDebt.EmissionIsFirst` | scripts/coordination/retry-audit-debt.py:359-427 | an emission that succeeds records an id that was not recorded |
| `AuditDebt.StepKeepsInv` | scripts/coordination/retry-audit-debt.py:359-427 | every step of every retrier or other writer keeps the ledger valid, each id at most once, and each retrier informed |
| `AuditDebt.DenialsRecordedAtMostOnce` | scripts/coordination/retry-audit-debt.py:186-427 | across every interleaving with crashes and lost answers the ledger records each denial at most once, and each id the run marks as terminal is recorded |
| `AuditDebt.SettledMeansRecorded` | scripts/coordination/retry-audit-debt.py:233-266 | from queues without false markers every id ever marked as terminal is recorded exactly once, so none is settled and lost |
| `Claims.CurrentIssueState` | scripts/coordination/ledger-claim-state.py:108-222 | the loop computes the fold of the claim state machine, or raises where it does |
| `Readings.KindMeans` | scripts/coordination/ledger-claim-state.py:128-211 | which event types the evaluator acts on, and as what |
| `Readings.ReadNames` | scripts/coordination/ledger-claim-state.py:58-97 | repository, issue, session, old and new session are read from their own members, with the fallbacks |
| `Readings.ReadTerms` | scripts/coordination/ledger-claim-state.py:130-148 | time, lease, interval and grace are read from their own members, with the defaults of 30 and 45 minutes |
| `Readings.ClaimGrants` | scripts/coordination/ledger-claim-state.py:130-148 | a written claim grants the issue to its session |
| `Readings.CommitGrants` | scripts/coordination/ledger-claim-state.py:190-209 | a written commit grants the issue to the new session |
| `Readings.HeartbeatBeats` | scripts/coordination/ledger-claim-state.py:149-154 | a written heartbeat is a sign of life of its session and grants nothing |
| `Readings.RevocationWithdraws` | scripts/coordination/ledger-claim-state.py:155-173 | a written revocation withdraws from the session it names, or from everybody |
| `Readings.AcceptanceWithdraws` | scripts/coordination/ledger-claim-state.py:175-188 | a written acceptance withdraws from exactly the old and the new session |
| `Readings.ClosureWithdraws` | scripts/coordination/ledger-claim-state.py:211-220 | a tombstone or supersede event withdraws from everybody |
| `Readings.InTimeMeans` | scripts/coordination/ledger-claim-state.py:241-261 | in time means before the lease, dropped to a second, and within interval plus grace of the last sign of life |
| `Readings.CommitPermitsTaker` | scripts/coordination/ledger-claim-state.py:190-261 | after a written commit exactly the taker may act, as long as its terms last and nothing takes the issue away |
| `Readings.TwoPhases` | scripts/coordination/ledger-claim-state.py:175-261 | between acceptance and commit neither session may act, and after the commit the taker and nobody else |
| `Claims.FoldMeaning` | scripts/coordination/ledger-claim-state.py:108-222 | an active state describes the last unwithdrawn grant and the last sign of life since; any other state means nobody holds the issue |
| `Claims.AllowedIffMayAct` | scripts/coordination/ledger-claim-state.py:108-261 | a session is allowed exactly when the last grant names it, nothing withdrew it, its lease runs and its last sign of life is recent |
| `Claims.RaisesIffUnreadableGrant` | scripts/coordination/ledger-claim-state.py:130-209 | the fold raises exactly when some grant of the issue has an unreadable lease or heartbeat setting |
| `Claims.PermissionOnlyRunsOut` | scripts/coordination/ledger-claim-state.py:225-261 | permission is downward closed in time and belongs to one session |
| `Denials.ActiveMeans` | scripts/coordination/ledger-claim-state.py:108-222 | the active session of the state is the last one granted that no closure or accepted takeover has cleared |
| `Denials.StandingIff` | scripts/coordination/ledger-claim-state.py:108-222 | the standing of an issue is what the last event that moved it made it, and none if nothing did |
| `Denials.DenialMeans` | scripts/coordination/ledger-claim-state.py:225-261 | each of the seven deny codes is given exactly in the ledger situation it names |
| `Takeover.LatestTakeover` | scripts/coordination/takeover-recovery-flow.py:130-140 | returns the last takeover event of the pair, or nothing when there is none |
| `Takeover.LatestClaim` | scripts/coordination/takeover-recovery-flow.py:116-127 | returns the last claim of the session on the issue, or nothing when there is none |
| `Takeover.PlanAccept` | scripts/coordination/takeover-recovery-flow.py:183-206 | plans exactly when the old session has a claim and the pair's last takeover event is absent or a rejection |
| `Takeover.PlanCommit` | scripts/coordination/takeover-recovery-flow.py:153-238 | plans exactly when the pair's last takeover event is an acceptance and the mirrors are verified for the pair |
| `Readings.TouchesMeans` | scripts/coordination/takeover-recovery-flow.py:98-140 | the planner recognises exactly the three types naming its repository, issue and both sessions in their places |
| `Readings.ClaimsForMeans` | scripts/coordination/takeover-recovery-flow.py:116-127 | what the planner takes for a claim of the session |
| `Readings.PlanMovesOn` | scripts/coordination/takeover-recovery-flow.py:183-238 | after an acceptance only a commit can be planned, after a commit neither, after a rejection an acceptance again |
| `Readings.MirrorsMean` | scripts/coordination/takeover-recovery-flow.py:153-167 | mirrors are verified exactly when all three flags are true and the evidence names the takeover and a readable time |
| `Takeover.CommitFollowsAccept` | scripts/coordination/takeover-recovery-flow.py:209-238 | every commit directly follows an acceptance of its pair |
| `Takeover.AcceptFollowsReject` | scripts/coordination/takeover-recovery-flow.py:183-206 | a later acceptance directly follows a rejection |
| `Takeover.CommitsAreSeparated` | scripts/coordination/takeover-recovery-flow.py:183-238 | between two commits of a pair lie a rejection and a fresh acceptance |
| `Takeover.PendingBlocks` | scripts/coordination/ledger-claim-state.py:175-188 | from an acceptance naming a session to the next grant to it the evaluator denies it at every time |
| `Takeover.NeitherActsWhilePending` | scripts/coordination/ledger-claim-state.py:175-209 | while a planned acceptance is pending neither old nor new session may act |
| `Takeover.PlanStillHolds` | scripts/coordination/takeover-recovery-flow.py:183-238 | a plan appended on the head it was made on is still right about the events before it |
| `Takeover.DisciplinedRunIsPlanned` | scripts/coordination/takeover-recovery-flow.py:183-238 | from any valid ledger obeying the two-phase discipline, any interleaving of such plans yields one that obeys it |
| `Reaper.DeriveClaims` | scripts/coordination/reap-ledger-state.py:142-194 | the loop computes the book of claims by key, whose meaning is the next row |
| `Readings.ReaperReads` | scripts/coordination/reap-ledger-state.py:79-163 | what the reaper reads from each member, with its own fallbacks |
| `Projections.BookMeaning` | scripts/coordination/reap-ledger-state.py:142-194 | the book has an entry for exactly the sessions that claimed the issue themselves, with the terms of the last own claim, the last own heartbeat since it and whether a revocation named the session since |
| `Projections.OverdueIff` | scripts/coordination/reap-ledger-state.py:165-229 | a session is judged overdue exactly when its last own claim, not revoked since, has run out of lease or of signs of life |
| `Projections.NeverClaimedNeverReported` | scripts/coordination/reap-ledger-state.py:165-229 | a session that never claimed the issue itself is never reported, on any ledger at any time |
| `Projections.AgreeIff` | scripts/coordination/reap-ledger-state.py:165-229 | on every holder, by claim or takeover, at every time, the scripts agree exactly when its standing own claim and its grant come to the same outcome, or, with no standing claim, when it is in time |
| `Projections.TakeoverHolderAgreesIff` | scripts/coordination/reap-ledger-state.py:165-229 | on a holder that never claimed the issue itself they agree exactly as long as it may act |
| `Projections.HolderByClaimStands` | scripts/coordination/reap-ledger-state.py:165-194 | a holder by claim holds by the claim and sign of life the reaper judges |
| `Reaper.DetectStaleClaims` | scripts/coordination/reap-ledger-state.py:206-229 | lists the finding of each overdue entry in order |
| `Reaper.CollideIff` | scripts/coordination/reap-ledger-state.py:87-88 | two different repositories can share a claim key exactly when one reads like a claim key of the other |
| `Reaper.KeysOfOneRepo` | scripts/coordination/reap-ledger-state.py:87-88 | within one repository a key determines issue and session |
| `Reaper.ClaimKeyInjective` | scripts/coordination/reap-ledger-state.py:87-88 | in particular keys of repositories without `#` determine everything |
| `Reaper.TidyLedgerReadsTheSame` | scripts/coordination/reap-ledger-state.py:123-163 | on events with well-typed members both scripts read the same claim, heartbeat and revocation data |
| `Reaper.ProjectionsAgree` | scripts/coordination/reap-ledger-state.py:165-229 | at whole seconds, for a holder by claim, the evaluator denies as expired or stale exactly when the reaper reports the same, and allows exactly when it reports nothing |
| `Reaper.AgreeEverywhereIff` | scripts/coordination/ledger-claim-state.py:52-55 | the projections agree on every ledger held by a claim exactly at whole seconds |
| `Reaper.ReportedHolderIsDenied` | scripts/coordination/reap-ledger-state.py:206-229 | at any time the reaper reports a holder by claim only when the evaluator denies it |
| `Reaper.FractionalNowDisagrees` | scripts/coordination/ledger-claim-state.py:52-55 | at every time with a fraction of a second some claim is stale to the evaluator and in order to the reaper |
| `Reaper.FindingsExact` | scripts/coordination/reap-ledger-state.py:206-229 | there is a finding for exactly the entries judged overdue |
| `Reaper.FindingReadBack` | scripts/coordination/reap-ledger-state.py:197-203 | an appended finding is read by both scripts as a revocation of the session it names |
| `Reaper.ReapingSettles` | scripts/coordination/reap-ledger-state.py:165-229 | after appending all findings none is left at that time |
| `Reaper.ReapingDecisionIff` | scripts/coordination/reap-ledger-state.py:165-229 | after appending all findings a session is allowed exactly when it was allowed before and not judged overdue, at every time and however the scripts read the ledger |
| `Reaper.ReapingChangesNoDecision` | scripts/coordination/reap-ledger-state.py:165-229 | where the holder of an issue, if any, holds by a claim, appending all findings changes no decision about it at any time |
| `Reaper.ActiveByClaim` | scripts/coordination/ledger-claim-state.py:130-209 | without committed takeovers every holder holds by a claim |
| `Reaper.ReapingAfterTakeoverRevokesHolder` | scripts/coordination/reap-ledger-state.py:165-194 | at every time a session that regained its issue by takeover is allowed until the finding on its old claim is appended |
| `Comments.RenderedReadsBack` | scripts/coordination/materialize-ledger-comment.py:97-149 | a rendered body reads back as exactly the rendered fields |
| `CommentMeaning.RenderedText` | scripts/coordination/materialize-ledger-comment.py:97-124 | the whole text of a rendered body, line by line |
| `CommentMeaning.RepoIff` | scripts/coordination/materialize-ledger-comment.py:29 | exactly which repositories the pattern lets through, by owner and name |
| `CommentMeaning.RenderedIff` | scripts/coordination/materialize-ledger-comment.py:97-101 | a body is rendered exactly for a safe repository, a known mode and a readable hash |
| `CommentMeaning.MatchesIff` | scripts/coordination/materialize-ledger-comment.py:152-167 | a marker matches a command line exactly when it shows its seven fields |
| `CommentMeaning.VerifiedIff` | scripts/coordination/materialize-ledger-comment.py:170-207 | a comment is verified exactly when its marker matches and its ids, author, equal times, mode and distance to the commit are in order |
| `CommentMeaning.RenderedVerifiesIff` | scripts/coordination/materialize-ledger-comment.py:97-207 | a rendered comment verifies against exactly the command lines with the same seven fields, if the fetched object is in order |
| `CommentMeaning.BindingSays` | scripts/coordination/materialize-ledger-comment.py:208-222 | what every member of the binding says, and where it comes from |
| `Comments.RenderedMatchesIff` | scripts/coordination/materialize-ledger-comment.py:97-167 | of all command lines exactly those with the same seven fields, the hash in either spelling, accept a rendered body |
| `Comments.VerifiedBindingAcceptedIff` | scripts/coordination/materialize-ledger-comment.py:170-222 | the binding of a verified comment passes the replay verifier's check exactly for the named payload and times within the tolerance |
| `Comments.VerifiedCommentAppends` | scripts/coordination/append-ledger-event.py:143-211 | an authorised, fresh, timely event with the binding of a comment verified for it is always appended |
| `Markers.ReadFields` | scripts/coordination/apply-ledger-mirrors.py:124-132 | the loop over the stripped lines of a block computes their dictionary or refuses |
| `Markers.ParseKeyBlock` | scripts/coordination/apply-ledger-mirrors.py:115-133 | finds the first block and its fields, or reports its absence, an open block or a bad line |
| `MirrorMeaning.StripMeans` | scripts/coordination/apply-ledger-mirrors.py:122-126 | stripping removes space at both ends and nothing else |
| `MirrorMeaning.ReadLineMeans` | scripts/coordination/apply-ledger-mirrors.py:125-132 | a line is skipped when blank, refused without a colon, and split at the first one |
| `MirrorMeaning.FieldsMean` | scripts/coordination/apply-ledger-mirrors.py:123-132 | a block is refused exactly for a refused line, and each key has the value its last line sets |
| `Markers.ReadBack` | scripts/coordination/apply-ledger-mirrors.py:126-132 | a written line is read back as its key and its value, blank values included |
| `Markers.FieldsOfStripped` | scripts/coordination/apply-ledger-mirrors.py:122-132 | stripping the block's text changes nothing its reader sees |
| `Markers.BlockReadBack` | scripts/coordination/apply-ledger-mirrors.py:115-145 | a block of clean fields, anywhere in a text, closes where it was closed and reads back as what was written |
| `Mirrors.Rewritten` | scripts/coordination/apply-ledger-mirrors.py:148-164 | replacing a block keeps every character outside it, is found at the same start and reads back as the new fields |
| `MirrorMeaning.IssueUpdateIff` | scripts/coordination/apply-ledger-mirrors.py:136-164 | exactly when an arbitrary issue body is updated, and the text it becomes |
| `MirrorMeaning.PrUpdateIff` | scripts/coordination/apply-ledger-mirrors.py:167-204 | exactly when an arbitrary pull request body is updated, and the text it becomes |
| `MirrorMeaning.ValidatorIff` | scripts/coordination/validate-pr-mirrors.py:79-100 | exactly what the validator accepts of an arbitrary body, and what it reads |
| `Mirrors.IssueUpdateReadBack` | scripts/coordination/apply-ledger-mirrors.py:136-164 | an updated issue body carries exactly the written values, with the same text around the block |
| `Mirrors.NextIssueUpdate` | scripts/coordination/apply-ledger-mirrors.py:148-164 | the next issue update succeeds exactly when it is complete and expects what was written |
| `Mirrors.Appended` | scripts/coordination/apply-ledger-mirrors.py:191-194 | a block appended to a body without one is the first found and reads back as written |
| `Mirrors.PrUpdateReadBack` | scripts/coordination/apply-ledger-mirrors.py:167-204 | an updated pull request body carries exactly the written values with the labelled hash, replaced or appended |
| `Mirrors.NextPrUpdate` | scripts/coordination/apply-ledger-mirrors.py:181-204 | the next pull request update succeeds exactly when it is complete and expects what was written, the hash in either spelling |
| `Mirrors.ValidatorReadsBack` | scripts/coordination/validate-pr-mirrors.py:79-100 | the validator reads exactly what the mirror writer wrote and refuses only blank values |
| `PinEditor.InspectLines` | scripts/automation/test-overlay-frontend-image.py:80-144 | the scans for the entry, its end and its fields compute the inspection |
| `PinEditor.InspectedIff` | scripts/automation/test-overlay-frontend-image.py:80-144 | exactly which files pass inspection, and which values and places are found |
| `PinEditor.RequestMeans` | scripts/automation/test-overlay-frontend-image.py:186-200 | a proper request is a commit, the names derived from it, the canonical image and a digest |
| `PinEditor.LookupMeans` | scripts/automation/test-overlay-frontend-image.py:72-77 | a search reports none, exactly one and where, or several |
| `PinEditor.Kustomization.ApplyPin` | scripts/automation/test-overlay-frontend-image.py:203-257 | the file changes to the edited lines only on success without `--check`; reports what changed |
| `PinEditor.ApplySucceeds` | scripts/automation/test-overlay-frontend-image.py:186-257 | for every inspectable file and proper request no re-inspection fails, the result carries exactly the requested revision, tag and digest at the places that follow, only managed lines of the entry differ, lines already as requested stay the same to the character, and a missing revision or tag line goes right above the tag or digest line |
| `PinEditor.ApplyTwice` | scripts/automation/test-overlay-frontend-image.py:203-257 | a second application changes nothing and reports no change |
| `DigestRewriter.IndexDigestLines` | scripts/automation/apply-test-overlay-digests.py:117-139 | the loop computes the digest line of each service, whose meaning is the next row |
| `OverlayLines.PlacesMeaning` | scripts/automation/apply-test-overlay-digests.py:117-139 | a service is indexed exactly when a digest line follows one of its GHCR image lines with no entry, GHCR image or digest line between, and then at the last such line |
| `OverlayLines.OneService` | scripts/automation/apply-test-overlay-digests.py:117-139 | a digest line belongs to one service only, so none is attributed across entries |
| `DigestRewriter.PlacesSound` | scripts/automation/apply-test-overlay-digests.py:117-139 | every indexed place is a digest line and no two services share one |
| `DigestRewriter.Overlay.Apply` | scripts/automation/apply-test-overlay-digests.py:142-219 | succeeds exactly on maps in scope with proper digests and known services, writes exactly their digests, reports exactly how many differed, and writes nothing on any error or with `--check` |
| `DigestRewriter.Rewrite` | scripts/automation/apply-test-overlay-digests.py:164-188 | the loop, in any order of services, patches exactly the lines of the map or reports an inconsistency; no change means the same lines |
| `DigestRewriter.ReindexedDigests` | scripts/automation/apply-test-overlay-digests.py:117-188 | re-indexing gives the old index overridden by the map |
| `DigestRewriter.AppliedTwice` | scripts/automation/apply-test-overlay-digests.py:164-188 | a second application changes nothing and has nothing to report |
| `DigestRewriter.Inspect` | scripts/automation/backend-testai-digest-contract.py:107-161 | the loop computes the inspected map or the first refusal, whose condition is the next row |
| `OverlayLines.InspectedIff` | scripts/automation/backend-testai-digest-contract.py:107-161 | an overlay passes exactly when every required local image has its exception marker above it in the same entry and every required service exactly one digest line, and then returns those digests |
| `OverlayLines.ScanMeaning` | scripts/automation/backend-testai-digest-contract.py:111-153 | the scan fails exactly on an unmarked required local image or a second digest line, and its state says what is open, marked and found |
| `DigestRewriter.InspectAfterApply` | scripts/automation/backend-testai-digest-contract.py:107-161 | rewriting keeps inspectability, and where both scripts mean the same lines inspection returns the applied full map |
| `DigestRewriter.RoundTripIffSamePlaces` | scripts/automation/backend-testai-digest-contract.py:107-161 | inspection returns every applied full map exactly when both scripts mean the same lines |
| `DigestRewriter.CanonicalSamePlaces` | scripts/automation/backend-testai-digest-contract.py:35-56 | with only canonical GHCR image lines they do |
| `OverlayLines.RoundTripIff` | scripts/automation/backend-testai-digest-contract.py:107-161 | inspection returns every applied full map exactly when each required service's inspected digest line is the last one the rewriter attributes to it |
| `OverlayLines.HarmlessRoundTrips` | scripts/automation/backend-testai-digest-contract.py:35-56 | image lines only one reader knows do no harm outside the rollout and outside the entries of required services |
| `DigestRewriter.OtherOwnerDiverges` | scripts/automation/apply-test-overlay-digests.py:62-70 | behind any inspectable overlay an entry of another owner leaves inspection alone and moves the line the rewriter edits |
| `DigestRewriter.Normalize` | scripts/automation/backend-testai-digest-contract.py:78-104 | accepts exactly the full envelopes of proper digests and returns their required part |
| `RecordingChain.BigEndianRoundTrip` | scripts/faz22-remote-ops/build-view-only-viewer-termination-audit.py:50-52 | the four-byte length prefix determines the length |
| `RecordingChain.PackedInjective` | scripts/faz22-remote-ops/build-view-only-viewer-termination-audit.py:50-64 | the length-prefixed encoding of equally many fields under 2^32 bytes is injective |
| `RecordingChain.VerifyRecordingChain` | scripts/faz22-remote-ops/build-view-only-viewer-termination-audit.py:86-99 | the loop accepts exactly the chains all of whose rows pass on the hash of the row before |
| `RecordingChain.VerifiedIff` | scripts/faz22-remote-ops/build-view-only-viewer-termination-audit.py:86-99 | exactly which chains are verified, row by row |
| `RecordingChain.PackedIs` | scripts/faz22-remote-ops/build-view-only-viewer-termination-audit.py:50-64 | the hashed bytes: six texts in order, each behind the four bytes of its length |
| `RecordingChain.LoadRecordingRows` | scripts/faz22-remote-ops/build-view-only-viewer-termination-audit.py:67-83 | the loop returns the rows exactly when there are some and each names the session |
| `RecordingChain.SameEndSameContents` | scripts/faz22-remote-ops/build-view-only-viewer-termination-audit.py:50-99 | two verified chains with the same last entry hash are equal row by row up to the session they name |
| `RecordingChain.RelabelledVerifies` | scripts/faz22-remote-ops/build-view-only-viewer-termination-audit.py:55-64 | a verified recording relabelled to another session verifies and loads for it with the same last hash |
| `RecordingChain.SameEndSameChainIff` | scripts/faz22-remote-ops/build-view-only-viewer-termination-audit.py:67-99 | recordings loaded for two sessions with the same last hash are equal exactly when the sessions are |
| `FrameFlow.Build` | scripts/faz22-remote-ops/build-view-only-viewer-frame-flow-summary.py:22-83 | both loops together compute the reduction |
| `FrameLines.SessionIff` | scripts/faz22-remote-ops/build-view-only-viewer-frame-flow-summary.py:23 | exactly which session ids the pattern and the length let through |
| `FrameLines.SummarizedIff` | scripts/faz22-remote-ops/build-view-only-viewer-frame-flow-summary.py:22-69 | exactly which logs have a summary, said about their lines |
| `FrameLines.SummaryCounts` | scripts/faz22-remote-ops/build-view-only-viewer-frame-flow-summary.py:45-83 | the counts are the numbers of distinct frames and of those delivered and dropped by name, and the gaps those missing |
| `FrameLines.SummaryTimes` | scripts/faz22-remote-ops/build-view-only-viewer-frame-flow-summary.py:45-83 | the times are those of the first and last frame and the earliest and latest delivered by name |
| `FrameFlow.CollectMeans` | scripts/faz22-remote-ops/build-view-only-viewer-frame-flow-summary.py:27-43 | the collected dictionary holds exactly what the lines show, and the loop fails exactly when no such dictionary exists |
| `FrameFlow.SameLinesSameSequences` | scripts/faz22-remote-ops/build-view-only-viewer-frame-flow-summary.py:27-43 | only the set of lines matters to it |
| `FrameFlow.PermutationInvariant` | scripts/faz22-remote-ops/build-view-only-viewer-frame-flow-summary.py:22-83 | acceptance and summary are the same for every permutation of the log |
| `FrameFlow.Pigeonhole` | scripts/faz22-remote-ops/build-view-only-viewer-frame-flow-summary.py:60-65 | distinct sequence numbers below n are at most n many |
| `FrameFlow.AcceptedIff` | scripts/faz22-remote-ops/build-view-only-viewer-frame-flow-summary.py:44-69 | exactly which collected sequences are accepted; the negative-gap check never fires |
| `FrameFlow.ReducedFaithful` | scripts/faz22-remote-ops/build-view-only-viewer-audit-summary.py:168-176 | every summary satisfies the later readers' gap equation, disposition sum and timestamp order, counts exactly the delivered frames, and names the true first and last delivery |
| `VerifiedMap.LatestVerified` | scripts/automation/testai-last-verified-map.py:73-104 | returns the first usable evidence of the listing, and nothing only when there is none |
| `VerifiedMap.EvidenceMeans` | scripts/automation/testai-last-verified-map.py:52-104 | usable evidence is an unexpired acceptance artifact whose two reports passed, with digests only and a full revision |
| `VerifiedMap.ScopeIff` | scripts/automation/testai-last-verified-map.py:45-49 | exactly which services a run owes a window |
| `VerifiedMap.Inherited` | scripts/automation/testai-last-verified-map.py:45-49 | a service skipped by a passing run has its digest in inheritable evidence |
| `VerifiedMap.EveryPassIsCovered` | scripts/automation/testai-last-verified-map.py:45-104 | over every history each service and digest of each PASS map had a window in that run or an earlier passing one under the same verifier contract |
| `Headroom.EffectivePod` | scripts/deploy/check-testai-frontend-rollout-headroom.py:143-173 | the init-container loop computes, per metric, the maximum over all startup phases plus overhead |
| `Headroom.RoundedToPods` | scripts/deploy/check-testai-frontend-rollout-headroom.py:86-109 | a percentage resolves to the nearest whole number of pods above or below, and is refused exactly when that is negative |
| `Headroom.WholePods` | scripts/deploy/check-testai-frontend-rollout-headroom.py:86-109 | a whole number of pods is itself and refused exactly when negative |
| `Headroom.FitsMeans` | scripts/deploy/check-testai-frontend-rollout-headroom.py:218-245 | pods need the surge, a resource the surge times what a pod needs |
| `Headroom.Evaluate` | scripts/deploy/check-testai-frontend-rollout-headroom.py:185-279 | raises exactly on improper deployments or incomplete quotas, and passes exactly when used plus surge times per-pod fits both hard limits for every metric |
| `Headroom.FitsIffEverySchedule` | scripts/deploy/check-testai-frontend-rollout-headroom.py:225-252 | a metric fits exactly when no schedule of the surge pods, each in any startup phase, exceeds the limit |

## Left out

- Subprocesses, `gh`, `git`, `kubectl`, HTTP, archives, file locks, fsync, temporary files and partial writes.
- A ledger file that does not exist: the appender's is the empty ledger, the verifier's own refusal of it is not modelled.
- JSON text, UTF-8, SHA-256, timestamp syntax and regular expressions, including `$` before a final newline.
- The uuid5 derivation, the fields of terminal markers beyond the id, and progress of the audit-debt queue beyond its limit.
- `source_event_uuid`, reason texts and other fields that only travel into reports.
- Object sharing between dictionary entries of the reaper; its book is a map that is replaced entry by entry.
- Mirror findings, audit-debt summary and invalid-suffix report of the reaper.
- The recovery phase and the owner approval of the takeover flow.
- `project_mutations`, `apply_or_plan` and `validate_one`: chains of independent checks without a law across them.
- `None` as the `expected` object of a mirror plan; expected values are a map.
- The `--fail-on-change` exit code of the digest rewriter and the rollout patch inspection of the pin tool.
- `verify_chain` and the counter checks of the view-only audit summary beyond the timestamp order.
- The `rawLogSha256` field of the frame-flow summary, which does depend on the order of lines.
- Quantity parsing and display rounding of the headroom check; arithmetic is exact.
- `AuditDebt.DenialsRecordedAtMostOnce`: assumes that no other writer emits `DENY_RECORDED`, because nothing in the scripts prevents one.
- `Reaper.ProjectionsAgree`: is the case of whole seconds and grants by claim; `Reaper.AgreeEverywhereIff` shows that the fraction matters and `Projections.AgreeIff` has the condition for every grant and time.
- Recording rows and reaper inputs with members of unexpected JSON types, such as a `seq` of `true`.
- Standards-lock checks, drift detection and schema validation: long lists of constant comparisons.
- Tombstone planning and secret scanning: single-branch planners; the effect of tombstones is in `Claims`.
