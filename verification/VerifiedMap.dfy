/** Which services still owe a stability window (scripts/automation/testai-last-verified-map.py)
    and what that rule guarantees over whole histories of verification runs.

    The listing of runs and their artifacts is what was fetched; an archive that is unreadable
    or lacks one of the two reports has no content. */
module VerifiedMap {
  import opened Json
  import opened Text

  type Digests = map<string, string>

  datatype RuntimeReport = RuntimeReport(schemaVersion: string, verdict: string, digests: Option<Digests>)

  datatype ReconcileReport = ReconcileReport(verdict: string, revision: Option<string>)

  datatype Artifact = Artifact(name: string, expired: bool, content: Option<(RuntimeReport, ReconcileReport)>)

  const REPORT_SCHEMA := "testai-backend-runtime-verification-v1"
  const ARTIFACT_PREFIX := "testai-backend-acceptance-"

  /** The map a passing report certifies; no digests, or one without the prefix, certify nothing. */
  function VerifiedMapFromReport(report: RuntimeReport): Option<Digests> {
    if report.schemaVersion != REPORT_SCHEMA || report.verdict != "PASS" then None
    else if report.digests.None? || report.digests.value == map[] then None
    else if exists s :: s in report.digests.value && !("sha256:" <= report.digests.value[s]) then None
    else report.digests
  }

  function VerifiedRevisionFromReport(report: ReconcileReport): Option<string> {
    if report.verdict == "PASS" && report.revision.Some? && IsHex(report.revision.value, 40)
    then report.revision else None
  }

  datatype Evidence = Evidence(digests: Digests, revision: string)

  function EvidenceOf(a: Artifact): Option<Evidence> {
    if !(ARTIFACT_PREFIX <= a.name) || a.expired || a.content.None? then None
    else
      match (VerifiedMapFromReport(a.content.value.0), VerifiedRevisionFromReport(a.content.value.1))
      case (Some(digests), Some(revision)) => Some(Evidence(digests, revision))
      case _ => None
  }

  /** What usable evidence is: an unexpired acceptance artifact whose runtime report passed with
      digests only, and whose convergence report passed for a full revision. */
  lemma EvidenceMeans(a: Artifact, e: Evidence)
    ensures EvidenceOf(a) == Some(e) <==>
            && "testai-backend-acceptance-" <= a.name && !a.expired && a.content.Some?
            && var runtime, reconcile := a.content.value.0, a.content.value.1;
               && runtime.schemaVersion == "testai-backend-runtime-verification-v1" && runtime.verdict == "PASS"
               && runtime.digests == Some(e.digests) && e.digests != map[]
               && (forall s :: s in e.digests ==> "sha256:" <= e.digests[s])
               && reconcile.verdict == "PASS" && reconcile.revision == Some(e.revision) && IsHex(e.revision, 40)
  {
  }

  ghost predicate NoneUsable(artifacts: seq<Artifact>) {
    forall i :: 0 <= i < |artifacts| ==> EvidenceOf(artifacts[i]).None?
  }

  /** The evidence of artifact `j` of run `i`, before which nothing in the listing is usable. */
  ghost predicate FirstEvidence(listing: seq<seq<Artifact>>, i: nat, j: nat, e: Evidence) {
    && i < |listing| && j < |listing[i]|
    && EvidenceOf(listing[i][j]) == Some(e)
    && NoneUsable(listing[i][..j])
    && forall k :: 0 <= k < i ==> NoneUsable(listing[k])
  }

  /** The first usable evidence of the listing, and none only when there is none. */
  ghost predicate Selects(listing: seq<seq<Artifact>>, r: Option<Evidence>) {
    match r
    case None => forall i :: 0 <= i < |listing| ==> NoneUsable(listing[i])
    case Some(e) => exists i, j :: FirstEvidence(listing, i, j, e)
  }

  method LatestVerified(listing: seq<seq<Artifact>>) returns (r: Option<Evidence>)
    ensures Selects(listing, r)
  {
    for i := 0 to |listing|
      invariant forall k :: 0 <= k < i ==> NoneUsable(listing[k])
    {
      for j := 0 to |listing[i]|
        invariant NoneUsable(listing[i][..j])
      {
        var e := EvidenceOf(listing[i][j]);
        if e.Some? {
          assert FirstEvidence(listing, i, j, e.value);
          return e;
        }
      }
      assert listing[i][..|listing[i]|] == listing[i];
    }
    return None;
  }

  // ----- changed_services and the scope of a run

  /** Services whose digest the verified map does not already have. */
  function ChangedServices(current: Digests, verified: Option<Digests>, contractChanged: bool): set<string> {
    if contractChanged || verified.None? then {}
    else set s | s in current && !(s in verified.value && verified.value[s] == current[s])
  }

  /** The services a run must put through a window.  Only evidence from a revision with the same
      verifier contract is inherited; without it the scope is every service. */
  function Scope(current: Digests, evidence: Option<Evidence>, contractChanged: bool, sameContract: string -> bool)
    : set<string>
  {
    if !contractChanged && evidence.Some? && sameContract(evidence.value.revision)
    then ChangedServices(current, Some(evidence.value.digests), contractChanged)
    else current.Keys
  }

  /** Exactly what a run owes: everything, unless it has evidence of the same contract and the push
      changed none; then the services whose digest the evidence does not have. */
  lemma ScopeIff(current: Digests, evidence: Option<Evidence>, contractChanged: bool, sameContract: string -> bool,
                 s: string)
    ensures s in Scope(current, evidence, contractChanged, sameContract) <==>
            && s in current
            && (|| contractChanged || evidence.None? || !sameContract(evidence.value.revision)
                || s !in evidence.value.digests || evidence.value.digests[s] != current[s])
  {
  }

  // ----- histories of runs

  /** One verification run: the listing it fetched, the evidence it took from it (none when the
      fetch failed), the services it put through a window, and whether it published its map as
      PASS.  A failed or superseded run publishes nothing, and may have run any part of its
      windows. */
  datatype Run = Run(
    revision: string,
    current: Digests,
    contractChanged: bool,
    listing: seq<seq<Artifact>>,
    evidence: Option<Evidence>,
    windows: set<string>,
    passed: bool)

  /** The evidence was published by an earlier passing run, under a revision with its contract. */
  ghost predicate Published(h: seq<Run>, n: nat, e: Evidence, contract: string -> string) {
    exists i :: 0 <= i < n && i < |h| && h[i].passed && h[i].current == e.digests
                && contract(h[i].revision) == contract(e.revision)
  }

  /** A passing run windowed its scope. */
  ghost predicate Disciplined(r: Run, contract: string -> string) {
    r.passed ==>
      Scope(r.current, r.evidence, r.contractChanged, revision => contract(revision) == contract(r.revision))
      <= r.windows
  }

  ghost predicate Honest(h: seq<Run>, contract: string -> string) {
    forall n :: 0 <= n < |h| ==>
      && Disciplined(h[n], contract)
      && (h[n].evidence.Some? ==> Selects(h[n].listing, h[n].evidence))
      && Genuine(h, n, contract)
  }

  /** Whatever usable artifacts a run is shown were published by earlier runs; which of them are
      shown, and in what order, is open. */
  ghost predicate Genuine(h: seq<Run>, n: nat, contract: string -> string)
    requires n < |h|
  {
    forall i, j :: 0 <= i < |h[n].listing| && 0 <= j < |h[n].listing[i]| && EvidenceOf(h[n].listing[i][j]).Some? ==>
      Published(h, n, EvidenceOf(h[n].listing[i][j]).value, contract)
  }

  /** Run `i` put `service` at `digest` through a window and passed, under the contract of `revision`. */
  ghost predicate Windowed(h: seq<Run>, i: int, service: string, digest: string, revision: string,
                           contract: string -> string)
  {
    && 0 <= i < |h| && h[i].passed && service in h[i].windows
    && service in h[i].current && h[i].current[service] == digest
    && contract(h[i].revision) == contract(revision)
  }

  /** Every service and digest of every PASS map went through a stability window in that run or
      an earlier passing one under the same verifier contract, however old the evidence each run
      inherited from and whatever failed in between. */
  lemma {:induction false} EveryPassIsCovered(h: seq<Run>, n: nat, service: string, contract: string -> string)
    requires Honest(h, contract) && n < |h| && h[n].passed && service in h[n].current
    ensures exists i :: 0 <= i <= n && Windowed(h, i, service, h[n].current[service], h[n].revision, contract)
    decreases n
  {
    var r := h[n];
    assert Disciplined(r, contract);
    if service in r.windows {
      assert Windowed(h, n, service, r.current[service], r.revision, contract);
    } else {
      var e := Inherited(h, n, service, contract);
      assert Selects(r.listing, Some(e)) && Genuine(h, n, contract);
      assert Published(h, n, e, contract);
      var k :| 0 <= k < n && k < |h| && h[k].passed && h[k].current == e.digests
               && contract(h[k].revision) == contract(e.revision);
      EveryPassIsCovered(h, k, service, contract);
      var i :| 0 <= i <= k && Windowed(h, i, service, h[k].current[service], h[k].revision, contract);
      assert Windowed(h, i, service, r.current[service], r.revision, contract);
    }
  }

  /** A passing run that skipped a service had inheritable evidence of its digest. */
  lemma Inherited(h: seq<Run>, n: nat, service: string, contract: string -> string) returns (e: Evidence)
    requires n < |h| && Disciplined(h[n], contract) && h[n].passed
    requires service in h[n].current && service !in h[n].windows
    ensures h[n].evidence == Some(e) && contract(e.revision) == contract(h[n].revision)
    ensures service in e.digests && e.digests[service] == h[n].current[service]
  {
    var r := h[n];
    var same := revision => contract(revision) == contract(r.revision);
    var scope := Scope(r.current, r.evidence, r.contractChanged, same);
    assert service !in scope;
    e := r.evidence.value;
  }
}
