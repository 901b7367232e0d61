/** The rollout headroom check (scripts/deploy/check-testai-frontend-rollout-headroom.py), in
    exact arithmetic.  A container whose quantities are missing, unreadable or negative has none. */
module Headroom {
  import opened Json

  datatype Metric = RequestsCpu | RequestsMemory | LimitsCpu | LimitsMemory

  /** `parse_quantity` lets no negative quantity through. */
  type Quantity = x: real | x >= 0.0

  type Amounts = Metric -> Quantity

  datatype Container = Container(amounts: Option<Amounts>, always: bool)

  datatype Refusal =
    | NoReplicas | NotRollingUpdate | BadIntOrString | NoSurge | Unavailable | NoDeadline
    | NoContainers | MissingQuantity | MissingQuota

  const ZERO: Amounts := (m: Metric) => 0.0

  function Add(a: Amounts, b: Amounts): Amounts {
    (m: Metric) => a(m) + b(m)
  }

  function Max(x: Quantity, y: Quantity): Quantity {
    if x < y then y else x
  }

  function MaxOf(a: Amounts, b: Amounts): Amounts {
    (m: Metric) => Max(a(m), b(m))
  }

  // ----- effective_pod_resources

  predicate Explicit(containers: seq<Container>) {
    forall i :: 0 <= i < |containers| ==> containers[i].amounts.Some?
  }

  /** What all these containers use together. */
  function Total(containers: seq<Container>, m: Metric): Quantity
    requires Explicit(containers)
  {
    if containers == [] then 0.0
    else Total(containers[..|containers| - 1], m) + containers[|containers| - 1].amounts.value(m)
  }

  /** What the restartable ones among them use together. */
  function Running(inits: seq<Container>, m: Metric): Quantity
    requires Explicit(inits)
  {
    if inits == [] then 0.0
    else
      var c := inits[|inits| - 1];
      Running(inits[..|inits| - 1], m) + if c.always then c.amounts.value(m) else 0.0
  }

  /** What the pod uses in startup phase `k`: init container `k` beside the restartable ones
      started before it, and after the last one the application beside all restartable ones. */
  function Phase(apps: seq<Container>, inits: seq<Container>, k: nat, m: Metric): Quantity
    requires Explicit(apps) && Explicit(inits) && k <= |inits|
  {
    if k < |inits| then Running(inits[..k], m) + inits[k].amounts.value(m)
    else Total(apps, m) + Running(inits, m)
  }

  /** The most that any startup phase uses, and no more. */
  ghost predicate IsPeak(apps: seq<Container>, inits: seq<Container>, m: Metric, peak: real)
    requires Explicit(apps) && Explicit(inits)
  {
    && (forall k :: 0 <= k <= |inits| ==> Phase(apps, inits, k, m) <= peak)
    && (exists k :: 0 <= k <= |inits| && Phase(apps, inits, k, m) == peak)
  }

  method EffectivePod(apps: seq<Container>, inits: seq<Container>, overhead: Amounts)
    returns (r: Result<Amounts, Refusal>)
    ensures r.Ok? <==> apps != [] && Explicit(apps) && Explicit(inits)
    ensures r.Ok? ==> forall m :: IsPeak(apps, inits, m, r.value(m) - overhead(m))
  {
    if apps == [] {
      return Fail(NoContainers);
    }
    var appTotal := ZERO;
    for i := 0 to |apps|
      invariant Explicit(apps[..i]) && forall m :: appTotal(m) == Total(apps[..i], m)
    {
      if apps[i].amounts.None? {
        return Fail(MissingQuantity);
      }
      assert apps[..i + 1][..i] == apps[..i];
      appTotal := Add(appTotal, apps[i].amounts.value);
    }
    var restartable, peak := ZERO, ZERO;
    assert apps[..|apps|] == apps;
    for i := 0 to |inits|
      invariant Explicit(inits[..i])
      invariant forall m :: restartable(m) == Running(inits[..i], m)
      invariant forall m :: InitPeak(inits[..i], m, peak(m))
    {
      if inits[i].amounts.None? {
        return Fail(MissingQuantity);
      }
      var current := inits[i].amounts.value;
      var step := Add(restartable, current);
      forall m ensures InitPeak(inits[..i + 1], m, MaxOf(peak, step)(m)) {
        InitPeakGrows(inits[..i], inits[i], m, peak(m));
        assert inits[..i + 1] == inits[..i] + [inits[i]];
      }
      peak := MaxOf(peak, step);
      assert inits[..i + 1][..i] == inits[..i];
      if inits[i].always {
        restartable := Add(restartable, current);
      }
    }
    assert inits[..|inits|] == inits;
    var steady := Add(appTotal, restartable);
    var effective := MaxOf(steady, peak);
    forall m ensures IsPeak(apps, inits, m, effective(m)) {
      PeakOverall(apps, inits, m, peak(m));
    }
    return Ok(Add(effective, overhead));
  }

  /** The largest of zero and the init phases. */
  ghost predicate InitPeak(inits: seq<Container>, m: Metric, peak: real)
    requires Explicit(inits)
  {
    && peak >= 0.0
    && (forall k :: 0 <= k < |inits| ==> Phase([], inits, k, m) <= peak)
    && (peak == 0.0 || exists k :: 0 <= k < |inits| && Phase([], inits, k, m) == peak)
  }

  lemma InitPeakGrows(inits: seq<Container>, c: Container, m: Metric, peak: Quantity)
    requires Explicit(inits) && c.amounts.Some? && InitPeak(inits, m, peak)
    ensures Explicit(inits + [c])
    ensures InitPeak(inits + [c], m, Max(peak, Running(inits, m) + c.amounts.value(m)))
  {
    var more := inits + [c];
    var step := Running(inits, m) + c.amounts.value(m);
    forall k | 0 <= k < |inits| ensures Phase([], more, k, m) == Phase([], inits, k, m) {
      assert more[..k] == inits[..k];
    }
    assert more[..|inits|] == inits;
    assert Phase([], more, |inits|, m) == step;
  }

  lemma PeakOverall(apps: seq<Container>, inits: seq<Container>, m: Metric, peak: Quantity)
    requires Explicit(apps) && Explicit(inits)
    requires InitPeak(inits, m, peak)
    ensures IsPeak(apps, inits, m, Max(Total(apps, m) + Running(inits, m), peak))
  {
    var steady := Total(apps, m) + Running(inits, m);
    assert Phase(apps, inits, |inits|, m) == steady;
    assert forall k :: 0 <= k < |inits| ==> Phase(apps, inits, k, m) == Phase([], inits, k, m);
    assert forall k :: 0 <= k <= |inits| ==> Phase(apps, inits, k, m) <= Max(steady, peak);
    if peak > steady {
      var k :| 0 <= k < |inits| && Phase([], inits, k, m) == peak;
      assert Phase(apps, inits, k, m) == peak;
    }
  }

  // ----- resolve_int_or_percent

  datatype IntOrString = Whole(n: int) | Percent(p: real) | Unreadable

  function Ceiling(x: real): int {
    -((-x).Floor)
  }

  function Resolve(v: IntOrString, replicas: int, roundUp: bool): Result<nat, Refusal> {
    match v
    case Unreadable => Fail(BadIntOrString)
    case Whole(n) => if n < 0 then Fail(BadIntOrString) else Ok(n)
    case Percent(p) =>
      var raw := replicas as real * p / 100.0;
      var n := if roundUp then Ceiling(raw) else raw.Floor;
      if n < 0 then Fail(BadIntOrString) else Ok(n)
  }

  /** A percentage of the replicas, rounded up or down to the nearest whole number of pods. */
  lemma RoundedToPods(p: real, replicas: int, roundUp: bool)
    ensures var raw, r := replicas as real * p / 100.0, Resolve(Percent(p), replicas, roundUp);
            && (r.Ok? <==> if roundUp then raw > -1.0 else raw >= 0.0)
            && (r.Ok? && roundUp ==> raw <= r.value as real < raw + 1.0)
            && (r.Ok? && !roundUp ==> raw - 1.0 < r.value as real <= raw)
  {
    var raw := replicas as real * p / 100.0;
    assert Ceiling(raw) as real - 1.0 < raw <= Ceiling(raw) as real;
    assert Ceiling(raw) < 0 <==> raw <= -1.0;
  }

  /** A whole number of pods is itself, and refused exactly when negative. */
  lemma WholePods(n: int, replicas: int, roundUp: bool)
    ensures Resolve(Whole(n), replicas, roundUp).Ok? <==> n >= 0
    ensures n >= 0 ==> Resolve(Whole(n), replicas, roundUp) == Ok(n)
    ensures Resolve(Unreadable, replicas, roundUp).Fail?
  {
  }

  // ----- evaluate

  datatype QuotaMetric = Pods | Of(metric: Metric)

  const QUOTA_METRICS: seq<QuotaMetric> :=
    [Of(RequestsCpu), Of(RequestsMemory), Of(LimitsCpu), Of(LimitsMemory), Pods]

  type Quota = map<QuotaMetric, Quantity>

  datatype Deployment = Deployment(
    replicas: int,
    rollingUpdate: bool,
    maxSurge: IntOrString,
    maxUnavailable: IntOrString,
    deadline: int,
    apps: seq<Container>,
    inits: seq<Container>,
    overhead: Amounts)

  datatype Verdict = Verdict(surge: nat, perPod: Amounts, pass: bool)

  function Required(perPod: Amounts, surge: nat, q: QuotaMetric): Quantity {
    match q
    case Pods => surge as real
    case Of(m) => perPod(m) * surge as real
  }

  /** The quotas name every metric. */
  predicate Complete(quota: Quota) {
    forall i :: 0 <= i < |QUOTA_METRICS| ==> QUOTA_METRICS[i] in quota
  }

  predicate Fits(hard: Quota, used: Quota, perPod: Amounts, surge: nat, q: QuotaMetric)
    requires q in hard && q in used
  {
    used[q] + Required(perPod, surge, q) <= hard[q]
  }

  predicate Proper(d: Deployment) {
    && d.replicas >= 1 && d.rollingUpdate && d.deadline > 0
    && Resolve(d.maxSurge, d.replicas, true).Ok? && Resolve(d.maxSurge, d.replicas, true).value >= 1
    && Resolve(d.maxUnavailable, d.replicas, false) == Ok(0)
    && d.apps != [] && Explicit(d.apps) && Explicit(d.inits)
  }

  method Evaluate(d: Deployment, desired: Quota, live: Quota, used: Quota) returns (r: Result<Verdict, Refusal>)
    ensures r.Ok? <==> Proper(d) && Complete(desired) && Complete(live) && Complete(used)
    ensures r.Ok? ==>
              && Resolve(d.maxSurge, d.replicas, true) == Ok(r.value.surge)
              && forall m :: IsPeak(d.apps, d.inits, m, r.value.perPod(m) - d.overhead(m))
    ensures r.Ok? ==> (r.value.pass <==>
              forall q :: q in QUOTA_METRICS ==>
                && Fits(desired, used, r.value.perPod, r.value.surge, q)
                && Fits(live, used, r.value.perPod, r.value.surge, q))
  {
    if d.replicas < 1 {
      return Fail(NoReplicas);
    }
    if !d.rollingUpdate {
      return Fail(NotRollingUpdate);
    }
    var maxSurge := Resolve(d.maxSurge, d.replicas, true);
    if maxSurge.Fail? {
      return Fail(maxSurge.error);
    }
    var maxUnavailable := Resolve(d.maxUnavailable, d.replicas, false);
    if maxUnavailable.Fail? {
      return Fail(maxUnavailable.error);
    }
    var surge := maxSurge.value;
    if surge < 1 {
      return Fail(NoSurge);
    }
    if maxUnavailable.value != 0 {
      return Fail(Unavailable);
    }
    if d.deadline <= 0 {
      return Fail(NoDeadline);
    }
    var pod := EffectivePod(d.apps, d.inits, d.overhead);
    if pod.Fail? {
      return Fail(pod.error);
    }
    var perPod := pod.value;
    var failures := 0;
    for i := 0 to |QUOTA_METRICS|
      invariant forall j :: 0 <= j < i ==>
                  QUOTA_METRICS[j] in desired && QUOTA_METRICS[j] in live && QUOTA_METRICS[j] in used
      invariant failures >= 0
      invariant failures == 0 <==> forall j :: 0 <= j < i ==>
                  && Fits(desired, used, perPod, surge, QUOTA_METRICS[j])
                  && Fits(live, used, perPod, surge, QUOTA_METRICS[j])
    {
      var q := QUOTA_METRICS[i];
      if q !in desired || q !in live || q !in used {
        return Fail(MissingQuota);
      }
      var effectiveHard: real := if desired[q] < live[q] then desired[q] else live[q];
      var margin := effectiveHard - used[q];
      if !(margin >= Required(perPod, surge, q) && used[q] <= effectiveHard) {
        failures := failures + 1;
      }
    }
    return Ok(Verdict(surge, perPod, failures == 0));
  }

  /** What must fit: for pods the surge itself, for a resource the surge times what a pod needs. */
  lemma FitsMeans(hard: Quota, used: Quota, perPod: Amounts, surge: nat, m: Metric)
    requires Pods in hard && Pods in used && Of(m) in hard && Of(m) in used
    ensures Fits(hard, used, perPod, surge, Pods) <==> used[Pods] + surge as real <= hard[Pods]
    ensures Fits(hard, used, perPod, surge, Of(m)) <==> used[Of(m)] + surge as real * perPod(m) <= hard[Of(m)]
  {
  }

  // ----- what a PASS is worth

  /** What surge pods use together, pod `i` being in startup phase `phases[i]`. */
  function Usage(d: Deployment, phases: seq<nat>, m: Metric): real
    requires Explicit(d.apps) && Explicit(d.inits)
    requires forall i :: 0 <= i < |phases| ==> phases[i] <= |d.inits|
  {
    if phases == [] then 0.0
    else Usage(d, phases[..|phases| - 1], m) + Phase(d.apps, d.inits, phases[|phases| - 1], m) + d.overhead(m)
  }

  ghost predicate Schedule(d: Deployment, phases: seq<nat>, surge: nat) {
    |phases| <= surge && forall i :: 0 <= i < |phases| ==> phases[i] <= |d.inits|
  }

  lemma {:induction false} UsageBounded(d: Deployment, phases: seq<nat>, m: Metric, perPod: real)
    requires Explicit(d.apps) && Explicit(d.inits) && IsPeak(d.apps, d.inits, m, perPod - d.overhead(m))
    requires forall i :: 0 <= i < |phases| ==> phases[i] <= |d.inits|
    ensures Usage(d, phases, m) <= Times(perPod, |phases|)
  {
    if phases != [] {
      var n := |phases| - 1;
      UsageBounded(d, phases[..n], m, perPod);
      assert Phase(d.apps, d.inits, phases[n], m) <= perPod - d.overhead(m);
    }
  }

  lemma {:induction false} AllAtPeak(d: Deployment, phases: seq<nat>, m: Metric, perPod: real, k: nat)
    requires Explicit(d.apps) && Explicit(d.inits) && k <= |d.inits|
    requires Phase(d.apps, d.inits, k, m) == perPod - d.overhead(m)
    requires forall i :: 0 <= i < |phases| ==> phases[i] == k
    ensures Usage(d, phases, m) == Times(perPod, |phases|)
  {
    if phases != [] {
      AllAtPeak(d, phases[..|phases| - 1], m, perPod, k);
    }
  }

  /** `x` taken `n` times. */
  function Times(x: real, n: nat): real {
    if n == 0 then 0.0 else Times(x, n - 1) + x
  }

  lemma {:induction false} TimesIs(x: real, n: nat)
    ensures Times(x, n) == x * n as real
  {
    if n > 0 {
      TimesIs(x, n - 1);
      var before := (n - 1) as real;
      assert n as real == before + 1.0;
      assert x * (before + 1.0) == x * before + x;
    }
  }

  lemma {:induction false} Scale(x: real, a: nat, b: nat)
    requires x >= 0.0 && a <= b
    ensures Times(x, a) <= Times(x, b)
  {
    if a < b {
      Scale(x, a, b - 1);
    }
  }

  /** A resource requirement fits exactly when no schedule of the surge pods, each in any of its
      startup phases, exceeds the limit. */
  lemma FitsIffEverySchedule(d: Deployment, hard: Quota, used: Quota, perPod: Amounts, surge: nat, m: Metric)
    requires Explicit(d.apps) && Explicit(d.inits) && Of(m) in hard && Of(m) in used
    requires IsPeak(d.apps, d.inits, m, perPod(m) - d.overhead(m))
    ensures Fits(hard, used, perPod, surge, Of(m)) <==>
            forall phases :: Schedule(d, phases, surge) ==> used[Of(m)] + Usage(d, phases, m) <= hard[Of(m)]
  {
    TimesIs(perPod(m), surge);
    assert Required(perPod, surge, Of(m)) == Times(perPod(m), surge);
    if Fits(hard, used, perPod, surge, Of(m)) {
      forall phases | Schedule(d, phases, surge)
        ensures used[Of(m)] + Usage(d, phases, m) <= hard[Of(m)]
      {
        ScheduleBounded(d, phases, m, perPod(m), surge);
      }
    } else {
      var phases := WorstSchedule(d, m, perPod(m), surge);
      assert Schedule(d, phases, surge);
    }
  }

  lemma ScheduleBounded(d: Deployment, phases: seq<nat>, m: Metric, perPod: real, surge: nat)
    requires Explicit(d.apps) && Explicit(d.inits) && Schedule(d, phases, surge)
    requires IsPeak(d.apps, d.inits, m, perPod - d.overhead(m)) && perPod >= 0.0
    ensures Usage(d, phases, m) <= Times(perPod, surge)
  {
    UsageBounded(d, phases, m, perPod);
    Scale(perPod, |phases|, surge);
  }

  lemma WorstSchedule(d: Deployment, m: Metric, perPod: real, surge: nat) returns (phases: seq<nat>)
    requires Explicit(d.apps) && Explicit(d.inits) && IsPeak(d.apps, d.inits, m, perPod - d.overhead(m))
    ensures Schedule(d, phases, surge) && Usage(d, phases, m) == Times(perPod, surge)
  {
    var k: nat :| k <= |d.inits| && Phase(d.apps, d.inits, k, m) == perPod - d.overhead(m);
    phases := seq(surge, _ => k);
    AllAtPeak(d, phases, m, perPod, k);
  }
}
