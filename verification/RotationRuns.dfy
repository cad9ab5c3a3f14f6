/** The rotation control loop over time: what every run of it keeps, how fast it reacts, and when it comes to rest. */
module RotationRuns {
  import opened GoText
  import opened Providers
  import opened Webhook
  import opened Rotation
  import GoCache

  /**
   * A running pod. `template` is what its owner stamps out, `next` the timer in the work queue, and
   * `last` the time of the last check (or of admission).
   */
  datatype PodRec = PodRec(obj: PodObject, template: map<string, string>, next: Option<int>, last: int)

  /**
   * `resync` is when the manager next delivers every pod again, and `sweep` the pods it delivered that
   * have not been checked since.
   */
  datatype World = World(now: int, versions: VersionOracle, pods: map<string, PodRec>, resync: int, sweep: set<string>)

  /**
   * Steps of the system; a check may come early (a watch event), but a tick passes neither a due timer
   * nor a resync.
   */
  datatype Step =
    | Tick(d: nat)
    | Rotate(to: VersionOracle)
    | Check(pod: string, faults: Faults, backoff: int)
    | Replace(pod: string, successor: string)
    | Admit(pod: string, ns: string, owners: seq<OwnerRef>, template: map<string, string>)
    | Remove(pod: string)
    | Resync(period: int)

  predicate Allowed(w: World, s: Step) {
    match s
    case Tick(d) =>
      && w.now + d <= w.resync && (d == 0 || w.sweep == {})
      && forall p :: p in w.pods && w.pods[p].next.Some? ==> w.now + d <= w.pods[p].next.value
    case Rotate(_) => true
    case Check(p, _, backoff) => p in w.pods && backoff > 0
    case Replace(p, q) => p in w.pods && q !in w.pods
    case Admit(q, _, _, _) => q !in w.pods
    case Remove(p) => p in w.pods
    case Resync(period) => w.now == w.resync && period > 0
  }

  /** The admission webhook records the baseline, and the creation event queues a first check at once. */
  function NewPod(w: World, ns: string, owners: seq<OwnerRef>, template: map<string, string>): PodRec {
    PodRec(PodObject(ns, Admitted(template, w.versions), owners), template, Some(w.now), w.now)
  }

  /** The work queue keeps the earlier of two timers for one pod. */
  function Earlier(a: Option<int>, b: Option<int>): Option<int> {
    match (a, b)
    case (None, _) => b
    case (_, None) => a
    case (Some(x), Some(y)) => Some(if x <= y then x else y)
  }

  /** The queue after a check: an error is retried after a backoff, a positive RequeueAfter is honoured. */
  function Checked(rec: PodRec, w: World, cfg: Config, faults: Faults, backoff: int): PodRec {
    var (outcome, _) := ReconcilePod(rec.obj, cfg, w.versions, faults);
    var left := if rec.next.Some? && rec.next.value > w.now then rec.next else None;
    var wanted := if outcome.failed then Some(w.now + backoff)
                  else if outcome.requeueAfter > 0 then Some(w.now + outcome.requeueAfter)
                  else None;
    rec.(next := Earlier(left, wanted), last := w.now)
  }

  function Apply(cfg: Config, w: World, s: Step): World
    requires Allowed(w, s)
  {
    match s
    case Tick(d) => w.(now := w.now + d)
    case Rotate(v) => w.(versions := v)
    case Check(p, faults, backoff) =>
      w.(pods := w.pods[p := Checked(w.pods[p], w, cfg, faults, backoff)], sweep := w.sweep - {p})
    case Replace(p, q) =>
      w.(pods := (w.pods - {p})[q := NewPod(w, w.pods[p].obj.ns, w.pods[p].obj.owners, w.pods[p].template)],
         sweep := w.sweep - {p})
    case Admit(q, ns, owners, template) => w.(pods := w.pods[q := NewPod(w, ns, owners, template)])
    case Remove(p) => w.(pods := w.pods - {p}, sweep := w.sweep - {p})
    case Resync(period) => w.(resync := w.now + period, sweep := w.pods.Keys)
  }

  /** The workload that a step patches. */
  function PatchOf(cfg: Config, w: World, s: Step): Option<Target> {
    if s.Check? && s.pod in w.pods then ReconcilePod(w.pods[s.pod].obj, cfg, w.versions, s.faults).1 else None
  }

  predicate Legal(cfg: Config, w: World, steps: seq<Step>)
    decreases |steps|
  {
    steps == [] || (Allowed(w, steps[0]) && Legal(cfg, Apply(cfg, w, steps[0]), steps[1..]))
  }

  function Run(cfg: Config, w: World, steps: seq<Step>): World
    requires Legal(cfg, w, steps)
    decreases |steps|
  {
    if steps == [] then w else Run(cfg, Apply(cfg, w, steps[0]), steps[1..])
  }

  function Patches(cfg: Config, w: World, steps: seq<Step>): seq<Target>
    requires Legal(cfg, w, steps)
    decreases |steps|
  {
    if steps == [] then []
    else
      var first := PatchOf(cfg, w, steps[0]);
      (if first.Some? then [first.value] else []) + Patches(cfg, Apply(cfg, w, steps[0]), steps[1..])
  }

  // ---------------------------------------------------------------- schedule invariant

  /** A pending timer lies between the last check and never in the past. */
  predicate OnTime(rec: PodRec, w: World) {
    rec.next.Some? ==> rec.last <= w.now <= rec.next.value
  }

  ghost predicate Punctual(w: World) {
    && w.now <= w.resync && w.sweep <= w.pods.Keys
    && forall p :: p in w.pods ==> OnTime(w.pods[p], w)
  }

  lemma CheckKeepsTime(rec: PodRec, w: World, cfg: Config, faults: Faults, backoff: int)
    requires backoff > 0
    ensures OnTime(Checked(rec, w, cfg, faults, backoff), w)
  {
    hide ReconcilePod;
  }

  lemma StepKeepsTime(w: World, cfg: Config, s: Step)
    requires Punctual(w) && Allowed(w, s)
    ensures Punctual(Apply(cfg, w, s))
  {
    hide Checked, Admitted;
    var w' := Apply(cfg, w, s);
    forall p | p in w'.pods ensures OnTime(w'.pods[p], w') {
      if s.Check? && p == s.pod {
        CheckKeepsTime(w.pods[p], w, cfg, s.faults, s.backoff);
      } else if p in w.pods {
        assert OnTime(w.pods[p], w);
      }
    }
  }

  /** No timer and no resync is ever late, in any state of any run, for any pod. */
  lemma {:induction false} RunsKeepTime(w: World, cfg: Config, steps: seq<Step>)
    requires Punctual(w) && Legal(cfg, w, steps)
    ensures Punctual(Run(cfg, w, steps))
    decreases |steps|
  {
    hide Apply, Punctual, Allowed;
    if steps != [] {
      StepKeepsTime(w, cfg, steps[0]);
      RunsKeepTime(Apply(cfg, w, steps[0]), cfg, steps[1..]);
    }
  }

  predicate CheckFails(cfg: Config, w: World, s: Step, p: string) {
    s.Check? && s.pod == p && p in w.pods && ReconcilePod(w.pods[p].obj, cfg, w.versions, s.faults).0.failed
  }

  /** No check of this pod fails; the checks of other pods may. */
  predicate ErrorFree(cfg: Config, w: World, steps: seq<Step>, p: string)
    requires Legal(cfg, w, steps)
    decreases |steps|
  {
    steps == [] || (!CheckFails(cfg, w, steps[0], p) && ErrorFree(cfg, Apply(cfg, w, steps[0]), steps[1..], p))
  }

  /** The next check of a pod with a positive interval comes at most that interval after the last one. */
  predicate WithinInterval(w: World, cfg: Config, p: string) {
    p in w.pods ==>
      var rec := w.pods[p];
      var interval := IntervalOf(rec.obj.annotations, cfg);
      interval.Some? && interval.value > 0 && rec.next.Some? ==> rec.next.value <= rec.last + interval.value
  }

  lemma CheckKeepsInterval(rec: PodRec, w: World, cfg: Config, faults: Faults, backoff: int, interval: int)
    requires OnTime(rec, w) && IntervalOf(rec.obj.annotations, cfg) == Some(interval) && interval > 0
    requires rec.next.Some? ==> rec.next.value <= rec.last + interval
    requires !ReconcilePod(rec.obj, cfg, w.versions, faults).0.failed
    ensures var rec' := Checked(rec, w, cfg, faults, backoff);
            rec'.next.Some? ==> rec'.next.value <= rec'.last + interval
  {
    hide RestartTarget, Compare, EnabledKinds, IntervalOf;
  }

  lemma StepKeepsInterval(w: World, cfg: Config, s: Step, p: string)
    requires Punctual(w) && WithinInterval(w, cfg, p) && Allowed(w, s) && !CheckFails(cfg, w, s, p)
    ensures WithinInterval(Apply(cfg, w, s), cfg, p)
  {
    hide IntervalOf, Admitted, ReconcilePod;
    if p in w.pods { assert OnTime(w.pods[p], w); }
    if s.Check? && s.pod == p {
      var interval := IntervalOf(w.pods[p].obj.annotations, cfg);
      if interval.Some? && interval.value > 0 {
        CheckKeepsInterval(w.pods[p], w, cfg, s.faults, s.backoff, interval.value);
      }
    }
  }

  /** As long as no check of the pod fails, its next check comes at most one interval after the last. */
  lemma {:induction false} RunsKeepInterval(w: World, cfg: Config, steps: seq<Step>, p: string)
    requires Punctual(w) && WithinInterval(w, cfg, p) && Legal(cfg, w, steps) && ErrorFree(cfg, w, steps, p)
    ensures WithinInterval(Run(cfg, w, steps), cfg, p)
    decreases |steps|
  {
    hide Apply, Punctual, WithinInterval, Allowed, CheckFails;
    if steps != [] {
      StepKeepsTime(w, cfg, steps[0]);
      StepKeepsInterval(w, cfg, steps[0], p);
      RunsKeepInterval(Apply(cfg, w, steps[0]), cfg, steps[1..], p);
    }
  }

  // ----------------------------------------------------------------- bounded detection

  /** A pod the controller compares: a positive interval, a baseline, an enabled provider. */
  predicate Watched(rec: PodRec, cfg: Config) {
    var a := rec.obj.annotations;
    var interval := IntervalOf(a, cfg);
    interval.Some? && interval.value > 0 && Baseline(a) != "" && EnabledKinds(a) != []
  }

  /** Throughout the run the pod exists, is stale, and its own checks meet no API fault. */
  predicate StaysStale(cfg: Config, w: World, steps: seq<Step>, p: string)
    requires Legal(cfg, w, steps)
    decreases |steps|
  {
    && p in w.pods
    && Stale(w.pods[p].obj.annotations, w.versions)
    && (steps != [] ==>
          && (steps[0].Check? && steps[0].pod == p ==> steps[0].faults == NO_FAULTS)
          && StaysStale(cfg, Apply(cfg, w, steps[0]), steps[1..], p))
  }

  /** Some check of this pod patches its owner. */
  predicate Restarted(cfg: Config, w: World, steps: seq<Step>, p: string)
    requires Legal(cfg, w, steps)
    decreases |steps|
  {
    steps != [] &&
    ((steps[0].Check? && steps[0].pod == p && PatchOf(cfg, w, steps[0]).Some?)
     || Restarted(cfg, Apply(cfg, w, steps[0]), steps[1..], p))
  }

  lemma StaleCheckPatches(cfg: Config, w: World, s: Step, p: string)
    requires p in w.pods && s.Check? && s.pod == p && s.faults == NO_FAULTS
    requires Stale(w.pods[p].obj.annotations, w.versions) && Supported(w.pods[p].obj, cfg.replicaSets)
    requires Watched(w.pods[p], cfg)
    ensures PatchOf(cfg, w, s) == Some(RestartTarget(w.pods[p].obj, cfg.replicaSets, false).value.value)
  {
    PatchesIffStale(w.pods[p].obj, cfg, w.versions);
    OnlyStaleIsPatched(w.pods[p].obj, cfg, w.versions, NO_FAULTS);
    hide ReconcilePod, EnabledKinds, IntervalOf, RestartTarget, Baseline, Compare;
  }

  /**
   * When this pod is checked next at the latest: now if a resync has queued it, else at its timer or the
   * next resync.
   */
  function CheckBy(w: World, p: string): int
    requires p in w.pods
  {
    var next := w.pods[p].next;
    if p in w.sweep then w.now
    else if next.Some? && next.value <= w.resync then next.value
    else w.resync
  }

  /** While a stale, watched, supported pod has not been restarted, time cannot pass that instant. */
  lemma {:induction false} CheckHoldsTime(cfg: Config, w: World, steps: seq<Step>, p: string)
    requires Legal(cfg, w, steps) && StaysStale(cfg, w, steps, p) && !Restarted(cfg, w, steps, p) && Punctual(w)
    requires Watched(w.pods[p], cfg) && Supported(w.pods[p].obj, cfg.replicaSets)
    ensures Run(cfg, w, steps).now <= CheckBy(w, p)
    decreases |steps|
  {
    assert OnTime(w.pods[p], w);
    if steps != [] {
      var s := steps[0];
      var w' := Apply(cfg, w, s);
      assert p in w'.pods;
      if s.Check? && s.pod == p {
        StaleCheckPatches(cfg, w, s, p);
        assert false;
      } else {
        StepKeepsTime(w, cfg, s);
        hide Watched, Supported, Stale, Checked, Admitted, PatchOf, Punctual;
        assert w'.pods[p] == w.pods[p];
        assert CheckBy(w', p) <= CheckBy(w, p);
        CheckHoldsTime(cfg, w', steps[1..], p);
      }
    }
  }

  /** Every run in which the pod stays stale past that time restarts it. */
  ghost predicate RestartedBy(cfg: Config, w: World, p: string, bound: int) {
    forall steps | Legal(cfg, w, steps) && StaysStale(cfg, w, steps, p) && Run(cfg, w, steps).now > bound ::
      Restarted(cfg, w, steps, p)
  }

  /** A run up to any earlier instant that never looks at the pod: the other pods leave, and time passes. */
  lemma {:induction false} RunPastThePod(cfg: Config, w: World, p: string, d: nat) returns (steps: seq<Step>)
    requires p in w.pods && Stale(w.pods[p].obj.annotations, w.versions) && Punctual(w) && w.now + d <= CheckBy(w, p)
    ensures Legal(cfg, w, steps) && StaysStale(cfg, w, steps, p) && !Restarted(cfg, w, steps, p)
    ensures Run(cfg, w, steps).now == w.now + d
    decreases |w.pods.Keys|
  {
    hide Stale, Checked, Admitted;
    if q :| q in w.pods && q != p {
      var w' := Apply(cfg, w, Remove(q));
      assert w'.pods.Keys == w.pods.Keys - {q};
      StepKeepsTime(w, cfg, Remove(q));
      hide Punctual;
      var rest := RunPastThePod(cfg, w', p, d);
      steps := [Remove(q)] + rest;
      assert steps[0] == Remove(q) && steps[1..] == rest;
    } else {
      steps := [Tick(d)];
      assert steps[0] == Tick(d) && steps[1..] == [];
      assert w.sweep <= {p};
      assert Allowed(w, Tick(d));
    }
  }

  /**
   * Detection, exactly: every run in which a stale, watched, supported pod stays stale past `bound`
   * restarts it, if and only if its timer or the next resync is due by then.
   */
  lemma DetectedIffCheckDue(cfg: Config, w: World, p: string, bound: int)
    requires Punctual(w) && p in w.pods && Stale(w.pods[p].obj.annotations, w.versions)
    requires Watched(w.pods[p], cfg) && Supported(w.pods[p].obj, cfg.replicaSets)
    ensures RestartedBy(cfg, w, p, bound) <==> CheckBy(w, p) <= bound
  {
    if CheckBy(w, p) <= bound {
      forall steps | Legal(cfg, w, steps) && StaysStale(cfg, w, steps, p) && Run(cfg, w, steps).now > bound
        ensures Restarted(cfg, w, steps, p)
      {
        if !Restarted(cfg, w, steps, p) { CheckHoldsTime(cfg, w, steps, p); }
      }
    } else {
      assert OnTime(w.pods[p], w);
      var steps := RunPastThePod(cfg, w, p, CheckBy(w, p) - w.now);
      assert Run(cfg, w, steps).now > bound;
    }
  }

  predicate Survives(cfg: Config, w: World, steps: seq<Step>, p: string)
    requires Legal(cfg, w, steps)
    decreases |steps|
  {
    p in w.pods && (steps != [] ==> Survives(cfg, Apply(cfg, w, steps[0]), steps[1..], p))
  }

  lemma CheckKeepsTimer(cfg: Config, w: World, s: Step, p: string)
    requires Allowed(w, s) && s.Check? && s.pod == p && Watched(w.pods[p], cfg)
        && Supported(w.pods[p].obj, cfg.replicaSets)
    requires PatchOf(cfg, w, s).None?
    ensures Apply(cfg, w, s).pods[p].next.Some?
  {
    hide Compare, EnabledKinds, IntervalOf, Baseline;
  }

  /**
   * A supported, watched pod loses its timer only through a check that patches its owner; a new pod
   * starts with one.
   */
  lemma {:induction false} TimerLostOnlyByRestart(cfg: Config, w: World, steps: seq<Step>, p: string)
    requires Legal(cfg, w, steps) && Survives(cfg, w, steps, p)
    requires Watched(w.pods[p], cfg) && Supported(w.pods[p].obj, cfg.replicaSets) && w.pods[p].next.Some?
    ensures p in Run(cfg, w, steps).pods && Run(cfg, w, steps).pods[p].obj == w.pods[p].obj
    ensures Run(cfg, w, steps).pods[p].next.Some? || Restarted(cfg, w, steps, p)
    decreases |steps|
  {
    if steps != [] {
      var s := steps[0];
      var w' := Apply(cfg, w, s);
      assert p in w'.pods;
      if s.Check? && s.pod == p {
        if PatchOf(cfg, w, s).None? { CheckKeepsTimer(cfg, w, s, p); }
      }
      hide Watched, Supported, Checked, Admitted, PatchOf;
      assert w'.pods[p].obj == w.pods[p].obj;
      SameObjectSameWatch(w.pods[p], w'.pods[p], cfg);
      if !(s.Check? && s.pod == p && PatchOf(cfg, w, s).Some?) {
        TimerLostOnlyByRestart(cfg, w', steps[1..], p);
      } else {
        SurvivesToEnd(cfg, w', steps[1..], p);
      }
    }
  }

  lemma SameObjectSameWatch(a: PodRec, b: PodRec, cfg: Config)
    requires a.obj == b.obj
    ensures Watched(a, cfg) == Watched(b, cfg)
  {
  }

  lemma {:induction false} SurvivesToEnd(cfg: Config, w: World, steps: seq<Step>, p: string)
    requires Legal(cfg, w, steps) && Survives(cfg, w, steps, p)
    ensures p in Run(cfg, w, steps).pods && Run(cfg, w, steps).pods[p].obj == w.pods[p].obj
    decreases |steps|
  {
    hide Admitted, ReconcilePod;
    if steps != [] {
      SurvivesToEnd(cfg, Apply(cfg, w, steps[0]), steps[1..], p);
    }
  }

  /** The step that lets this pod in. */
  predicate Admits(s: Step, p: string) {
    (s.Admit? && s.pod == p) || (s.Replace? && s.successor == p)
  }

  lemma AdmittedIsDue(cfg: Config, w: World, s: Step, p: string)
    requires Allowed(w, s) && Admits(s, p)
    ensures p in Apply(cfg, w, s).pods && Apply(cfg, w, s).pods[p].next.Some?
    ensures WithinInterval(Apply(cfg, w, s), cfg, p)
  {
    hide Admitted, IntervalOf;
  }

  /**
   * In every reachable state: a stale, watched, supported pod that has not been restarted since its
   * admission, and none of whose checks failed since, is restarted within one interval.
   */
  lemma DetectionWithinInterval(cfg: Config, start: World, before: seq<Step>, s: Step, since: seq<Step>, p: string)
    requires Punctual(start) && Legal(cfg, start, before)
    requires Allowed(Run(cfg, start, before), s) && Admits(s, p)
    requires var w := Apply(cfg, Run(cfg, start, before), s);
             && Legal(cfg, w, since) && Survives(cfg, w, since, p)
             && ErrorFree(cfg, w, since, p) && !Restarted(cfg, w, since, p)
             && Stale(w.pods[p].obj.annotations, Run(cfg, w, since).versions)
             && Watched(w.pods[p], cfg) && Supported(w.pods[p].obj, cfg.replicaSets)
    ensures var w := Apply(cfg, Run(cfg, start, before), s);
            var v := Run(cfg, w, since);
            RestartedBy(cfg, v, p, v.now + IntervalOf(w.pods[p].obj.annotations, cfg).value)
  {
    hide Stale, Supported, Watched, Allowed, Apply, Punctual, WithinInterval, IntervalOf, Admits, Run, Legal, Survives;
    hide ErrorFree, Restarted, RestartedBy;
    var u := Run(cfg, start, before);
    var w := Apply(cfg, u, s);
    RunsKeepTime(start, cfg, before);
    StepKeepsTime(u, cfg, s);
    AdmittedIsDue(cfg, u, s, p);
    TimeAfterAdmission(cfg, w, since, p);
  }

  lemma TimeAfterAdmission(cfg: Config, w: World, since: seq<Step>, p: string)
    requires Punctual(w) && Legal(cfg, w, since) && Survives(cfg, w, since, p)
    requires WithinInterval(w, cfg, p) && w.pods[p].next.Some?
    requires ErrorFree(cfg, w, since, p) && !Restarted(cfg, w, since, p)
    requires Stale(w.pods[p].obj.annotations, Run(cfg, w, since).versions)
    requires Watched(w.pods[p], cfg) && Supported(w.pods[p].obj, cfg.replicaSets)
    ensures var v := Run(cfg, w, since);
            RestartedBy(cfg, v, p, v.now + IntervalOf(w.pods[p].obj.annotations, cfg).value)
  {
    var v := Run(cfg, w, since);
    RunsKeepTime(w, cfg, since);
    RunsKeepInterval(w, cfg, since, p);
    TimerLostOnlyByRestart(cfg, w, since, p);
    SameObjectSameWatch(w.pods[p], v.pods[p], cfg);
    assert OnTime(v.pods[p], v);
    DetectedIffCheckDue(cfg, v, p, v.now + IntervalOf(w.pods[p].obj.annotations, cfg).value);
    hide Legal, Run, Survives, Restarted, RestartedBy, IntervalOf, Stale, Supported, ErrorFree, Punctual;
  }

  lemma OneStepMore(cfg: Config, w: World, s: Step, rest: seq<Step>)
    requires Allowed(w, s) && Legal(cfg, Apply(cfg, w, s), rest)
    ensures Legal(cfg, w, [s] + rest) && Run(cfg, w, [s] + rest) == Run(cfg, Apply(cfg, w, s), rest)
  {
    hide Apply, Allowed;
    assert ([s] + rest)[0] == s && ([s] + rest)[1..] == rest;
  }

  /**
   * The failing run: a due stale pod is patched but not replaced, the versions change and change
   * again. The pod is stale once more, its timer is gone, and only the next resync restarts it.
   */
  lemma PatchedButNotReplaced(cfg: Config, w: World, p: string, between: VersionOracle, later: VersionOracle)
    returns (first: seq<Step>)
    requires Punctual(w) && p in w.pods && Watched(w.pods[p], cfg) && Supported(w.pods[p].obj, cfg.replicaSets)
    requires Stale(w.pods[p].obj.annotations, w.versions) && Stale(w.pods[p].obj.annotations, later)
    requires w.pods[p].next == Some(w.now)
    ensures first == [Check(p, NO_FAULTS, 1), Rotate(between), Rotate(later)] && Legal(cfg, w, first)
    ensures Restarted(cfg, w, first, p)
    ensures var v := Run(cfg, w, first);
            && p in v.pods && v.pods[p].obj == w.pods[p].obj && v.pods[p].next.None?
            && v.now == w.now && v.versions == later
            && forall bound :: RestartedBy(cfg, v, p, bound) <==> w.resync <= bound
  {
    var s0, s1, s2 := Check(p, NO_FAULTS, 1), Rotate(between), Rotate(later);
    first := [s0, s1, s2];
    StaleCheckPatches(cfg, w, s0, p);
    OnlyStaleIsPatched(w.pods[p].obj, cfg, w.versions, NO_FAULTS);
    hide ReconcilePod, Stale, Watched, Supported, RestartTarget, RestartedBy;
    var w1 := Apply(cfg, w, s0);
    var w2 := Apply(cfg, w1, s1);
    var w3 := Apply(cfg, w2, s2);
    assert w3 == w1.(versions := later) && w1.pods[p].next.None?;
    assert Legal(cfg, w, first) && Run(cfg, w, first) == w3 && Restarted(cfg, w, first, p) by {
      hide Apply, Punctual;
      OneStepMore(cfg, w2, s2, []);
      OneStepMore(cfg, w1, s1, [s2]);
      OneStepMore(cfg, w, s0, [s1, s2]);
      assert first == [s0] + [s1, s2] && [s1, s2] == [s1] + [s2] && [s2] == [s2] + [];
      assert first[0] == s0;
    }
    RunsKeepTime(w, cfg, first);
    SameObjectSameWatch(w.pods[p], w3.pods[p], cfg);
    assert CheckBy(w3, p) == w.resync by { hide Punctual; }
    hide Punctual, Apply, Run, Legal, Restarted;
    forall bound ensures RestartedBy(cfg, w3, p, bound) <==> w.resync <= bound {
      DetectedIffCheckDue(cfg, w3, p, bound);
    }
  }

  /** A world in which that happens: one pod of a Deployment, injected at version "1" and due for its first check. */
  const WAITING_POD := PodObject("shop",
    map[EnabledKey(AwsKind) := "true", ROTATION_INTERVAL := "1h", INJECTED_VERSION := "1"],
    [OwnerRef("Deployment", "web")])

  const HOURLY := Config(text => Some(GoCache.HOUR), map[])

  function Everywhere(version: string): VersionOracle {
    (k: Kind, a: map<string, string>) => Version(version)
  }

  const BEFORE_CHECK :=
    World(0, Everywhere("2"), map["pod" := PodRec(WAITING_POD, WAITING_POD.annotations, Some(0), 0)],
        10 * GoCache.HOUR, {})

  lemma WaitingPodIsWatched()
    ensures EnabledKinds(WAITING_POD.annotations) != [] && Baseline(WAITING_POD.annotations) == "1"
    ensures IntervalOf(WAITING_POD.annotations, HOURLY) == Some(GoCache.HOUR)
    ensures forall v :: v != "" && v != "1" ==> Stale(WAITING_POD.annotations, Everywhere(v))
  {
    var a := WAITING_POD.annotations;
    KeysDiffer(AwsKind);
    assert |EnabledKey(AwsKind)| == 34 && |ROTATION_INTERVAL| == 46;
    EnabledKindsMembers(a, AwsKind);
    hide EnabledKinds, ConfigPart, EnabledKey, INJECTED_VERSION, ROTATION_INTERVAL;
  }

  /** Patched for version "2" and never replaced, this pod waits ten intervals to be restarted for version "3". */
  lemma PodWaitsForResync() returns (first: seq<Step>)
    ensures first == [Check("pod", NO_FAULTS, 1), Rotate(Everywhere("1")), Rotate(Everywhere("3"))]
    ensures Legal(HOURLY, BEFORE_CHECK, first) && Restarted(HOURLY, BEFORE_CHECK, first, "pod")
    ensures var v := Run(HOURLY, BEFORE_CHECK, first);
            v.now == 0 && forall bound :: RestartedBy(HOURLY, v, "pod", bound) <==> 10 * GoCache.HOUR <= bound
  {
    WaitingPodIsWatched();
    assert "Deployment"[0] == 'D' && "ReplicaSet"[0] == 'R' && "2"[0] == '2' && "3"[0] == '3' && "1"[0] == '1';
    hide Stale, EnabledKinds, IntervalOf, Baseline, Apply, Legal, Run, Restarted, RestartedBy;
    first := PatchedButNotReplaced(HOURLY, BEFORE_CHECK, "pod", Everywhere("1"), Everywhere("3"));
  }

  /** No owner, a kind the controller does not know, or a ReplicaSet that exists and is not a Deployment's. */
  predicate LeadsNowhere(pod: PodObject, rs: ReplicaSets) {
    pod.owners == []
    || (var owner := pod.owners[0];
        owner.kind !in {"ReplicaSet", "StatefulSet", "DaemonSet", "Deployment"}
        || (owner.kind == "ReplicaSet" && (pod.ns, owner.name) in rs
            && var above := rs[(pod.ns, owner.name)]; above == [] || above[0].kind != "Deployment"))
  }

  /**
   * A due check of a stale watched pod patches nothing and schedules nothing exactly when the owner
   * chain leads nowhere; a missing ReplicaSet is retried instead.
   */
  lemma SilentIffLeadsNowhere(cfg: Config, w: World, s: Step, p: string)
    requires Allowed(w, s) && s.Check? && s.pod == p && s.faults == NO_FAULTS
    requires Stale(w.pods[p].obj.annotations, w.versions) && Watched(w.pods[p], cfg)
    requires w.pods[p].next.None? || w.pods[p].next.value <= w.now
    ensures PatchOf(cfg, w, s).None? && Apply(cfg, w, s).pods[p].next.None?
            <==> LeadsNowhere(w.pods[p].obj, cfg.replicaSets)
  {
    NowhereIsNoTarget(w.pods[p].obj, cfg.replicaSets);
    hide RestartTarget, EnabledKinds, IntervalOf, Baseline, Compare, LeadsNowhere;
  }

  lemma NowhereIsNoTarget(pod: PodObject, rs: ReplicaSets)
    ensures RestartTarget(pod, rs, false) == Ok(None) <==> LeadsNowhere(pod, rs)
  {
  }

  // ---------------------------------------------------------------------- convergence

  predicate FrozenStep(s: Step, versions: VersionOracle) {
    !s.Rotate? && (s.Admit? ==> Harmonious(s.template, versions))
  }

  /** Versions do not change any more, and newly admitted workloads are harmonious. */
  ghost predicate Frozen(steps: seq<Step>, versions: VersionOracle) {
    forall s :: s in steps ==> FrozenStep(s, versions)
  }

  ghost predicate AllHarmonious(w: World) {
    forall p :: p in w.pods ==> Harmonious(w.pods[p].template, w.versions)
  }

  predicate StalePod(rec: PodRec, versions: VersionOracle) {
    Stale(rec.obj.annotations, versions)
  }

  function StaleSet(w: World): set<string> {
    set p | p in w.pods && StalePod(w.pods[p], w.versions)
  }

  /** The stale pods a step takes away. */
  function StaleGone(w: World, s: Step): set<string> {
    if (s.Replace? || s.Remove?) && s.pod in w.pods && StalePod(w.pods[s.pod], w.versions) then {s.pod} else {}
  }

  function StaleGoneIn(cfg: Config, w: World, steps: seq<Step>): nat
    requires Legal(cfg, w, steps)
    decreases |steps|
  {
    if steps == [] then 0
    else |StaleGone(w, steps[0])| + StaleGoneIn(cfg, Apply(cfg, w, steps[0]), steps[1..])
  }

  /** No step makes a fresh pod stale; replacing or removing a stale pod takes exactly that pod off the list. */
  lemma FrozenStepEffect(cfg: Config, w: World, s: Step)
    requires Allowed(w, s) && FrozenStep(s, w.versions) && AllHarmonious(w)
    ensures Apply(cfg, w, s).versions == w.versions && AllHarmonious(Apply(cfg, w, s))
    ensures StaleSet(Apply(cfg, w, s)) == StaleSet(w) - StaleGone(w, s)
  {
    hide Stale, Harmonious, Admitted, Checked, EffectiveBaseline, NoneDiffers;
    var w' := Apply(cfg, w, s);
    if s.Replace? {
      FreshOnAdmissionIff(w.pods[s.pod].template, w.versions);
    } else if s.Admit? {
      FreshOnAdmissionIff(s.template, w.versions);
    } else if s.Check? {
      CheckKeepsPod(w.pods[s.pod], w, cfg, s.faults, s.backoff);
    }
    forall p ensures p in StaleSet(w') <==> p in StaleSet(w) - StaleGone(w, s) {
    }
  }

  lemma CheckKeepsPod(rec: PodRec, w: World, cfg: Config, faults: Faults, backoff: int)
    ensures Checked(rec, w, cfg, faults, backoff).obj == rec.obj
    ensures Checked(rec, w, cfg, faults, backoff).template == rec.template
  {
    hide ReconcilePod;
  }

  /** Conservation: stale pods at the start are the stale pods left plus those replaced or removed. */
  lemma {:induction false} StalePodsConserved(cfg: Config, w: World, steps: seq<Step>)
    requires Legal(cfg, w, steps) && Frozen(steps, w.versions) && AllHarmonious(w)
    ensures |StaleSet(Run(cfg, w, steps))| + StaleGoneIn(cfg, w, steps) == |StaleSet(w)|
    ensures StaleSet(Run(cfg, w, steps)) <= StaleSet(w)
    decreases |steps|
  {
    if steps != [] {
      var s := steps[0];
      var w' := Apply(cfg, w, s);
      FrozenStepEffect(cfg, w, s);
      assert StaleGone(w, s) <= StaleSet(w);
      hide Apply, Allowed, AllHarmonious, FrozenStep, StaleSet, StaleGone;
      SizeOfDifference(StaleSet(w), StaleGone(w, s));
      StalePodsConserved(cfg, w', steps[1..]);
    }
  }

  lemma SizeOfDifference(a: set<string>, b: set<string>)
    requires b <= a
    ensures |a - b| + |b| == |a|
  {
    assert a == (a - b) + b && (a - b) !! b;
  }

  /** At rest nothing is ever patched again, whatever faults and spurious checks occur. */
  lemma {:induction false} QuietWhenFresh(cfg: Config, w: World, steps: seq<Step>)
    requires Legal(cfg, w, steps) && Frozen(steps, w.versions) && AllHarmonious(w) && StaleSet(w) == {}
    ensures Patches(cfg, w, steps) == []
    decreases |steps|
  {
    if steps != [] {
      var s := steps[0];
      if PatchOf(cfg, w, s).Some? { PatchedIsStale(cfg, w, s); }
      FrozenStepEffect(cfg, w, s);
      hide Apply, Allowed, AllHarmonious, FrozenStep, StaleSet, StaleGone, PatchOf;
      QuietWhenFresh(cfg, Apply(cfg, w, s), steps[1..]);
    }
  }

  lemma PatchedIsStale(cfg: Config, w: World, s: Step)
    requires PatchOf(cfg, w, s).Some?
    ensures s.Check? && s.pod in StaleSet(w)
  {
    hide ReconcilePod, Stale;
    OnlyStaleIsPatched(w.pods[s.pod].obj, cfg, w.versions, s.faults);
  }

  /** Convergence: once as many stale pods were replaced as there were, every continuation is quiet. */
  lemma Converges(cfg: Config, w: World, steps: seq<Step>, rest: seq<Step>)
    requires Legal(cfg, w, steps) && Frozen(steps, w.versions) && AllHarmonious(w)
    requires StaleGoneIn(cfg, w, steps) == |StaleSet(w)|
    requires Legal(cfg, Run(cfg, w, steps), rest) && Frozen(rest, w.versions)
    ensures Patches(cfg, Run(cfg, w, steps), rest) == []
  {
    StalePodsConserved(cfg, w, steps);
    RunKeepsHarmony(cfg, w, steps);
    hide StaleSet, AllHarmonious, Frozen;
    QuietWhenFresh(cfg, Run(cfg, w, steps), rest) by { assert |StaleSet(Run(cfg, w, steps))| == 0; }
  }

  lemma {:induction false} RunKeepsHarmony(cfg: Config, w: World, steps: seq<Step>)
    requires Legal(cfg, w, steps) && Frozen(steps, w.versions) && AllHarmonious(w)
    ensures Run(cfg, w, steps).versions == w.versions && AllHarmonious(Run(cfg, w, steps))
    decreases |steps|
  {
    if steps != [] {
      FrozenStepEffect(cfg, w, steps[0]);
      hide Apply, Allowed, AllHarmonious, FrozenStep, StaleSet, StaleGone;
      RunKeepsHarmony(cfg, Apply(cfg, w, steps[0]), steps[1..]);
    }
  }

  // -------------------------------------------------------------------------- livelock

  /** A rotating workload with a supported owner, whose pods are stale as soon as they are admitted. */
  predicate Discordant(template: map<string, string>, ns: string, owners: seq<OwnerRef>, cfg: Config,
                       versions: VersionOracle)
  {
    && IntervalOf(template, cfg).Some?
    && !Harmonious(template, versions)
    && Supported(PodObject(ns, template, owners), cfg.replicaSets)
  }

  /** The workload such pods belong to. */
  function Workload(template: map<string, string>, ns: string, owners: seq<OwnerRef>, cfg: Config): Target
    requires Supported(PodObject(ns, template, owners), cfg.replicaSets)
  {
    RestartTarget(PodObject(ns, template, owners), cfg.replicaSets, false).value.value
  }

  /** Every error-free check of every pod admitted from it reaches the restart, however often it is replaced. */
  lemma DiscordantAlwaysPatched(template: map<string, string>, pod: PodObject, cfg: Config, versions: VersionOracle)
    requires Discordant(template, pod.ns, pod.owners, cfg, versions)
    requires pod.annotations == Admitted(template, versions)
    ensures Stale(pod.annotations, versions)
    ensures ReconcilePod(pod, cfg, versions, NO_FAULTS)
         == (Outcome(0, false), Some(Workload(template, pod.ns, pod.owners, cfg)))
  {
    FreshOnAdmissionIff(template, versions);
    AdmissionKeepsConfig(template, versions);
    PatchesIffStale(pod, cfg, versions);
    OnlyStaleIsPatched(pod, cfg, versions, NO_FAULTS);
    hide Stale, Harmonious, Admitted, ReconcilePod, EnabledKinds, ConfigPart, INJECTED_VERSION, ROTATION_INTERVAL;
  }

  /** A pod of this workload whose check is due now. */
  predicate DuePod(w: World, q: string, template: map<string, string>, ns: string, owners: seq<OwnerRef>) {
    q in w.pods
    && w.pods[q].template == template
    && w.pods[q].obj == PodObject(ns, Admitted(template, w.versions), owners)
    && w.pods[q].next == Some(w.now)
  }

  /** Versions stand still, API calls succeed, and pods go away only by being replaced. */
  ghost predicate Steady(steps: seq<Step>) {
    forall s :: s in steps ==> !s.Rotate? && !s.Remove? && (s.Check? ==> s.faults == NO_FAULTS)
  }

  lemma FirstPatchAppears(cfg: Config, w: World, steps: seq<Step>)
    requires Legal(cfg, w, steps) && steps != [] && PatchOf(cfg, w, steps[0]).Some?
    ensures PatchOf(cfg, w, steps[0]).value in Patches(cfg, w, steps)
  {
    hide Apply, PatchOf;
  }

  /** As long as such a pod is due and its workload has not been patched again, the clock stands still. */
  lemma {:induction false} DueHoldsTime(cfg: Config, w: World, steps: seq<Step>, q: string,
                                        template: map<string, string>, ns: string, owners: seq<OwnerRef>)
    requires Legal(cfg, w, steps) && Steady(steps) && DuePod(w, q, template, ns, owners)
    requires Discordant(template, ns, owners, cfg, w.versions)
    requires Workload(template, ns, owners, cfg) !in Patches(cfg, w, steps)
    ensures Run(cfg, w, steps).now == w.now
    decreases |steps|
  {
    if steps != [] {
      var s := steps[0];
      assert s in steps;
      hide Discordant, Workload, Supported, Admitted;
      if s.Check? && s.pod == q {
        DiscordantAlwaysPatched(template, w.pods[q].obj, cfg, w.versions);
        hide ReconcilePod;
        FirstPatchAppears(cfg, w, steps);
      } else {
        var w' := Apply(cfg, w, s);
        var q' := if s.Replace? && s.pod == q then s.successor else q;
        StillDue(cfg, w, s, q, q', template, ns, owners);
        hide Apply, Allowed, DuePod;
        assert forall x :: x in steps[1..] ==> x in steps;
        DueHoldsTime(cfg, w', steps[1..], q', template, ns, owners);
      }
    }
  }

  lemma StillDue(cfg: Config, w: World, s: Step, q: string, q': string,
                 template: map<string, string>, ns: string, owners: seq<OwnerRef>)
    requires Allowed(w, s) && DuePod(w, q, template, ns, owners)
    requires !s.Rotate? && !s.Remove? && !(s.Check? && s.pod == q)
    requires q' == if s.Replace? && s.pod == q then s.successor else q
    ensures DuePod(Apply(cfg, w, s), q', template, ns, owners)
    ensures Apply(cfg, w, s).now == w.now && Apply(cfg, w, s).versions == w.versions
  {
    hide Admitted, Checked;
  }

  /**
   * Livelock: after every replacement of a pod of a discordant workload, the workload is patched once
   * more before the clock moves on, so a run with replacements never becomes quiet.
   */
  lemma ReplacementIsRestartedAgain(cfg: Config, w: World, p: string, q: string, rest: seq<Step>)
    requires Legal(cfg, w, [Replace(p, q)] + rest) && Steady(rest)
    requires Discordant(w.pods[p].template, w.pods[p].obj.ns, w.pods[p].obj.owners, cfg, w.versions)
    requires Run(cfg, w, [Replace(p, q)] + rest).now > w.now
    ensures Workload(w.pods[p].template, w.pods[p].obj.ns, w.pods[p].obj.owners, cfg)
            in Patches(cfg, w, [Replace(p, q)] + rest)
  {
    var steps := [Replace(p, q)] + rest;
    assert steps[0] == Replace(p, q) && steps[1..] == rest;
    var rec := w.pods[p];
    var w' := Apply(cfg, w, steps[0]);
    assert DuePod(w', q, rec.template, rec.obj.ns, rec.obj.owners);
    hide DuePod, Discordant, Workload, Supported, Admitted;
    if Workload(rec.template, rec.obj.ns, rec.obj.owners, cfg) !in Patches(cfg, w', rest) {
      DueHoldsTime(cfg, w', rest, q, rec.template, rec.obj.ns, rec.obj.owners);
    }
  }
}
