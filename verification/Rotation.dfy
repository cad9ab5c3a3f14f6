/** The rotation controller: one reconciliation of one pod. */
module Rotation {
  import opened GoText
  import opened Providers
  import opened SecretConfigOrder
  import opened Webhook

  datatype OwnerRef = OwnerRef(kind: string, name: string)

  datatype PodObject = PodObject(ns: string, annotations: map<string, string>, owners: seq<OwnerRef>)

  /** The workload a restart annotation is patched onto. */
  datatype Target = Target(kind: string, ns: string, name: string)

  datatype Patch = Patch(target: Target, restartedAt: int)

  /** Owner references of the ReplicaSets, by namespace and name. */
  type ReplicaSets = map<(string, string), seq<OwnerRef>>

  /** Which API calls of this reconciliation fail. */
  datatype Faults = Faults(getPod: bool, getOwner: bool, patch: bool)

  const NO_FAULTS := Faults(false, false, false)

  /** `ctrl.Result` and the error beside it. */
  datatype Outcome = Outcome(requeueAfter: int, failed: bool)

  datatype Config = Config(parseDuration: string -> Option<int>, replicaSets: ReplicaSets)

  // ---------------------------------------------------------------- specification

  function RestartTarget(pod: PodObject, replicaSets: ReplicaSets, getOwnerFails: bool): Result<Option<Target>, ()> {
    if pod.owners == [] then Ok(None)
    else
      var owner := pod.owners[0];
      if owner.kind == "ReplicaSet" then
        var key := (pod.ns, owner.name);
        if getOwnerFails || key !in replicaSets then Err(())
        else if replicaSets[key] != [] && replicaSets[key][0].kind == "Deployment"
        then Ok(Some(Target("Deployment", pod.ns, replicaSets[key][0].name)))
        else Ok(None)
      else if owner.kind == "StatefulSet" || owner.kind == "DaemonSet" || owner.kind == "Deployment"
      then Ok(Some(Target(owner.kind, pod.ns, owner.name)))
      else Ok(None)
  }

  /**
   * The owner chain of the pod leads to this workload: its first owner itself, or the Deployment that is
   * the first owner of its ReplicaSet, in the pod's namespace.
   */
  predicate LeadsTo(pod: PodObject, replicaSets: ReplicaSets, t: Target) {
    && pod.owners != [] && t.ns == pod.ns
    && var owner := pod.owners[0];
       || (t.kind in {"StatefulSet", "DaemonSet", "Deployment"} && owner == OwnerRef(t.kind, t.name))
       || (t.kind == "Deployment" && owner.kind == "ReplicaSet" && (pod.ns, owner.name) in replicaSets
           && var above := replicaSets[(pod.ns, owner.name)]; above != [] && above[0] == OwnerRef("Deployment", t.name))
  }

  /** The controller has to read a ReplicaSet and cannot. */
  predicate OwnerUnreadable(pod: PodObject, replicaSets: ReplicaSets, getOwnerFails: bool) {
    pod.owners != [] && pod.owners[0].kind == "ReplicaSet"
    && (getOwnerFails || (pod.ns, pod.owners[0].name) !in replicaSets)
  }

  lemma TargetIff(pod: PodObject, replicaSets: ReplicaSets, getOwnerFails: bool, t: Target)
    ensures RestartTarget(pod, replicaSets, getOwnerFails) == Ok(Some(t)) <==>
            LeadsTo(pod, replicaSets, t) && !OwnerUnreadable(pod, replicaSets, getOwnerFails)
    ensures RestartTarget(pod, replicaSets, getOwnerFails).Err? <==> OwnerUnreadable(pod, replicaSets, getOwnerFails)
    ensures LeadsTo(pod, replicaSets, t) ==> !OwnerUnreadable(pod, replicaSets, false)
  {
  }

  /** The owner chain leads to a workload the controller knows how to restart. */
  predicate Supported(pod: PodObject, replicaSets: ReplicaSets) {
    var t := RestartTarget(pod, replicaSets, false);
    t.Ok? && t.value.Some?
  }

  datatype Comparison = AllAgree | Differs(kind: Kind) | Unknown(kind: Kind)

  /** The provider loop: stop at the first error or at the first version that differs from the baseline. */
  function Compare(kinds: seq<Kind>, a: map<string, string>, versions: VersionOracle, baseline: string): Comparison {
    if kinds == [] then AllAgree
    else
      match versions(kinds[0], ConfigPart(a))
      case VersionError => Unknown(kinds[0])
      case Version(v) =>
        if v != "" && v != baseline then Differs(kinds[0]) else Compare(kinds[1..], a, versions, baseline)
  }

  function Baseline(a: map<string, string>): string {
    Get(a, INJECTED_VERSION)
  }

  /** A provider reports a version other than the one the pod was injected with. */
  predicate Stale(a: map<string, string>, versions: VersionOracle) {
    Baseline(a) != "" && Compare(EnabledKinds(a), a, versions, Baseline(a)).Differs?
  }

  function IntervalOf(a: map<string, string>, cfg: Config): Option<int> {
    if Get(a, ROTATION_INTERVAL) == "" then None else cfg.parseDuration(Get(a, ROTATION_INTERVAL))
  }

  /** Result of a reconciliation, and the workload it patches. */
  function ReconcilePod(pod: PodObject, cfg: Config, versions: VersionOracle, faults: Faults)
    : (Outcome, Option<Target>)
  {
    if faults.getPod then (Outcome(0, true), None)
    else
      match IntervalOf(pod.annotations, cfg)
      case None => (Outcome(0, false), None)
      case Some(interval) =>
        if Baseline(pod.annotations) == "" then (Outcome(interval, false), None)
        else if EnabledKinds(pod.annotations) == [] then (Outcome(0, false), None)
        else
          match Compare(EnabledKinds(pod.annotations), pod.annotations, versions, Baseline(pod.annotations))
          case AllAgree => (Outcome(interval, false), None)
          case Unknown(_) => (Outcome(interval, true), None)
          case Differs(_) =>
            match RestartTarget(pod, cfg.replicaSets, faults.getOwner)
            case Err(_) => (Outcome(interval, true), None)
            case Ok(None) => (Outcome(0, false), None)
            case Ok(Some(t)) => if faults.patch then (Outcome(interval, true), None) else (Outcome(0, false), Some(t))
  }

  // ------------------------------------------------------------------- the Go code

  class Controller {
    var pods: map<string, PodObject>
    var replicaSets: ReplicaSets
    var patches: seq<Patch>

    constructor (pods: map<string, PodObject>, replicaSets: ReplicaSets)
      ensures this.pods == pods && this.replicaSets == replicaSets && patches == []
    {
      this.pods, this.replicaSets, patches := pods, replicaSets, [];
    }

    method TriggerRollingRestart(pod: PodObject, faults: Faults, now: int) returns (ok: bool)
      modifies this`patches
      ensures match RestartTarget(pod, replicaSets, faults.getOwner)
              case Err(_) => !ok && patches == old(patches)
              case Ok(None) => ok && patches == old(patches)
              case Ok(Some(t)) =>
                ok == !faults.patch && patches == if ok then old(patches) + [Patch(t, now)] else old(patches)
      ensures patches != old(patches) ==>
                exists t :: LeadsTo(pod, replicaSets, t) && patches == old(patches) + [Patch(t, now)]
    {
      if |pod.owners| == 0 {
        return true;
      }
      var owner := pod.owners[0];
      var target: Target;
      if owner.kind == "ReplicaSet" {
        if faults.getOwner || (pod.ns, owner.name) !in replicaSets {
          return false;
        }
        var owners := replicaSets[(pod.ns, owner.name)];
        if |owners| > 0 && owners[0].kind == "Deployment" {
          target := Target("Deployment", pod.ns, owners[0].name);
        } else {
          return true;
        }
      } else if owner.kind == "StatefulSet" {
        target := Target("StatefulSet", pod.ns, owner.name);
      } else if owner.kind == "DaemonSet" {
        target := Target("DaemonSet", pod.ns, owner.name);
      } else if owner.kind == "Deployment" {
        target := Target("Deployment", pod.ns, owner.name);
      } else {
        return true;
      }
      if faults.patch {
        return false;
      }
      TargetIff(pod, replicaSets, faults.getOwner, target);
      patches := patches + [Patch(target, now)];
      return true;
    }

    /** A pod that is gone is not an error; otherwise everything follows `ReconcilePod`. */
    method Reconcile(key: string, cfg: Config, versions: VersionOracle, faults: Faults, now: int)
      returns (result: Outcome)
      requires cfg.replicaSets == replicaSets
      modifies this`patches
      ensures if key !in pods then
                result == Outcome(0, faults.getPod) && patches == old(patches)
              else
                var (outcome, target) := ReconcilePod(pods[key], cfg, versions, faults);
                && result == outcome
                && patches == old(patches) + (if target.Some? then [Patch(target.value, now)] else [])
    {
      hide RestartTarget, ConfigPart, EnabledKinds;
      if faults.getPod {
        return Outcome(0, true);
      }
      if key !in pods {
        return Outcome(0, false);
      }
      var pod := pods[key];
      var a := pod.annotations;
      var intervalStr := Get(a, ROTATION_INTERVAL);
      if intervalStr == "" {
        return Outcome(0, false);
      }
      var interval := cfg.parseDuration(intervalStr);
      if interval.None? {
        return Outcome(0, false);
      }
      var injectedVersion := Get(a, INJECTED_VERSION);
      if injectedVersion == "" {
        return Outcome(interval.value, false);
      }
      var kinds := EnabledKinds(a);
      if |kinds| == 0 {
        return Outcome(0, false);
      }
      for i := 0 to |kinds|
        invariant patches == old(patches)
        invariant Compare(kinds[i..], a, versions, injectedVersion) == Compare(kinds, a, versions, injectedVersion)
      {
        assert kinds[i..][0] == kinds[i] && kinds[i..][1..] == kinds[i + 1..];
        var reply := versions(kinds[i], ConfigPart(a));
        if reply.VersionError? {
          return Outcome(interval.value, true);
        }
        if reply.version != "" && reply.version != injectedVersion {
          var ok := TriggerRollingRestart(pod, faults, now);
          if !ok {
            return Outcome(interval.value, true);
          }
          return Outcome(0, false);
        }
      }
      return Outcome(interval.value, false);
    }
  }

  // --------------------------------------------------- one reconciliation, characterised

  /** What the loop reports, without the loop: a version differs before any provider fails. */
  lemma {:induction false} DiffersIff(kinds: seq<Kind>, a: map<string, string>, versions: VersionOracle,
                                      baseline: string)
    ensures Compare(kinds, a, versions, baseline).Differs? <==>
            exists i :: 0 <= i < |kinds| && DiffersAt(kinds, i, a, versions, baseline)
    decreases |kinds|
  {
    hide ConfigPart;
    if kinds != [] {
      DiffersIff(kinds[1..], a, versions, baseline);
      forall i | 0 <= i < |kinds| - 1 && versions(kinds[0], ConfigPart(a)).Version?
        ensures DiffersAt(kinds[1..], i, a, versions, baseline) <==> DiffersAt(kinds, i + 1, a, versions, baseline)
      {
        DiffersShift(kinds, i, a, versions, baseline);
      }
      var reply := versions(kinds[0], ConfigPart(a));
      if reply.VersionError? {
        assert forall i :: 0 <= i < |kinds| ==> !DiffersAt(kinds, i, a, versions, baseline);
      } else if reply.version != "" && reply.version != baseline {
        assert DiffersAt(kinds, 0, a, versions, baseline);
      } else {
        if i :| 0 <= i < |kinds| && DiffersAt(kinds, i, a, versions, baseline) {
          assert DiffersAt(kinds[1..], i - 1, a, versions, baseline);
        }
        if i :| 0 <= i < |kinds| - 1 && DiffersAt(kinds[1..], i, a, versions, baseline) {
          assert DiffersAt(kinds, i + 1, a, versions, baseline);
        }
      }
    }
  }

  predicate DiffersAt(kinds: seq<Kind>, i: int, a: map<string, string>, versions: VersionOracle, baseline: string)
    requires 0 <= i < |kinds|
  {
    && (forall k :: 0 <= k < i ==> versions(kinds[k], ConfigPart(a)).Version?)
    && var reply := versions(kinds[i], ConfigPart(a));
       reply.Version? && reply.version != "" && reply.version != baseline
  }

  lemma DiffersShift(kinds: seq<Kind>, i: int, a: map<string, string>, versions: VersionOracle, baseline: string)
    requires 0 <= i < |kinds| - 1 && versions(kinds[0], ConfigPart(a)).Version?
    ensures DiffersAt(kinds[1..], i, a, versions, baseline) <==> DiffersAt(kinds, i + 1, a, versions, baseline)
  {
    hide ConfigPart;
    assert kinds[1..][i] == kinds[i + 1];
    if DiffersAt(kinds[1..], i, a, versions, baseline) {
      forall k | 0 <= k < i + 1 ensures versions(kinds[k], ConfigPart(a)).Version? {
        if k > 0 { assert kinds[1..][k - 1] == kinds[k]; }
      }
    }
    if DiffersAt(kinds, i + 1, a, versions, baseline) {
      forall k | 0 <= k < i ensures versions(kinds[1..][k], ConfigPart(a)).Version? {
        assert kinds[1..][k] == kinds[k + 1];
      }
    }
  }

  /**
   * Soundness and completeness of one check: without faults, an owner is patched exactly when a
   * supported pod is stale.
   */
  lemma PatchesIffStale(pod: PodObject, cfg: Config, versions: VersionOracle)
    requires IntervalOf(pod.annotations, cfg).Some?
    ensures ReconcilePod(pod, cfg, versions, NO_FAULTS).1.Some? <==>
            Stale(pod.annotations, versions) && Supported(pod, cfg.replicaSets)
  {
    hide RestartTarget, EnabledKinds;
    if EnabledKinds(pod.annotations) == [] {
      assert Compare([], pod.annotations, versions, Baseline(pod.annotations)) == AllAgree;
    }
  }

  /** No fault can make the controller patch an owner whose pod is not stale. */
  lemma OnlyStaleIsPatched(pod: PodObject, cfg: Config, versions: VersionOracle, faults: Faults)
    requires ReconcilePod(pod, cfg, versions, faults).1.Some?
    ensures Stale(pod.annotations, versions) && Supported(pod, cfg.replicaSets)
    ensures ReconcilePod(pod, cfg, versions, faults)
         == (Outcome(0, false), RestartTarget(pod, cfg.replicaSets, false).value)
  {
    hide EnabledKinds, ConfigPart;
  }

  /**
   * Which workload is patched, said of the owner chain alone: under any faults the one it leads to, and
   * without faults that one exactly when the pod is stale.
   */
  lemma PatchedWorkloadIff(pod: PodObject, cfg: Config, versions: VersionOracle, faults: Faults, t: Target)
    ensures ReconcilePod(pod, cfg, versions, faults).1 == Some(t) ==>
              LeadsTo(pod, cfg.replicaSets, t) && Stale(pod.annotations, versions)
    ensures IntervalOf(pod.annotations, cfg).Some? ==>
              (ReconcilePod(pod, cfg, versions, NO_FAULTS).1 == Some(t) <==>
               Stale(pod.annotations, versions) && LeadsTo(pod, cfg.replicaSets, t))
  {
    TargetIff(pod, cfg.replicaSets, faults.getOwner, t);
    TargetIff(pod, cfg.replicaSets, false, t);
    NoKindsAreFresh(pod.annotations, versions);
    hide RestartTarget, EnabledKinds, LeadsTo, Compare;
  }

  lemma NoKindsAreFresh(a: map<string, string>, versions: VersionOracle)
    ensures EnabledKinds(a) == [] ==> !Stale(a, versions)
  {
    hide EnabledKinds;
  }

  /** A provider fails before any other version differs. */
  ghost predicate FailsFirst(kinds: seq<Kind>, a: map<string, string>, versions: VersionOracle, baseline: string) {
    exists i :: 0 <= i < |kinds| && versions(kinds[i], ConfigPart(a)) == VersionError
                && forall k :: 0 <= k < i ==> versions(kinds[k], ConfigPart(a)) in {Version(""), Version(baseline)}
  }

  lemma {:induction false} UnknownIff(kinds: seq<Kind>, a: map<string, string>, versions: VersionOracle,
                                      baseline: string)
    ensures Compare(kinds, a, versions, baseline).Unknown? <==> FailsFirst(kinds, a, versions, baseline)
    decreases |kinds|
  {
    hide ConfigPart;
    if kinds != [] {
      UnknownIff(kinds[1..], a, versions, baseline);
      var reply := versions(kinds[0], ConfigPart(a));
      if reply in {Version(""), Version(baseline)} {
        if i :| 0 <= i < |kinds| && versions(kinds[i], ConfigPart(a)) == VersionError
                && forall k :: 0 <= k < i ==> versions(kinds[k], ConfigPart(a)) in {Version(""), Version(baseline)}
        {
          assert versions(kinds[1..][i - 1], ConfigPart(a)) == VersionError;
          assert forall k :: 0 <= k < i - 1 ==> kinds[1..][k] == kinds[k + 1];
        }
        if FailsFirst(kinds[1..], a, versions, baseline) {
          var i :| 0 <= i < |kinds[1..]| && versions(kinds[1..][i], ConfigPart(a)) == VersionError
                   && forall k :: 0 <= k < i ==> versions(kinds[1..][k], ConfigPart(a)) in {Version(""),
                       Version(baseline)};
          assert forall k :: 0 < k < i + 1 ==> kinds[k] == kinds[1..][k - 1];
          assert versions(kinds[i + 1], ConfigPart(a)) == VersionError;
        }
      }
    }
  }

  /**
   * How a check ends: when it counts as failed, and what it asks the queue for. Only a check that got as
   * far as a stale pod, or that found no provider, lets the interval go.
   */
  lemma CheckOutcome(pod: PodObject, cfg: Config, versions: VersionOracle, faults: Faults)
    ensures var a := pod.annotations;
            var text := Get(a, "vault.opstree.secret.manager/rotation-interval");
            var baseline := Get(a, "vault.opstree.secret.manager/injected-version");
            var timed := !faults.getPod && text != "" && cfg.parseDuration(text).Some?;
            var compared := timed && baseline != "" && EnabledKinds(a) != [];
            var outcome := ReconcilePod(pod, cfg, versions, faults).0;
            && (outcome.failed <==>
                  faults.getPod
                  || (compared && FailsFirst(EnabledKinds(a), a, versions, baseline))
                  || (compared && Stale(a, versions)
                      && (OwnerUnreadable(pod, cfg.replicaSets, faults.getOwner)
                          || (faults.patch && exists t :: LeadsTo(pod, cfg.replicaSets, t)))))
            && outcome.requeueAfter
               == if timed && (compared || baseline == "") && (outcome.failed || !Stale(a, versions))
                  then cfg.parseDuration(text).value else 0
  {
    UnknownIff(EnabledKinds(pod.annotations), pod.annotations, versions, Baseline(pod.annotations));
    var target := RestartTarget(pod, cfg.replicaSets, faults.getOwner);
    forall t ensures target == Ok(Some(t)) <==>
                     LeadsTo(pod, cfg.replicaSets, t) && !OwnerUnreadable(pod, cfg.replicaSets, faults.getOwner)
    {
      TargetIff(pod, cfg.replicaSets, faults.getOwner, t);
    }
    TargetIff(pod, cfg.replicaSets, faults.getOwner, Target("", "", ""));
    hide RestartTarget, EnabledKinds, LeadsTo, OwnerUnreadable, Compare, FailsFirst, ConfigPart;
    if target.Ok? && target.value.Some? { assert LeadsTo(pod, cfg.replicaSets, target.value.value); }
  }

  /** The recorded baseline is not among the annotations that configure or enable a provider. */
  lemma BaselineLeavesConfigAlone(a: map<string, string>, first: Kind, versions: VersionOracle)
    ensures ConfigPart(WithBaseline(a, first, versions)) == ConfigPart(a)
    ensures EnabledKinds(WithBaseline(a, first, versions)) == EnabledKinds(a)
    ensures Get(WithBaseline(a, first, versions), ROTATION_INTERVAL) == Get(a, ROTATION_INTERVAL)
    ensures forall k :: k in ConfigPart(a) <==> k in a && k != "vault.opstree.secret.manager/injected-version"
    ensures forall k :: k in ConfigPart(a) ==> ConfigPart(a)[k] == a[k]
  {
    var b := WithBaseline(a, first, versions);
    forall k: Kind ensures KindEnabled(k, b) == KindEnabled(k, a) {
      KeysDiffer(k);
    }
    KeysDiffer(first);
    SameEnabled(FACTORIES, a, b);
  }

  lemma KeysDiffer(k: Kind)
    ensures EnabledKey(k) != INJECTED_VERSION && ROTATION_INTERVAL != INJECTED_VERSION
  {
    assert |EnabledKey(VaultKind)| == 36 && |EnabledKey(AwsKind)| == 34 && |EnabledKey(AzureKind)| == 36
        && |EnabledKey(GcpKind)| == 34;
    assert |INJECTED_VERSION| == 45 && |ROTATION_INTERVAL| == 46;
  }

  lemma {:induction false} SameEnabled(kinds: seq<Kind>, a: map<string, string>, b: map<string, string>)
    requires forall k: Kind :: KindEnabled(k, b) == KindEnabled(k, a)
    ensures Filter(kinds, b) == Filter(kinds, a)
    decreases |kinds|
  {
    hide KindEnabled;
    if kinds != [] {
      SameEnabled(kinds[..|kinds| - 1], a, b);
    }
  }

  // ------------------------------------------------- what admission does to the baseline

  /** Annotations of a freshly admitted pod. */
  function Admitted(template: map<string, string>, versions: VersionOracle): map<string, string> {
    var kinds := EnabledKinds(template);
    if kinds == [] then template else WithBaseline(template, kinds[0], versions)
  }

  /** This is the baseline the webhook writes: its first enabled provider is the first enabled kind. */
  lemma WebhookRecordsBaseline(a: map<string, string>, rt: Runtime, versions: VersionOracle)
    ensures EnabledProviders(a, rt) == [] <==> EnabledKinds(a) == []
    ensures EnabledProviders(a, rt) != [] ==>
              Admitted(a, versions) == WithBaseline(a, EnabledProviders(a, rt)[0].Kind(), versions)
  {
    hide EnabledKinds, WithBaseline;
    var kinds := EnabledKinds(a);
    if kinds != [] {
      EnabledByAnnotation(kinds[0], a, rt);
    }
  }

  predicate Reports(k: Kind, a: map<string, string>, versions: VersionOracle) {
    var reply := versions(k, ConfigPart(a));
    reply.Version? && reply.version != ""
  }

  /** Every provider the loop would reach and that reports a version reports the first provider's. */
  predicate AgreeWithFirst(a: map<string, string>, versions: VersionOracle) {
    var kinds := EnabledKinds(a);
    kinds != [] && Reports(kinds[0], a, versions) ==>
      forall i :: 0 <= i < |kinds| && (forall k :: 0 <= k < i ==> versions(kinds[k], ConfigPart(a)).Version?)
                  && Reports(kinds[i], a, versions)
        ==> versions(kinds[i], ConfigPart(a)) == versions(kinds[0], ConfigPart(a))
  }

  /**
   * The baseline an admitted pod ends up with: the first provider's version if one is recorded, else the
   * template's own.
   */
  function EffectiveBaseline(template: map<string, string>, versions: VersionOracle): string {
    var kinds := EnabledKinds(template);
    if kinds != [] && ROTATION_INTERVAL in template && Reports(kinds[0], template, versions)
    then versions(kinds[0], ConfigPart(template)).version
    else Baseline(template)
  }

  /** There is no baseline, or every provider the loop would reach and that reports a version reports just that. */
  predicate NoneDiffers(a: map<string, string>, versions: VersionOracle, baseline: string) {
    var kinds := EnabledKinds(a);
    baseline == "" ||
    forall i :: 0 <= i < |kinds| && (forall k :: 0 <= k < i ==> versions(kinds[k], ConfigPart(a)).Version?)
                && Reports(kinds[i], a, versions)
      ==> versions(kinds[i], ConfigPart(a)) == Version(baseline)
  }

  /** A template whose pods are fresh when they are admitted under these versions. */
  predicate Harmonious(template: map<string, string>, versions: VersionOracle) {
    NoneDiffers(template, versions, EffectiveBaseline(template, versions))
  }

  lemma AdmittedBaseline(template: map<string, string>, versions: VersionOracle)
    ensures Baseline(Admitted(template, versions)) == EffectiveBaseline(template, versions)
  {
    hide ConfigPart, INJECTED_VERSION, ROTATION_INTERVAL, EnabledKinds;
  }

  lemma AdmissionKeepsConfig(template: map<string, string>, versions: VersionOracle)
    ensures EnabledKinds(Admitted(template, versions)) == EnabledKinds(template)
    ensures ConfigPart(Admitted(template, versions)) == ConfigPart(template)
    ensures Get(Admitted(template, versions), ROTATION_INTERVAL) == Get(template, ROTATION_INTERVAL)
  {
    var kinds := EnabledKinds(template);
    if kinds != [] {
      BaselineLeavesConfigAlone(template, kinds[0], versions);
      hide EnabledKinds, WithBaseline, ConfigPart;
    }
  }

  /** A pod is fresh right after admission exactly when no reporting provider differs from its effective baseline. */
  lemma FreshOnAdmissionIff(template: map<string, string>, versions: VersionOracle)
    ensures !Stale(Admitted(template, versions), versions) <==> Harmonious(template, versions)
  {
    hide EnabledKinds, ConfigPart, Compare, Baseline, Admitted, EffectiveBaseline, INJECTED_VERSION, ROTATION_INTERVAL;
    var kinds := EnabledKinds(template);
    var a := Admitted(template, versions);
    var baseline := EffectiveBaseline(template, versions);
    AdmissionKeepsConfig(template, versions);
    AdmittedBaseline(template, versions);
    DiffersIff(kinds, a, versions, baseline);
    if baseline != "" {
      forall i | 0 <= i < |kinds|
        ensures DiffersAt(kinds, i, a, versions, baseline) <==>
                (forall k :: 0 <= k < i ==> versions(kinds[k], ConfigPart(template)).Version?)
                && Reports(kinds[i], template, versions)
                && versions(kinds[i], ConfigPart(template)) != Version(baseline)
      {
      }
    }
  }

  /** When the baseline is recorded from the first provider, harmony is agreement with that provider. */
  lemma HarmonyIsAgreement(template: map<string, string>, versions: VersionOracle)
    requires var kinds := EnabledKinds(template);
             kinds != [] && ROTATION_INTERVAL in template && Reports(kinds[0], template, versions)
    ensures Harmonious(template, versions) <==> AgreeWithFirst(template, versions)
  {
    hide EnabledKinds, ConfigPart, ROTATION_INTERVAL;
  }

  /** Two reachable providers with different versions cannot both match a baseline, whichever two they are. */
  lemma DifferentVersionsAreDiscord(a: map<string, string>, versions: VersionOracle, i: nat, j: nat)
    requires EffectiveBaseline(a, versions) != ""
    requires var kinds := EnabledKinds(a);
             && i < |kinds| && j < |kinds|
             && (forall k :: 0 <= k < |kinds| ==> versions(kinds[k], ConfigPart(a)).Version?)
             && Reports(kinds[i], a, versions) && Reports(kinds[j], a, versions)
             && versions(kinds[i], ConfigPart(a)) != versions(kinds[j], ConfigPart(a))
    ensures !Harmonious(a, versions)
  {
    hide EnabledKinds, ConfigPart, EffectiveBaseline;
  }

  /** Without a recorded baseline a pod is queued again and again, and never compared with anything. */
  lemma UnrecordedIsNeverCompared(template: map<string, string>, atAdmission: VersionOracle, pod: PodObject,
                                  cfg: Config, later: VersionOracle, faults: Faults)
    requires EffectiveBaseline(template, atAdmission) == "" && pod.annotations == Admitted(template, atAdmission)
    requires IntervalOf(template, cfg).Some? && !faults.getPod
    ensures ReconcilePod(pod, cfg, later, faults) == (Outcome(IntervalOf(template, cfg).value, false), None)
  {
    AdmittedBaseline(template, atAdmission);
    AdmissionKeepsConfig(template, atAdmission);
    hide Admitted, EffectiveBaseline, ConfigPart, EnabledKinds, Compare, RestartTarget;
  }

  /** Whether such a pod can ever be restarted, under any later versions and faults, depends on its baseline alone. */
  lemma NeverPatchedIffNoBaseline(pod: PodObject, cfg: Config)
    requires IntervalOf(pod.annotations, cfg).Some? && EnabledKinds(pod.annotations) != []
        && Supported(pod, cfg.replicaSets)
    ensures (forall versions, faults :: ReconcilePod(pod, cfg, versions, faults).1.None?)
        <==> Baseline(pod.annotations) == ""
  {
    hide EnabledKinds, ConfigPart, RestartTarget, IntervalOf;
    var baseline := Baseline(pod.annotations);
    if baseline != "" {
      var changed: VersionOracle := (k: Kind, a: map<string, string>) => Version(baseline + "+");
      assert |baseline + "+"| == |baseline| + 1;
      assert Stale(pod.annotations, changed);
      PatchesIffStale(pod, cfg, changed);
      assert ReconcilePod(pod, cfg, changed, NO_FAULTS).1.Some?;
    }
  }

  /** The versions the providers report today: fixed strings, and not all the same one. */
  const STUB_VERSIONS: VersionOracle :=
    (k: Kind, a: map<string, string>) => Version(if k == AwsKind then "AWSCURRENT" else "1")

  lemma StubAgreement(a: map<string, string>)
    ensures AgreeWithFirst(a, STUB_VERSIONS) <==>
            forall i :: 0 <= i < |EnabledKinds(a)| ==>
              (EnabledKinds(a)[i] == AwsKind <==> EnabledKinds(a)[0] == AwsKind)
  {
    assert |"AWSCURRENT"| == 10 && |"1"| == 1;
    hide EnabledKinds, ConfigPart;
    var kinds := EnabledKinds(a);
    assert forall i :: 0 <= i < |kinds| ==> Reports(kinds[i], a, STUB_VERSIONS);
    if i :| 0 <= i < |kinds| && (kinds[i] == AwsKind) != (kinds[0] == AwsKind) {
      assert Reports(kinds[i], a, STUB_VERSIONS) && Reports(kinds[0], a, STUB_VERSIONS);
      assert STUB_VERSIONS(kinds[i], ConfigPart(a)) != STUB_VERSIONS(kinds[0], ConfigPart(a));
      assert !AgreeWithFirst(a, STUB_VERSIONS);
    }
  }

  lemma EnabledKindsMembers(a: map<string, string>, k: Kind)
    ensures k in EnabledKinds(a) <==> KindEnabled(k, a)
  {
    FilterInOrder(FACTORIES, a);
    assert FACTORIES[Rank(k)] == k;
  }

  lemma AllOrNoneIff(kinds: seq<Kind>)
    ensures (forall i :: 0 <= i < |kinds| ==> (kinds[i] == AwsKind <==> kinds[0] == AwsKind)) <==>
            !(AwsKind in kinds && (VaultKind in kinds || AzureKind in kinds || GcpKind in kinds))
  {
    if AwsKind in kinds {
      var i :| 0 <= i < |kinds| && kinds[i] == AwsKind;
      if j :| 0 <= j < |kinds| && kinds[j] != AwsKind {
        assert kinds[j] in kinds;
      }
    }
  }

  /** With them, AWS agrees with no other backend. */
  lemma StubsAgreeIff(a: map<string, string>)
    ensures AgreeWithFirst(a, STUB_VERSIONS) <==>
            !(KindEnabled(AwsKind, a)
              && (KindEnabled(VaultKind, a) || KindEnabled(AzureKind, a) || KindEnabled(GcpKind, a)))
  {
    hide EnabledKinds, KindEnabled, AgreeWithFirst;
    StubAgreement(a);
    AllOrNoneIff(EnabledKinds(a));
    EnabledKindsMembers(a, VaultKind);
    EnabledKindsMembers(a, AwsKind);
    EnabledKindsMembers(a, AzureKind);
    EnabledKindsMembers(a, GcpKind);
  }
}
