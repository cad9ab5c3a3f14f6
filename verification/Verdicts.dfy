/** The verdict of an admission, told from the namespace, the annotations and what the lookups answer. */
module Verdicts {
  import opened GoText
  import opened Kube
  import opened Providers
  import opened SecretConfigOrder
  import opened Webhook

  // -------------------------------------------------------------- what the annotations say

  predicate Truthy(text: string) {
    text in {"1", "t", "T", "true", "TRUE", "True"}
  }

  predicate AsksForVault(a: map<string, string>) {
    Truthy(Get(a, "vault.opstree.secret.manager/enabled"))
  }

  predicate AsksForAws(a: map<string, string>) {
    Truthy(Get(a, "aws.opstree.secret.manager/enabled"))
  }

  predicate AsksForAzure(a: map<string, string>) {
    Truthy(Get(a, "azure.opstree.secret.manager/enabled"))
  }

  predicate AsksForGcp(a: map<string, string>) {
    Truthy(Get(a, "gcp.opstree.secret.manager/enabled"))
  }

  /** The backends asked for, in the order they are registered. */
  function AskedFor(a: map<string, string>): seq<Kind> {
    (if AsksForVault(a) then [VaultKind] else []) + (if AsksForAws(a) then [AwsKind] else [])
    + (if AsksForAzure(a) then [AzureKind] else []) + (if AsksForGcp(a) then [GcpKind] else [])
  }

  /** A required annotation of this backend is missing or empty. */
  ghost predicate Lacks(k: Kind, a: map<string, string>) {
    match k
    case VaultKind =>
      || Get(a, "vault.opstree.secret.manager/service") == ""
      || (Get(a, "vault.opstree.secret.manager/path") == ""
          && forall key :: key in a ==> !("vault.opstree.secret.manager/secret-config-" <= key))
      || Get(a, "vault.opstree.secret.manager/role") == ""
      || (Get(a, "vault.opstree.secret.manager/tls-secret") != ""
          && Get(a, "vault.opstree.secret.manager/ca-cert") == "")
    case AwsKind => Get(a, "aws.opstree.secret.manager/secret-name") == ""
    case AzureKind => Get(a, "azure.opstree.secret.manager/vault-name") == ""
    case GcpKind =>
      Get(a, "gcp.opstree.secret.manager/project-id") == "" || Get(a, "gcp.opstree.secret.manager/secret-name") == ""
  }

  lemma AskedForIsEnabled(a: map<string, string>)
    ensures EnabledKinds(a) == AskedFor(a)
  {
    assert Filter(FACTORIES[..0], a) == [];
    assert FACTORIES[..1][..0] == FACTORIES[..0] && FACTORIES[..2][..1] == FACTORIES[..1];
    assert FACTORIES[..3][..2] == FACTORIES[..2] && FACTORIES[..4][..3] == FACTORIES[..3];
    assert FACTORIES[..4] == FACTORIES;
    hide Get, AsksForVault, AsksForAws, AsksForAzure, AsksForGcp, KindEnabled;
    KindsAsked(a);
    var ones := if AsksForVault(a) then [VaultKind] else [];
    assert Filter(FACTORIES[..1], a) == ones;
    var twos := ones + if AsksForAws(a) then [AwsKind] else [];
    assert Filter(FACTORIES[..2], a) == twos;
    var threes := twos + if AsksForAzure(a) then [AzureKind] else [];
    assert Filter(FACTORIES[..3], a) == threes;
    assert Filter(FACTORIES[..4], a) == threes + if AsksForGcp(a) then [GcpKind] else [];
  }

  lemma KindsAsked(a: map<string, string>)
    ensures KindEnabled(VaultKind, a) == AsksForVault(a) && KindEnabled(AwsKind, a) == AsksForAws(a)
    ensures KindEnabled(AzureKind, a) == AsksForAzure(a) && KindEnabled(GcpKind, a) == AsksForGcp(a)
  {
    hide Get;
  }

  lemma ConfigsMissingIff(a: map<string, string>, rt: Runtime)
    requires Sound(rt, a.Keys)
    ensures ValuesAt(a, SortedKeys(rt)) == [] <==>
            forall key :: key in a ==> !("vault.opstree.secret.manager/secret-config-" <= key)
  {
    assert PREFIX == "vault.opstree.secret.manager/secret-config-";
    ValueBehindEachKey(a, SortedKeys(rt));
    SortedKeysShape(rt, a.Keys);
    hide PREFIX, SortedKeys, ValuesAt, Sound, AllOnce, SortedByNumber;
    var keys := SortedKeys(rt);
    assert keys != [] ==> keys[0] in keys;
  }

  lemma ValidateIff(k: Kind, a: map<string, string>, rt: Runtime)
    requires Sound(rt, a.Keys)
    ensures FromAnnotations(k, a, rt).Validate().Some? <==> Lacks(k, a)
  {
    if k == VaultKind { ConfigsMissingIff(a, rt); }
    hide PREFIX, SortedKeys, ValuesAt, Sound, Get, EnabledKey, ParseBool;
  }

  // ------------------------------------------------------------- what the containers need

  function ImageError(c: Container, reply: ImageReply): Option<Error> {
    if c.command == [] && reply.Err? then Some(reply.error) else None
  }

  /** All errors preparing this container can meet, in the order they are met. */
  function ErrorsOf(c: Container, cluster: Cluster, reply: ImageReply): seq<Option<Error>> {
    EntryErrors(c.envFrom, cluster) + VarErrors(c.env, cluster) + [ImageError(c, reply)]
  }

  lemma FirstErrorStops(c: Container, cluster: Cluster, reply: ImageReply)
    ensures FirstErrorDecides(ErrorsOf(c, cluster, reply), Trouble(c, cluster, reply))
  {
    var from := FromEntries(c.envFrom, cluster, []);
    var start := if from.Ok? then from.value else [];
    FirstEntryErrorDecides(c.envFrom, cluster, []);
    FirstVarErrorDecides(c.env, cluster, start);
    OneErrorDecides(ImageError(c, reply));
    var own := FromEnv(c.env, cluster, start);
    hide FromEntries, FromEnv, EntryErrors, VarErrors, FirstErrorDecides;
    FirstErrorJoins(EntryErrors(c.envFrom, cluster), VarErrors(c.env, cluster), ErrorIn(from), ErrorIn(own));
    FirstErrorJoins(EntryErrors(c.envFrom, cluster) + VarErrors(c.env, cluster), [ImageError(c, reply)],
                    if ErrorIn(from).Some? then ErrorIn(from) else ErrorIn(own), ImageError(c, reply));
  }

  function ErrorsOfAll(cs: seq<Container>, cluster: Cluster, images: nat -> ImageReply): seq<Option<Error>> {
    if cs == [] then []
    else
      var n := |cs| - 1;
      ErrorsOfAll(cs[..n], cluster, images) + ErrorsOf(cs[n], cluster, images(n))
  }

  lemma {:induction false} LoopStopsAtFirstError(cs: seq<Container>, cluster: Cluster, images: nat -> ImageReply)
    ensures FirstErrorDecides(ErrorsOfAll(cs, cluster, images), ErrorOf(cs, cluster, images))
    decreases |cs|
  {
    hide Trouble, ErrorsOf, FirstErrorDecides;
    if cs == [] {
      assert FirstErrorDecides([], None) by { NoErrorsAtAll(); }
    } else {
      var n := |cs| - 1;
      LoopStopsAtFirstError(cs[..n], cluster, images);
      FirstErrorStops(cs[n], cluster, images(n));
      OneContainerMore(cs, cluster, images);
      hide ErrorOf;
      FirstErrorJoins(ErrorsOfAll(cs[..n], cluster, images), ErrorsOf(cs[n], cluster, images(n)),
                      ErrorOf(cs[..n], cluster, images), Trouble(cs[n], cluster, images(n)));
    }
  }

  lemma NoErrorsAtAll()
    ensures FirstErrorDecides([], None)
  {
  }

  lemma OneContainerMore(cs: seq<Container>, cluster: Cluster, images: nat -> ImageReply)
    requires cs != []
    ensures var n := |cs| - 1;
            ErrorOf(cs, cluster, images)
            == if ErrorOf(cs[..n], cluster, images).Some? then ErrorOf(cs[..n], cluster, images)
               else Trouble(cs[n], cluster, images(n))
  {
    hide Trouble;
    var n := |cs| - 1;
    var i, j := FirstTrouble(cs[..n], cluster, images), FirstTrouble(cs, cluster, images);
    assert i < n ==> i == j;
    assert i == n ==> j >= n;
  }

  // -------------------------------------------------------------------------- the verdict

  /** Nothing is to be done: the namespace is excluded, the pod opts out, or no backend is asked for. */
  predicate LeftAlone(a: map<string, string>, ns: string, settings: Settings) {
    || (exists e :: e in settings.excludedNamespaces && settings.equalFold(e, ns))
    || settings.equalFold(Get(a, "vault.opstree.secret.manager/opt-out"), "true")
    || (!AsksForVault(a) && !AsksForAws(a) && !AsksForAzure(a) && !AsksForGcp(a))
  }

  /** The pod, once its init containers are prepared before its containers. */
  function ErrorsOfPod(v: PodValue, cluster: Cluster, images: Images): seq<Option<Error>> {
    ErrorsOfAll(v.init, cluster, images.ofInit) + ErrorsOfAll(v.app, cluster, images.ofApp)
  }

  lemma FirstLacking(a: map<string, string>, rt: Runtime, i: nat)
    requires Sound(rt, a.Keys) && i < |AskedFor(a)|
    ensures |EnabledProviders(a, rt)| == |AskedFor(a)|
    ensures FirstInvalid(EnabledProviders(a, rt)) == i <==>
            Lacks(AskedFor(a)[i], a) && forall k :: 0 <= k < i ==> !Lacks(AskedFor(a)[k], a)
  {
    AskedForIsEnabled(a);
    hide AskedFor, Lacks, FromAnnotations, Provider.Validate, EnabledKinds, Sound;
    var ps := EnabledProviders(a, rt);
    forall k | 0 <= k < |ps| ensures ps[k].Validate().Some? <==> Lacks(AskedFor(a)[k], a) {
      ValidateIff(AskedFor(a)[k], a, rt);
    }
  }

  /**
   * Every verdict, exactly. Skipped and Invalid leave the pod as it was; Invalid names the first backend
   * asked for that lacks a required annotation, and MutationFailed the first error its containers meet.
   */
  lemma VerdictIff(v: PodValue, ns: string, rt: Runtime, settings: Settings, cluster: Cluster, images: Images,
                   versions: VersionOracle, m: PodValue, verdict: Verdict, i: nat)
    requires Sound(rt, v.annotations.Keys)
    requires Admission(v, ns, rt, settings, cluster, images, versions) == (m, verdict)
    ensures verdict.Skipped? <==> LeftAlone(v.annotations, ns, settings)
    ensures verdict.Skipped? || verdict.Invalid? ==> m == v
    ensures var ks := AskedFor(v.annotations);
            && (verdict == Invalid(i) <==>
                  !LeftAlone(v.annotations, ns, settings)
                  && i < |ks| && Lacks(ks[i], v.annotations) && forall k :: 0 <= k < i ==> !Lacks(ks[k], v.annotations))
            && (verdict.MutationFailed? || verdict.Mutated? <==>
                  !LeftAlone(v.annotations, ns, settings)
                  && forall k :: 0 <= k < |ks| ==> !Lacks(ks[k], v.annotations))
    ensures verdict.MutationFailed? ==> FirstErrorDecides(ErrorsOfPod(v, cluster, images), Some(verdict.error))
    ensures verdict.Mutated? ==> NoErrors(ErrorsOfPod(v, cluster, images))
  {
    var a := v.annotations;
    var ps := EnabledProviders(a, rt);
    var ks := AskedFor(a);
    AskedForIsEnabled(a);
    GateIff(a, ns, settings);
    if i < |ks| { FirstLacking(a, rt, i); }
    forall k: nat | k < |ks|
      ensures FirstInvalid(ps) == k <==> Lacks(ks[k], a) && forall l :: 0 <= l < k ==> !Lacks(ks[l], a)
    {
      FirstLacking(a, rt, k);
    }
    AnyLacking(ks, a, FirstInvalid(ps));
    PodStopsAtFirstError(v, ps, settings, cluster, images);
    hide EnabledProviders, FirstInvalid, MutatedPod, Excluded, OptedOut, AskedFor, Lacks, LeftAlone, WithBaseline,
        ErrorsOfPod;
    hide Sound, EnabledKinds, Provider.Kind;
  }

  lemma AnyLacking(ks: seq<Kind>, a: map<string, string>, j: nat)
    requires forall k: nat | k < |ks| :: j == k <==> Lacks(ks[k], a) && forall l :: 0 <= l < k ==> !Lacks(ks[l], a)
    ensures j >= |ks| <==> forall k :: 0 <= k < |ks| ==> !Lacks(ks[k], a)
  {
    hide Lacks;
    assert j < |ks| ==> Lacks(ks[j], a);
    if k: nat :| k < |ks| && Lacks(ks[k], a) {
      var f := FirstLackingIndex(ks, a, k);
    }
  }

  lemma {:induction false} FirstLackingIndex(ks: seq<Kind>, a: map<string, string>, k: nat) returns (f: nat)
    requires k < |ks| && Lacks(ks[k], a)
    ensures f <= k && Lacks(ks[f], a) && forall l :: 0 <= l < f ==> !Lacks(ks[l], a)
    decreases k
  {
    hide Lacks;
    if forall l :: 0 <= l < k ==> !Lacks(ks[l], a) {
      f := k;
    } else {
      var l :| 0 <= l < k && Lacks(ks[l], a);
      f := FirstLackingIndex(ks, a, l);
    }
  }

  lemma GateIff(a: map<string, string>, ns: string, settings: Settings)
    ensures LeftAlone(a, ns, settings) <==> Excluded(settings, ns) || OptedOut(settings, a) || AskedFor(a) == []
  {
    hide Get;
  }

  lemma PodStopsAtFirstError(v: PodValue, ps: seq<Provider>, settings: Settings, cluster: Cluster, images: Images)
    ensures FirstErrorDecides(ErrorsOfPod(v, cluster, images), MutatedPod(v, ps, settings, cluster, images).1)
  {
    LoopStopsAtFirstError(v.init, cluster, images.ofInit);
    LoopStopsAtFirstError(v.app, cluster, images.ofApp);
    hide ErrorsOfAll, ErrorOf, FirstErrorDecides, Effect, Finish;
    FirstErrorJoins(ErrorsOfAll(v.init, cluster, images.ofInit), ErrorsOfAll(v.app, cluster, images.ofApp),
                    ErrorOf(v.init, cluster, images.ofInit), ErrorOf(v.app, cluster, images.ofApp));
  }
}
