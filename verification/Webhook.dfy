/** The admission webhook: reference lookups, container rewriting, and the gate in front of them. */
module Webhook {
  import opened GoText
  import opened Kube
  import opened Providers
  import opened Layers
  import SecretConfigOrder

  const INJECTOR_VOLUME := "k8s-secret-injector"
  const INJECTOR_COMMAND := "/k8s-secret/k8s-secret-injector"
  const COPY_CONTAINER := "copy-k8s-secret-injector"
  const OPT_OUT := "vault.opstree.secret.manager/opt-out"
  const ROTATION_INTERVAL := "vault.opstree.secret.manager/rotation-interval"
  const INJECTED_VERSION := "vault.opstree.secret.manager/injected-version"

  // ----------------------------------------------------------------- reference lookups

  datatype Error = ConfigMapUnreadable(name: string) | SecretUnreadable(name: string) | ImageUnknown(image: string)

  /** The API server's answer; `order` is how the runtime ranges over the data. */
  datatype DataReply = Found(data: map<string, string>, order: seq<string>) | NotFound | Failed

  datatype Cluster = Cluster(configMap: string -> DataReply, secret: string -> DataReply)

  predicate HasSecretPrefix(value: string) {
    "vault:" <= value || ">>secret:" <= value || "secret:" <= value
  }

  /** The three ways in which a value can refer to a secret. */
  predicate NamesSecret(value: string) {
    exists n :: 0 <= n <= |value| && value[..n] in {"vault:", ">>secret:", "secret:"}
  }

  lemma NamesSecretIff(value: string)
    ensures HasSecretPrefix(value) <==> NamesSecret(value)
  {
    if "vault:" <= value { assert value[..6] == "vault:"; }
    if ">>secret:" <= value { assert value[..9] == ">>secret:"; }
    if "secret:" <= value { assert value[..7] == "secret:"; }
  }

  function LookForValueFrom(name: string, source: EnvSource, cluster: Cluster): Result<Option<EnvVar>, Error> {
    var fromMap: Result<(bool, Option<EnvVar>), Error> :=
      match source.configMapKeyRef
      case None => Ok((false, None))
      case Some(r) =>
        match cluster.configMap(r.name)
        case NotFound => Ok((true, None))
        case Failed => Err(ConfigMapUnreadable(r.name))
        case Found(data, _) =>
          if HasSecretPrefix(Get(data, r.key)) then Ok((true, Some(Literal(name, Get(data, r.key)))))
          else Ok((false, None));
    match fromMap
    case Err(e) => Err(e)
    case Ok((true, v)) => Ok(v)
    case Ok((false, _)) =>
      match source.secretKeyRef
      case None => Ok(None)
      case Some(r) =>
        match cluster.secret(r.name)
        case NotFound => Ok(None)
        case Failed => Err(SecretUnreadable(r.name))
        case Found(data, _) =>
          if HasSecretPrefix(Get(data, r.key)) then Ok(Some(Literal(name, Get(data, r.key)))) else Ok(None)
  }

  function PrefixedVars(data: map<string, string>, order: seq<string>): seq<EnvVar> {
    if order == [] then []
    else
      var n := |order| - 1;
      PrefixedVars(data, order[..n])
      + if HasSecretPrefix(Get(data, order[n])) then [Literal(order[n], Get(data, order[n]))] else []
  }

  /** One `envFrom` entry: the variables, and whether a missing object ended the entry early. */
  function FromReply(reply: DataReply, optional: bool, e: Error): Result<(seq<EnvVar>, bool), Error> {
    match reply
    case NotFound => Ok(([], true))
    case Failed => if optional then Ok(([], true)) else Err(e)
    case Found(data, order) => Ok((PrefixedVars(data, order), false))
  }

  function FromEntry(ef: EnvFrom, cluster: Cluster): Result<seq<EnvVar>, Error> {
    var fromMap: Result<(seq<EnvVar>, bool), Error> :=
      match ef.configMapRef
      case None => Ok(([], false))
      case Some(r) => FromReply(cluster.configMap(r.name), r.optional, ConfigMapUnreadable(r.name));
    match fromMap
    case Err(e) => Err(e)
    case Ok((vars, true)) => Ok(vars)
    case Ok((vars, false)) =>
      match ef.secretRef
      case None => Ok(vars)
      case Some(r) =>
        match FromReply(cluster.secret(r.name), r.optional, SecretUnreadable(r.name))
        case Err(e) => Err(e)
        case Ok((more, _)) => Ok(vars + more)
  }

  function FromEntries(refs: seq<EnvFrom>, cluster: Cluster, acc: seq<EnvVar>): Result<seq<EnvVar>, Error> {
    if refs == [] then Ok(acc)
    else
      match FromEntry(refs[0], cluster)
      case Err(e) => Err(e)
      case Ok(vars) => FromEntries(refs[1..], cluster, acc + vars)
  }

  /** The error of one `envFrom` entry, whatever the data behind it: only an unreadable, mandatory object is one. */
  function EntryError(ef: EnvFrom, cluster: Cluster): Option<Error> {
    var source := ef.configMapRef;
    var reply := if source.Some? then cluster.configMap(source.value.name) else Found(map[], []);
    if source.Some? && reply.Failed? && !source.value.optional then Some(ConfigMapUnreadable(source.value.name))
    else if reply.Found? && ef.secretRef.Some? && cluster.secret(ef.secretRef.value.name).Failed?
        && !ef.secretRef.value.optional
    then Some(SecretUnreadable(ef.secretRef.value.name))
    else None
  }

  ghost predicate NoErrors(errors: seq<Option<Error>>) {
    forall i :: 0 <= i < |errors| ==> errors[i].None?
  }

  ghost predicate FirstErrorAt(errors: seq<Option<Error>>, i: nat) {
    i < |errors| && errors[i].Some? && NoErrors(errors[..i])
  }

  /** The result is the error of the first entry that has one, and there is none exactly when none has. */
  ghost predicate FirstErrorDecides(errors: seq<Option<Error>>, error: Option<Error>) {
    if error.None? then NoErrors(errors) else exists i: nat :: FirstErrorAt(errors, i) && errors[i] == error
  }

  function ErrorIn<T>(r: Result<T, Error>): Option<Error> {
    if r.Err? then Some(r.error) else None
  }

  function EntryErrors(refs: seq<EnvFrom>, cluster: Cluster): seq<Option<Error>> {
    seq(|refs|, i requires 0 <= i < |refs| => EntryError(refs[i], cluster))
  }

  /** Of two lists the first one decides, unless it holds no error. */
  lemma FirstErrorJoins(a: seq<Option<Error>>, b: seq<Option<Error>>, inA: Option<Error>, inB: Option<Error>)
    requires FirstErrorDecides(a, inA) && FirstErrorDecides(b, inB)
    ensures FirstErrorDecides(a + b, if inA.Some? then inA else inB)
  {
    if inA.Some? {
      var i: nat :| FirstErrorAt(a, i) && a[i] == inA;
      assert (a + b)[..i] == a[..i];
      assert FirstErrorAt(a + b, i) && (a + b)[i] == inA;
    } else if inB.Some? {
      var i: nat :| FirstErrorAt(b, i) && b[i] == inB;
      assert (a + b)[..|a| + i] == a + b[..i];
      assert FirstErrorAt(a + b, |a| + i) && (a + b)[|a| + i] == inB;
    }
  }

  lemma OneErrorDecides(e: Option<Error>)
    ensures FirstErrorDecides([e], e)
  {
    if e.Some? { assert FirstErrorAt([e], 0); }
  }

  lemma {:induction false} FirstEntryErrorDecides(refs: seq<EnvFrom>, cluster: Cluster, acc: seq<EnvVar>)
    ensures FirstErrorDecides(EntryErrors(refs, cluster), ErrorIn(FromEntries(refs, cluster, acc)))
    decreases |refs|
  {
    if refs != [] {
      EntryErrorIsError(refs[0], cluster);
      var entry := FromEntry(refs[0], cluster);
      var rest := EntryErrors(refs[1..], cluster);
      assert EntryErrors(refs, cluster) == [EntryError(refs[0], cluster)] + rest;
      hide FromEntry, EntryError, FirstErrorDecides;
      var next := if entry.Ok? then acc + entry.value else acc;
      FirstEntryErrorDecides(refs[1..], cluster, next);
      OneErrorDecides(EntryError(refs[0], cluster));
      FirstErrorJoins([EntryError(refs[0], cluster)], rest, EntryError(refs[0], cluster),
                      ErrorIn(FromEntries(refs[1..], cluster, next)));
    }
  }

  lemma EntryErrorIsError(ef: EnvFrom, cluster: Cluster)
    ensures ErrorIn(FromEntry(ef, cluster)) == EntryError(ef, cluster)
  {
    hide PrefixedVars;
  }

  method CollectPrefixed(data: map<string, string>, order: seq<string>, sofar: seq<EnvVar>)
    returns (vars: seq<EnvVar>)
    ensures vars == sofar + PrefixedVars(data, order)
  {
    vars := sofar;
    for i := 0 to |order|
      invariant vars == sofar + PrefixedVars(data, order[..i])
    {
      assert order[..i + 1][..i] == order[..i];
      var value := Get(data, order[i]);
      if HasSecretPrefix(value) {
        vars := vars + [Literal(order[i], value)];
      }
    }
    assert order[..|order|] == order;
  }

  /** One round of the loop in `lookForEnvFrom`; an early return of Ok stands for its `continue`. */
  method LookForEntry(ef: EnvFrom, cluster: Cluster) returns (r: Result<seq<EnvVar>, Error>)
    ensures r == FromEntry(ef, cluster)
  {
    hide PrefixedVars;
    var vars: seq<EnvVar> := [];
    if ef.configMapRef.Some? {
      var ref := ef.configMapRef.value;
      match cluster.configMap(ref.name) {
        case NotFound => return Ok(vars);
        case Failed =>
          if ref.optional { return Ok(vars); }
          return Err(ConfigMapUnreadable(ref.name));
        case Found(data, order) =>
          vars := CollectPrefixed(data, order, vars);
          assert vars == PrefixedVars(data, order);
      }
    }
    if ef.secretRef.Some? {
      var ref := ef.secretRef.value;
      match cluster.secret(ref.name) {
        case NotFound => assert vars + [] == vars; return Ok(vars);
        case Failed =>
          assert vars + [] == vars;
          if ref.optional { return Ok(vars); }
          return Err(SecretUnreadable(ref.name));
        case Found(data, order) => vars := CollectPrefixed(data, order, vars);
      }
    }
    return Ok(vars);
  }

  method LookForEnvFrom(refs: seq<EnvFrom>, cluster: Cluster) returns (r: Result<seq<EnvVar>, Error>)
    ensures r == FromEntries(refs, cluster, [])
    ensures FirstErrorDecides(EntryErrors(refs, cluster), ErrorIn(r))
  {
    FirstEntryErrorDecides(refs, cluster, []);
    hide FromEntry, FirstErrorDecides, EntryErrors;
    var vars: seq<EnvVar> := [];
    for i := 0 to |refs|
      invariant FromEntries(refs[i..], cluster, vars) == FromEntries(refs, cluster, [])
    {
      assert refs[i..][1..] == refs[i + 1..];
      var entry := LookForEntry(refs[i], cluster);
      if entry.Err? {
        return Err(entry.error);
      }
      vars := vars + entry.value;
    }
    r := Ok(vars);
  }

  function FromEnv(env: seq<EnvVar>, cluster: Cluster, acc: seq<EnvVar>): Result<seq<EnvVar>, Error> {
    if env == [] then Ok(acc)
    else
      var acc1 := if HasSecretPrefix(env[0].value) then acc + [env[0]] else acc;
      match env[0].valueFrom
      case None => FromEnv(env[1..], cluster, acc1)
      case Some(source) =>
        match LookForValueFrom(env[0].name, source, cluster)
        case Err(e) => Err(e)
        case Ok(None) => FromEnv(env[1..], cluster, acc1)
        case Ok(Some(v)) => FromEnv(env[1..], cluster, acc1 + [v])
  }

  /** The error of one variable: an unreadable object it refers to, unless an earlier reference already settled it. */
  function VarError(env: EnvVar, cluster: Cluster): Option<Error> {
    if env.valueFrom.None? then None
    else
      var source := env.valueFrom.value;
      var reply := if source.configMapKeyRef.Some? then cluster.configMap(source.configMapKeyRef.value.name)
          else Found(map[], []);
      if reply.Failed? then Some(ConfigMapUnreadable(source.configMapKeyRef.value.name))
      else if reply.NotFound? || (source.configMapKeyRef.Some?
          && NamesSecret(Get(reply.data, source.configMapKeyRef.value.key)))
      then None
      else if source.secretKeyRef.Some? && cluster.secret(source.secretKeyRef.value.name).Failed?
      then Some(SecretUnreadable(source.secretKeyRef.value.name))
      else None
  }

  function VarErrors(envs: seq<EnvVar>, cluster: Cluster): seq<Option<Error>> {
    seq(|envs|, i requires 0 <= i < |envs| => VarError(envs[i], cluster))
  }

  lemma VarErrorIsError(env: EnvVar, cluster: Cluster)
    ensures VarError(env, cluster)
         == if env.valueFrom.None? then None else ErrorIn(LookForValueFrom(env.name, env.valueFrom.value, cluster))
  {
    forall value ensures HasSecretPrefix(value) == NamesSecret(value) {
      NamesSecretIff(value);
    }
    hide HasSecretPrefix, NamesSecret;
  }

  lemma {:induction false} FirstVarErrorDecides(envs: seq<EnvVar>, cluster: Cluster, acc: seq<EnvVar>)
    ensures FirstErrorDecides(VarErrors(envs, cluster), ErrorIn(FromEnv(envs, cluster, acc)))
    decreases |envs|
  {
    if envs != [] {
      VarErrorIsError(envs[0], cluster);
      var rest := VarErrors(envs[1..], cluster);
      assert VarErrors(envs, cluster) == [VarError(envs[0], cluster)] + rest;
      hide LookForValueFrom, VarError, FirstErrorDecides, HasSecretPrefix;
      var acc1 := if HasSecretPrefix(envs[0].value) then acc + [envs[0]] else acc;
      var looked := if envs[0].valueFrom.Some? then LookForValueFrom(envs[0].name, envs[0].valueFrom.value, cluster)
          else Ok(None);
      var next := if looked.Ok? && looked.value.Some? then acc1 + [looked.value.value] else acc1;
      FirstVarErrorDecides(envs[1..], cluster, next);
      OneErrorDecides(VarError(envs[0], cluster));
      FirstErrorJoins([VarError(envs[0], cluster)], rest, VarError(envs[0], cluster),
                      ErrorIn(FromEnv(envs[1..], cluster, next)));
    }
  }

  // ----------------------------------------------------------------- one container

  type ImageReply = Result<ImageConfig, Error>

  /** The first error met while a container is being prepared, if any. */
  function Trouble(c: Container, cluster: Cluster, reply: ImageReply): Option<Error> {
    match FromEntries(c.envFrom, cluster, [])
    case Err(e) => Some(e)
    case Ok(vars) =>
      match FromEnv(c.env, cluster, vars)
      case Err(e) => Some(e)
      case Ok(_) => if c.command == [] && reply.Err? then Some(reply.error) else None
  }

  function ImageOf(reply: ImageReply): ImageConfig {
    if reply.Ok? then reply.value else ImageConfig([], [])
  }

  /** A rewritten container: the injector runs the provider layers around the original argv. */
  function Rewritten(c: Container, ps: seq<Provider>, reply: ImageReply): Container {
    var m := MutatedByAll(ps, c.(command := [INJECTOR_COMMAND], args := KubeArgv(c.command, c.args, ImageOf(reply))));
    m.(mounts := m.mounts + [Mount(INJECTOR_VOLUME, "/k8s-secret")])
  }

  /** Index of the first container that cannot be prepared, or their number. */
  function FirstTrouble(cs: seq<Container>, cluster: Cluster, images: nat -> ImageReply, from: nat := 0): (j: nat)
    requires from <= |cs|
    ensures from <= j <= |cs|
    ensures forall k :: from <= k < j ==> Trouble(cs[k], cluster, images(k)).None?
    ensures j < |cs| ==> Trouble(cs[j], cluster, images(j)).Some?
    decreases |cs| - from
  {
    if from == |cs| || Trouble(cs[from], cluster, images(from)).Some? then from
    else FirstTrouble(cs, cluster, images, from + 1)
  }

  /** The scan of a container's own variables. */
  method ScanEnv(envs: seq<EnvVar>, cluster: Cluster, start: seq<EnvVar>) returns (r: Result<seq<EnvVar>, Error>)
    ensures r == FromEnv(envs, cluster, start)
    ensures FirstErrorDecides(VarErrors(envs, cluster), ErrorIn(r))
  {
    FirstVarErrorDecides(envs, cluster, start);
    hide HasSecretPrefix, LookForValueFrom, FirstErrorDecides, VarErrors;
    var envVars := start;
    var i := 0;
    while i < |envs|
      invariant 0 <= i <= |envs|
      invariant FromEnv(envs[i..], cluster, envVars) == FromEnv(envs, cluster, start)
    {
      var env := envs[i];
      assert envs[i..][1..] == envs[i + 1..];
      i := i + 1;
      if HasSecretPrefix(env.value) {
        envVars := envVars + [env];
      }
      if env.valueFrom.Some? {
        var valueFrom := LookForValueFrom(env.name, env.valueFrom.value, cluster);
        if valueFrom.Err? {
          return Err(valueFrom.error);
        }
        if valueFrom.value.None? {
          continue;
        }
        envVars := envVars + [valueFrom.value.value];
      }
    }
    r := Ok(envVars);
  }

  /** The first half of the loop body of `mutateContainers`: look references up, then assemble the argv. */
  method Prepare(c: Container, cluster: Cluster, reply: ImageReply) returns (args: seq<string>, err: Option<Error>)
    ensures err == Trouble(c, cluster, reply)
    ensures err.None? ==> args == KubeArgv(c.command, c.args, ImageOf(reply))
  {
    hide FromEntry, FromEnv;
    args := [];
    var envVars: seq<EnvVar> := [];
    if |c.envFrom| > 0 {
      var envFrom := LookForEnvFrom(c.envFrom, cluster);
      if envFrom.Err? {
        return [], Some(envFrom.error);
      }
      envVars := envVars + envFrom.value;
      assert envVars == envFrom.value;
    }
    assert FromEntries(c.envFrom, cluster, []) == Ok(envVars);
    var scanned := ScanEnv(c.env, cluster, envVars);
    if scanned.Err? {
      return [], Some(scanned.error);
    }
    args := c.command;
    if |args| == 0 {
      if reply.Err? {
        return [], Some(reply.error);
      }
      args := args + reply.value.entrypoint;
      if |c.args| == 0 {
        args := args + reply.value.cmd;
      }
    }
    args := args + c.args;
    err := None;
  }

  /** The second half: let every provider wrap the container. */
  method Wrap(base: Container, providers: seq<Provider>) returns (container: Container, mutationInProgress: bool)
    ensures container == MutatedByAll(providers, base)
    ensures mutationInProgress <==> providers != []
  {
    hide Provider.Mutated;
    container, mutationInProgress := base, false;
    for k := 0 to |providers|
      invariant container == MutatedByAll(providers[..k], base)
      invariant mutationInProgress <==> k > 0
    {
      assert providers[..k + 1][..k] == providers[..k];
      container := MutateContainer(providers[k], container);
      mutationInProgress := true;
    }
    assert providers[..|providers|] == providers;
  }

  // ------------------------------------------------------------- mutateContainers

  /** What the loop leaves in the array: a rewritten prefix, and the rest untouched. */
  function Effect(cs: seq<Container>, ps: seq<Provider>, cluster: Cluster,
                  images: nat -> ImageReply): (r: seq<Container>)
    ensures |r| == |cs|
  {
    var j := FirstTrouble(cs, cluster, images);
    seq(|cs|, k requires 0 <= k < |cs| => if k < j && ps != [] then Rewritten(cs[k], ps, images(k)) else cs[k])
  }

  function ErrorOf(cs: seq<Container>, cluster: Cluster, images: nat -> ImageReply): Option<Error> {
    var j := FirstTrouble(cs, cluster, images);
    if j < |cs| then Trouble(cs[j], cluster, images(j)) else None
  }

  /**
   * The loop of the Go code, in place. `images(i)` is what the image registry answers for container `i`.
   * On an error at index `j` the containers before `j` stay rewritten and those from `j` on are untouched.
   */
  method MutateContainers(containers: array<Container>, providers: seq<Provider>, cluster: Cluster,
                          images: nat -> ImageReply)
    returns (mutated: bool, err: Option<Error>)
    modifies containers
    ensures var was := old(containers[..]);
            && containers[..] == Effect(was, providers, cluster, images)
            && err == ErrorOf(was, cluster, images)
            && (mutated <==> err.None? && providers != [] && |was| > 0)
  {
    hide Trouble, MutatedByAll, KubeArgv, ImageOf;
    ghost var was := containers[..];
    mutated := false;
    for i := 0 to containers.Length
      invariant FirstTrouble(was, cluster, images, i) == FirstTrouble(was, cluster, images)
      invariant forall k :: 0 <= k < i && providers != [] ==> containers[k] == Rewritten(was[k], providers, images(k))
      invariant forall k :: (i <= k < |was| || (0 <= k < |was| && providers == [])) ==> containers[k] == was[k]
      invariant mutated <==> providers != [] && i > 0
    {
      var container := containers[i];
      var args, e := Prepare(container, cluster, images(i));
      if e.Some? {
        return false, e;
      }
      container := container.(command := [INJECTOR_COMMAND], args := args);
      var mutationInProgress;
      container, mutationInProgress := Wrap(container, providers);
      if !mutationInProgress {
        continue;
      }
      mutated := true;
      container := container.(mounts := container.mounts + [Mount(INJECTOR_VOLUME, "/k8s-secret")]);
      containers[i] := container;
    }
    err := None;
  }

  // -------------------------------------------------------------------- mutatePod

  datatype Settings = Settings(
    excludedNamespaces: seq<string>, equalFold: (string, string) -> bool,
    injectorImage: string, injectorPullPolicy: PullPolicy, pullSecretName: string)

  datatype Images = Images(ofInit: nat -> ImageReply, ofApp: nat -> ImageReply)

  datatype PodValue = PodValue(
    init: seq<Container>, app: seq<Container>, volumes: seq<Volume>,
    pullSecrets: seq<string>, annotations: map<string, string>)

  class Pod {
    var initContainers: array<Container>
    var containers: array<Container>
    var volumes: seq<Volume>
    var imagePullSecrets: seq<string>
    var annotations: map<string, string>

    ghost function View(): PodValue
      reads this, initContainers, containers
    {
      PodValue(initContainers[..], containers[..], volumes, imagePullSecrets, annotations)
    }

    constructor (init: array<Container>, app: array<Container>, volumes: seq<Volume>,
                 imagePullSecrets: seq<string>, annotations: map<string, string>)
      ensures View() == PodValue(init[..], app[..], volumes, imagePullSecrets, annotations)
      ensures initContainers == init && containers == app
    {
      initContainers, containers := init, app;
      this.volumes, this.imagePullSecrets, this.annotations := volumes, imagePullSecrets, annotations;
    }
  }

  function CopyContainer(settings: Settings): Container {
    Container(COPY_CONTAINER, settings.injectorImage, settings.injectorPullPolicy,
              ["sh", "-c", "cp /usr/local/bin/k8s-secret-injector /k8s-secret/"], [],
              [], [], [Mount(INJECTOR_VOLUME, "/k8s-secret/")], false)
  }

  method GetVolumes(providers: seq<Provider>) returns (volumes: seq<Volume>)
    ensures volumes == [Volume(INJECTOR_VOLUME, MemoryDir)] + ExtraVolumesOf(providers)
  {
    hide INJECTOR_VOLUME, Provider.ExtraVolumes;
    volumes := [Volume(INJECTOR_VOLUME, MemoryDir)];
    for i := 0 to |providers|
      invariant volumes == [Volume(INJECTOR_VOLUME, MemoryDir)] + ExtraVolumesOf(providers[..i])
    {
      assert providers[..i + 1][..i] == providers[..i];
      var extraVols := providers[i].ExtraVolumes();
      if |extraVols| > 0 {
        volumes := volumes + extraVols;
      }
    }
    assert providers[..|providers|] == providers;
  }

  method GetInitContainers(settings: Settings, initMutated: bool, appMutated: bool) returns (containers: seq<Container>)
    ensures containers == if initMutated || appMutated then [CopyContainer(settings)] else []
  {
    containers := [];
    if initMutated || appMutated {
      containers := containers + [CopyContainer(settings)];
    }
  }

  /** The last part of `mutatePod`, once both container lists are done. */
  function Finish(v: PodValue, ps: seq<Provider>, settings: Settings): PodValue {
    var v1 :=
      if ps != [] && (v.init != [] || v.app != []) then
        v.(init := [CopyContainer(settings)] + v.init,
           volumes := v.volumes + ([Volume(INJECTOR_VOLUME, MemoryDir)] + ExtraVolumesOf(ps)))
      else v;
    if settings.pullSecretName != "" then v1.(pullSecrets := v1.pullSecrets + [settings.pullSecretName]) else v1
  }

  /** The pod after `mutatePod`, and the error it ends with. */
  function MutatedPod(v: PodValue, ps: seq<Provider>, settings: Settings, cluster: Cluster, images: Images)
    : (PodValue, Option<Error>)
  {
    var v1 := v.(init := Effect(v.init, ps, cluster, images.ofInit));
    var e1 := ErrorOf(v.init, cluster, images.ofInit);
    if e1.Some? then (v1, e1)
    else
      var v2 := v1.(app := Effect(v.app, ps, cluster, images.ofApp));
      var e2 := ErrorOf(v.app, cluster, images.ofApp);
      if e2.Some? then (v2, e2) else (Finish(v2, ps, settings), None)
  }

  lemma MutationKeepsAnnotations(v: PodValue, ps: seq<Provider>, settings: Settings, cluster: Cluster, images: Images)
    ensures MutatedPod(v, ps, settings, cluster, images).0.annotations == v.annotations
  {
    hide Effect, ErrorOf, CopyContainer, ExtraVolumesOf;
  }

  method MutatePod(pod: Pod, providers: seq<Provider>, settings: Settings, cluster: Cluster, images: Images)
    returns (err: Option<Error>)
    requires pod.initContainers != pod.containers
    modifies pod, pod.initContainers, pod.containers
    ensures (pod.View(), err) == MutatedPod(old(pod.View()), providers, settings, cluster, images)
  {
    hide Effect, ErrorOf, CopyContainer, ExtraVolumesOf;
    ghost var was := pod.View();
    var initMutated, e := MutateContainers(pod.initContainers, providers, cluster, images.ofInit);
    if e.Some? {
      return e;
    }
    var appMutated;
    appMutated, e := MutateContainers(pod.containers, providers, cluster, images.ofApp);
    if e.Some? {
      return e;
    }
    if initMutated || appMutated {
      var prefix := GetInitContainers(settings, initMutated, appMutated);
      var joined := prefix + pod.initContainers[..];
      var slice := new Container[|joined|](k requires 0 <= k < |joined| => joined[k]);
      assert slice[..] == joined;
      pod.initContainers := slice;
      var extra := GetVolumes(providers);
      pod.volumes := pod.volumes + extra;
    }
    if settings.pullSecretName != "" {
      pod.imagePullSecrets := pod.imagePullSecrets + [settings.pullSecretName];
    }
    err := None;
  }

  // --------------------------------------------------------------- SecretsMutator

  datatype VersionReply = Version(version: string) | VersionError

  /** Current version of the secret a provider's annotations name; the recorded baseline is not part of that name. */
  type VersionOracle = (Kind, map<string, string>) -> VersionReply

  function ConfigPart(a: map<string, string>): map<string, string> {
    a - {INJECTED_VERSION}
  }

  /** The baseline written at admission: the first provider's version, if it reports one. */
  function WithBaseline(a: map<string, string>, first: Kind, versions: VersionOracle): map<string, string> {
    if ROTATION_INTERVAL in a then
      match versions(first, ConfigPart(a))
      case Version(v) => if v != "" then a[INJECTED_VERSION := v] else a
      case VersionError => a
    else a
  }

  datatype Verdict = Skipped | Invalid(at: nat) | MutationFailed(error: Error) | Mutated

  predicate Excluded(settings: Settings, ns: string) {
    exists e :: e in settings.excludedNamespaces && settings.equalFold(e, ns)
  }

  predicate OptedOut(settings: Settings, a: map<string, string>) {
    settings.equalFold(Get(a, OPT_OUT), "true")
  }

  function FirstInvalid(ps: seq<Provider>, from: nat := 0): (j: nat)
    requires from <= |ps|
    ensures from <= j <= |ps|
    ensures forall k :: from <= k < j ==> ps[k].Validate().None?
    ensures j < |ps| ==> ps[j].Validate().Some?
    decreases |ps| - from
  {
    if from == |ps| || ps[from].Validate().Some? then from else FirstInvalid(ps, from + 1)
  }

  method IsNamespaceExcluded(settings: Settings, ns: string) returns (r: bool)
    ensures r <==> Excluded(settings, ns)
  {
    for i := 0 to |settings.excludedNamespaces|
      invariant forall k :: 0 <= k < i ==> !settings.equalFold(settings.excludedNamespaces[k], ns)
    {
      if settings.equalFold(settings.excludedNamespaces[i], ns) {
        return true;
      }
    }
    return false;
  }

  /**
   * The pod after admission, and the verdict. Invalid and MutationFailed are the (true, error) return
   * of the Go code, the others are (false, nil).
   */
  function Admission(v: PodValue, ns: string, rt: SecretConfigOrder.Runtime, settings: Settings, cluster: Cluster,
                     images: Images, versions: VersionOracle): (PodValue, Verdict)
  {
    var ps := EnabledProviders(v.annotations, rt);
    if Excluded(settings, ns) || OptedOut(settings, v.annotations) || ps == [] then (v, Skipped)
    else if FirstInvalid(ps) < |ps| then (v, Invalid(FirstInvalid(ps)))
    else
      var (now, err) := MutatedPod(v, ps, settings, cluster, images);
      if err.Some? then (now, MutationFailed(err.value))
      else (now.(annotations := WithBaseline(now.annotations, ps[0].Kind(), versions)), Mutated)
  }

  /** The admission entry point for pods. */
  method SecretsMutator(pod: Pod, ns: string, rt: SecretConfigOrder.Runtime, settings: Settings, cluster: Cluster,
                        images: Images, versions: VersionOracle)
    returns (verdict: Verdict)
    requires pod.initContainers != pod.containers
    modifies pod, pod.initContainers, pod.containers
    ensures (pod.View(), verdict) == Admission(old(pod.View()), ns, rt, settings, cluster, images, versions)
  {
    hide MutatedPod, EnabledProviders, Provider.Validate, ConfigPart, Provider.Kind;
    var excluded := IsNamespaceExcluded(settings, ns);
    if excluded {
      return Skipped;
    }
    var annotations := pod.annotations;
    if settings.equalFold(Get(annotations, OPT_OUT), "true") {
      return Skipped;
    }
    var providers := BuildEnabledProviders(annotations, rt);
    if |providers| == 0 {
      return Skipped;
    }
    for i := 0 to |providers|
      invariant FirstInvalid(providers, i) == FirstInvalid(providers)
    {
      if providers[i].Validate().Some? {
        return Invalid(i);
      }
    }
    ghost var was := pod.View();
    var err := MutatePod(pod, providers, settings, cluster, images);
    MutationKeepsAnnotations(was, providers, settings, cluster, images);
    if err.Some? {
      return MutationFailed(err.value);
    }
    if ROTATION_INTERVAL in annotations {
      var reply := versions(providers[0].Kind(), ConfigPart(annotations));
      if reply.Version? && reply.version != "" {
        pod.annotations := pod.annotations[INJECTED_VERSION := reply.version];
      }
    }
    return Mutated;
  }
}
