/** The four secret-manager backends and the registry that enables them from pod annotations. */
module Providers {
  import opened GoText
  import opened Kube
  import opened SecretConfigOrder

  const VAULT_TLS_VOLUME := "vault-tls"
  const VAULT_TLS_PATH := "/etc/tls/"
  const GOOGLE_KEY_VOLUME := "google-cloud-key"
  const GOOGLE_KEY_PATH := "/var/run/secret/cloud.google.com"
  const GOOGLE_KEY_FILE := "service-account.json"

  datatype VaultConfig = VaultConfig(
    enabled: bool, addr: string, tlsSecretName: string, caCert: string, path: string, role: string,
    tokenPath: string, authPath: string, backend: string, kubernetesBackend: string,
    namesAsKeys: bool, version: string, secretConfigs: seq<string>)

  datatype AwsConfig = AwsConfig(
    enabled: bool, region: string, secretName: string, previousVersion: string, roleArn: string)

  datatype AzureConfig = AzureConfig(enabled: bool, vaultName: string)

  datatype GcpConfig = GcpConfig(
    enabled: bool, projectId: string, secretName: string, secretVersion: string, keySecretName: string)

  datatype Kind = VaultKind | AwsKind | AzureKind | GcpKind

  datatype Invalid =
    AddressRequired | PathRequired | RoleRequired | CaCertRequired
  | SecretNameRequired | VaultNameRequired | ProjectRequired

  datatype Provider = Vault(vault: VaultConfig) | Aws(aws: AwsConfig) | Azure(azure: AzureConfig) | Gcp(gcp: GcpConfig)
  {
    function Kind(): Kind {
      match this
      case Vault(_) => VaultKind
      case Aws(_) => AwsKind
      case Azure(_) => AzureKind
      case Gcp(_) => GcpKind
    }

    function Name(): string {
      match this
      case Vault(_) => "vault"
      case Aws(_) => "aws"
      case Azure(_) => "azure"
      case Gcp(_) => "gcp"
    }

    predicate Enabled() {
      match this
      case Vault(c) => c.enabled
      case Aws(c) => c.enabled
      case Azure(c) => c.enabled
      case Gcp(c) => c.enabled
    }

    function Validate(): Option<Invalid> {
      match this
      case Vault(c) =>
        if c.addr == "" then Some(AddressRequired)
        else if c.path == "" && c.secretConfigs == [] then Some(PathRequired)
        else if c.role == "" then Some(RoleRequired)
        else if c.tlsSecretName != "" && c.caCert == "" then Some(CaCertRequired)
        else None
      case Aws(c) => if c.secretName == "" then Some(SecretNameRequired) else None
      case Azure(c) => if c.vaultName == "" then Some(VaultNameRequired) else None
      case Gcp(c) =>
        if c.projectId == "" then Some(ProjectRequired)
        else if c.secretName == "" then Some(SecretNameRequired)
        else None
    }

    function ExtraVolumes(): seq<Volume> {
      match this
      case Vault(c) =>
        if c.tlsSecretName != "" then [Volume(VAULT_TLS_VOLUME, Secret(c.tlsSecretName))] else []
      case Gcp(c) =>
        if c.keySecretName != "" then [Volume(GOOGLE_KEY_VOLUME, Secret(c.keySecretName))] else []
      case _ => []
    }

    // -------- what MutateContainer adds, part by part

    function Flags(): seq<string> {
      match this
      case Vault(c) => VaultFlags(c)
      case Aws(c) =>
        ["--region=" + c.region] + Flag("--secret-name=", c.secretName)
        + Flag("--role-arn=", c.roleArn) + Flag("--previous-version=", c.previousVersion)
      case Azure(c) => ["--azure-vault-name=" + c.vaultName]
      case Gcp(c) =>
        ["--project-id=" + c.projectId] + Flag("--secret-name=", c.secretName)
        + Flag("--secret-version=", c.secretVersion)
        + if c.keySecretName != ""
          then ["--google-application-credentials=" + (GOOGLE_KEY_PATH + "/" + GOOGLE_KEY_FILE)] else []
    }

    function Layer(): seq<string> {
      [Name()] + Flags() + ["--"]
    }

    function AddedEnv(): seq<EnvVar> {
      match this
      case Vault(c) =>
        [Literal("VAULT_ADDR", c.addr),
         if c.tlsSecretName != "" then Literal("VAULT_CACERT", VAULT_TLS_PATH + c.caCert)
         else Literal("VAULT_SKIP_VERIFY", "true")]
      case _ => []
    }

    function AddedMounts(): seq<Mount> {
      match this
      case Vault(c) => if c.tlsSecretName != "" then [Mount(VAULT_TLS_VOLUME, VAULT_TLS_PATH)] else []
      case Gcp(c) => if c.keySecretName != "" then [Mount(GOOGLE_KEY_VOLUME, GOOGLE_KEY_PATH)] else []
      case _ => []
    }

    function Mutated(c: Container): Container {
      c.(args := Layer() + c.args, env := c.env + AddedEnv(), mounts := c.mounts + AddedMounts())
    }
  }

  function Flag(name: string, value: string): seq<string> {
    if value != "" then [name + value] else []
  }

  function SecretConfigFlags(configs: seq<string>): seq<string> {
    if configs == [] then []
    else
      var n := |configs| - 1;
      SecretConfigFlags(configs[..n]) + ["--secret-config=" + configs[n]]
  }

  function VaultFlags(c: VaultConfig): seq<string> {
    ["--role=" + c.role]
    + Flag("--kubernetes-backend=", c.kubernetesBackend)
    + Flag("--token-path=", c.tokenPath)
    + SecretConfigFlags(c.secretConfigs)
    + Flag("--path=", c.path)
    + (if c.namesAsKeys then ["--names-as-keys"] else [])
    + Flag("--version=", c.version)
  }

  /** The whole chain: `providers[0]` goes first, so its layer ends up innermost. */
  function MutatedByAll(ps: seq<Provider>, c: Container): Container {
    if ps == [] then c
    else
      var n := |ps| - 1;
      ps[n].Mutated(MutatedByAll(ps[..n], c))
  }

  // ------------------------------------------------------------- MutateContainer

  method MutateByVault(config: VaultConfig, container: Container) returns (r: Container)
    ensures r == Vault(config).Mutated(container)
  {
    r := container.(env := container.env + [Literal("VAULT_ADDR", config.addr)]);
    if config.tlsSecretName != "" {
      r := r.(env := r.env + [Literal("VAULT_CACERT", VAULT_TLS_PATH + config.caCert)]);
      r := r.(mounts := r.mounts + [Mount(VAULT_TLS_VOLUME, VAULT_TLS_PATH)]);
    } else {
      r := r.(env := r.env + [Literal("VAULT_SKIP_VERIFY", "true")]);
    }
    assert r.env == container.env + Vault(config).AddedEnv();
    assert r.mounts == container.mounts + Vault(config).AddedMounts();

    var args := VaultLayer(config);
    args := args + r.args;
    r := r.(args := args);
  }

  /** One optional flag: appended only when the field behind it is not empty. */
  method AppendFlag(args: seq<string>, name: string, value: string) returns (r: seq<string>)
    ensures r == args + Flag(name, value)
  {
    r := args;
    if value != "" {
      r := r + [name + value];
    }
  }

  method AppendSecretConfigs(args: seq<string>, configs: seq<string>) returns (r: seq<string>)
    ensures r == args + SecretConfigFlags(configs)
  {
    r := args;
    for i := 0 to |configs|
      invariant r == args + SecretConfigFlags(configs[..i])
    {
      assert configs[..i + 1][..i] == configs[..i];
      r := r + ["--secret-config=" + configs[i]];
    }
    assert configs[..|configs|] == configs;
  }

  /** The argument half of the Vault `MutateContainer`. */
  method VaultLayer(config: VaultConfig) returns (args: seq<string>)
    ensures args == Vault(config).Layer()
  {
    hide Flag, SecretConfigFlags;
    args := ["vault"];
    args := args + ["--role=" + config.role];
    args := AppendFlag(args, "--kubernetes-backend=", config.kubernetesBackend);
    args := AppendFlag(args, "--token-path=", config.tokenPath);
    args := AppendSecretConfigs(args, config.secretConfigs);
    args := AppendFlag(args, "--path=", config.path);
    if config.namesAsKeys {
      args := args + ["--names-as-keys"];
    }
    args := AppendFlag(args, "--version=", config.version);
    assert args == ["vault"] + VaultFlags(config);
    args := args + ["--"];
  }

  method MutateByAws(config: AwsConfig, container: Container) returns (r: Container)
    ensures r == Aws(config).Mutated(container)
  {
    var args := ["aws"];
    args := args + ["--region=" + config.region];
    args := AppendFlag(args, "--secret-name=", config.secretName);
    args := AppendFlag(args, "--role-arn=", config.roleArn);
    args := AppendFlag(args, "--previous-version=", config.previousVersion);
    args := args + ["--"];
    args := args + container.args;
    r := container.(args := args);
  }

  method MutateByAzure(config: AzureConfig, container: Container) returns (r: Container)
    ensures r == Azure(config).Mutated(container)
  {
    var args := ["azure"];
    args := args + ["--azure-vault-name=" + config.vaultName];
    args := args + ["--"];
    args := args + container.args;
    r := container.(args := args);
  }

  method MutateByGcp(config: GcpConfig, container: Container) returns (r: Container)
    ensures r == Gcp(config).Mutated(container)
  {
    r := container;
    if config.keySecretName != "" {
      r := r.(mounts := r.mounts + [Mount(GOOGLE_KEY_VOLUME, GOOGLE_KEY_PATH)]);
    }
    var args := GcpLayer(config);
    args := args + r.args;
    r := r.(args := args);
  }

  method GcpLayer(config: GcpConfig) returns (args: seq<string>)
    ensures args == Gcp(config).Layer()
  {
    args := ["gcp"];
    args := args + ["--project-id=" + config.projectId];
    args := AppendFlag(args, "--secret-name=", config.secretName);
    args := AppendFlag(args, "--secret-version=", config.secretVersion);
    if config.keySecretName != "" {
      args := args + ["--google-application-credentials=" + (GOOGLE_KEY_PATH + "/" + GOOGLE_KEY_FILE)];
    }
    args := args + ["--"];
  }

  method MutateContainer(p: Provider, container: Container) returns (r: Container)
    ensures r == p.Mutated(container)
  {
    match p
    case Vault(c) => r := MutateByVault(c, container);
    case Aws(c) => r := MutateByAws(c, container);
    case Azure(c) => r := MutateByAzure(c, container);
    case Gcp(c) => r := MutateByGcp(c, container);
  }

  // ------------------------------------------------------------- FromAnnotations

  function EnabledKey(k: Kind): string {
    match k
    case VaultKind => "vault.opstree.secret.manager/enabled"
    case AwsKind => "aws.opstree.secret.manager/enabled"
    case AzureKind => "azure.opstree.secret.manager/enabled"
    case GcpKind => "gcp.opstree.secret.manager/enabled"
  }

  function ValuesAt(a: map<string, string>, keys: seq<string>): seq<string> {
    if keys == [] then []
    else
      var n := |keys| - 1;
      ValuesAt(a, keys[..n]) + [Get(a, keys[n])]
  }

  function VaultConfigFrom(a: map<string, string>, secretConfigs: seq<string>): VaultConfig {
    var authPath := Get(a, "vault.opstree.secret.manager/auth-path");
    VaultConfig(
      ParseBool(Get(a, EnabledKey(VaultKind))),
      Get(a, "vault.opstree.secret.manager/service"),
      Get(a, "vault.opstree.secret.manager/tls-secret"),
      Get(a, "vault.opstree.secret.manager/ca-cert"),
      Get(a, "vault.opstree.secret.manager/path"),
      Get(a, "vault.opstree.secret.manager/role"),
      Get(a, "vault.opstree.secret.manager/k8s-token-path"),
      authPath, authPath, authPath,
      ParseBool(Get(a, "vault.opstree.secret.manager/use-secret-names-as-keys")),
      Get(a, "vault.opstree.secret.manager/secret-version"),
      secretConfigs)
  }

  /** The provider one factory builds; `rt` is the runtime it happens to run on. */
  function FromAnnotations(k: Kind, a: map<string, string>, rt: Runtime): Provider {
    match k
    case VaultKind => Vault(VaultConfigFrom(a, ValuesAt(a, SortedKeys(rt))))
    case AwsKind => Aws(AwsConfig(
      ParseBool(Get(a, EnabledKey(AwsKind))),
      Get(a, "aws.opstree.secret.manager/region"),
      Get(a, "aws.opstree.secret.manager/secret-name"),
      Get(a, "aws.opstree.secret.manager/previous-version"),
      Get(a, "aws.opstree.secret.manager/role-arn")))
    case AzureKind => Azure(AzureConfig(
      ParseBool(Get(a, EnabledKey(AzureKind))),
      Get(a, "azure.opstree.secret.manager/vault-name")))
    case GcpKind => Gcp(GcpConfig(
      ParseBool(Get(a, EnabledKey(GcpKind))),
      Get(a, "gcp.opstree.secret.manager/project-id"),
      Get(a, "gcp.opstree.secret.manager/secret-name"),
      Get(a, "gcp.opstree.secret.manager/secret-version"),
      Get(a, "gcp.opstree.secret.manager/gcp-service-account-key-secret-name")))
  }

  /** The loop of the Vault factory: look up the value behind each sorted key. */
  method VaultFromAnnotations(a: map<string, string>, rt: Runtime) returns (p: Provider)
    ensures p == FromAnnotations(VaultKind, a, rt)
  {
    var secretConfigs: seq<string> := [];
    var keys := FilterAndSort(rt);
    for i := 0 to |keys|
      invariant secretConfigs == ValuesAt(a, keys[..i])
    {
      assert keys[..i + 1][..i] == keys[..i];
      secretConfigs := secretConfigs + [Get(a, keys[i])];
    }
    assert keys[..|keys|] == keys;
    p := Vault(VaultConfigFrom(a, secretConfigs));
  }

  lemma {:induction false} ValueBehindEachKey(a: map<string, string>, keys: seq<string>)
    ensures |ValuesAt(a, keys)| == |keys|
    ensures forall i :: 0 <= i < |keys| ==> ValuesAt(a, keys)[i] == Get(a, keys[i])
    decreases |keys|
  {
    if keys != [] { ValueBehindEachKey(a, keys[..|keys| - 1]); }
  }

  lemma {:induction false} SecretConfigWord(configs: seq<string>)
    ensures |SecretConfigFlags(configs)| == |configs|
    ensures forall i :: 0 <= i < |configs| ==> SecretConfigFlags(configs)[i] == "--secret-config=" + configs[i]
    decreases |configs|
  {
    if configs != [] { SecretConfigWord(configs[..|configs| - 1]); }
  }

  // ------------------------------------------------------- BuildEnabledProviders

  /** The registered factories, in registration order. */
  const FACTORIES: seq<Kind> := [VaultKind, AwsKind, AzureKind, GcpKind]

  predicate KindEnabled(k: Kind, a: map<string, string>) {
    ParseBool(Get(a, EnabledKey(k)))
  }

  function Filter(kinds: seq<Kind>, a: map<string, string>): seq<Kind> {
    if kinds == [] then []
    else
      var n := |kinds| - 1;
      Filter(kinds[..n], a) + if KindEnabled(kinds[n], a) then [kinds[n]] else []
  }

  function EnabledKinds(a: map<string, string>): seq<Kind> {
    Filter(FACTORIES, a)
  }

  function BuildAll(kinds: seq<Kind>, a: map<string, string>, rt: Runtime): (ps: seq<Provider>)
    ensures |ps| == |kinds|
    ensures forall i :: 0 <= i < |ps| ==> ps[i] == FromAnnotations(kinds[i], a, rt)
  {
    seq(|kinds|, i requires 0 <= i < |kinds| => FromAnnotations(kinds[i], a, rt))
  }

  function EnabledProviders(a: map<string, string>, rt: Runtime): seq<Provider> {
    BuildAll(EnabledKinds(a), a, rt)
  }

  lemma BuildAllAppend(kinds: seq<Kind>, k: Kind, a: map<string, string>, rt: Runtime)
    ensures BuildAll(kinds + [k], a, rt) == BuildAll(kinds, a, rt) + [FromAnnotations(k, a, rt)]
  {
  }

  lemma EnabledByAnnotation(k: Kind, a: map<string, string>, rt: Runtime)
    ensures FromAnnotations(k, a, rt).Enabled() <==> KindEnabled(k, a)
    ensures FromAnnotations(k, a, rt).Kind() == k
  {
    hide Get, ParseBool, SortedKeys, ValuesAt;
  }

  method BuildEnabledProviders(a: map<string, string>, rt: Runtime) returns (enabled: seq<Provider>)
    ensures enabled == EnabledProviders(a, rt)
  {
    hide FromAnnotations, KindEnabled;
    enabled := [];
    var factories := FACTORIES;
    for i := 0 to |factories|
      invariant enabled == BuildAll(Filter(factories[..i], a), a, rt)
    {
      ghost var before := Filter(factories[..i], a);
      assert factories[..i + 1][..i] == factories[..i];
      var p := BuildOne(factories[i], a, rt);
      EnabledByAnnotation(factories[i], a, rt);
      if p.Enabled() {
        BuildAllAppend(before, factories[i], a, rt);
        enabled := enabled + [p];
      } else {
        assert Filter(factories[..i + 1], a) == before;
      }
    }
    assert factories[..|factories|] == factories;
  }

  /** Calling one factory. */
  method BuildOne(k: Kind, a: map<string, string>, rt: Runtime) returns (p: Provider)
    ensures p == FromAnnotations(k, a, rt)
  {
    if k == VaultKind {
      p := VaultFromAnnotations(a, rt);
    } else {
      p := FromAnnotations(k, a, rt);
    }
  }

  ghost predicate DistinctKinds(ps: seq<Provider>) {
    forall i, j :: 0 <= i < j < |ps| ==> ps[i].Kind() != ps[j].Kind()
  }

  /** Position of a factory in the registration order. */
  function Rank(k: Kind): nat {
    match k
    case VaultKind => 0
    case AwsKind => 1
    case AzureKind => 2
    case GcpKind => 3
  }

  lemma {:induction false} FilterInOrder(kinds: seq<Kind>, a: map<string, string>)
    requires forall i, j :: 0 <= i < j < |kinds| ==> Rank(kinds[i]) < Rank(kinds[j])
    ensures forall i, j :: 0 <= i < j < |Filter(kinds, a)| ==> Rank(Filter(kinds, a)[i]) < Rank(Filter(kinds, a)[j])
    ensures forall k :: k in Filter(kinds, a) <==> k in kinds && KindEnabled(k, a)
    decreases |kinds|
  {
    if kinds != [] {
      var n := |kinds| - 1;
      FilterInOrder(kinds[..n], a);
      assert kinds == kinds[..n] + [kinds[n]];
      var r := Filter(kinds[..n], a);
      forall i | 0 <= i < |r| ensures Rank(r[i]) < Rank(kinds[n]) {
        assert r[i] in kinds[..n];
      }
    }
  }

  /** At most one provider per backend, in registration order, and exactly those annotated as enabled. */
  lemma EnabledProvidersShape(a: map<string, string>, rt: Runtime)
    ensures var ps := EnabledProviders(a, rt);
            && DistinctKinds(ps)
            && (forall i, j :: 0 <= i < j < |ps| ==> Rank(ps[i].Kind()) < Rank(ps[j].Kind()))
            && (forall k :: (exists p :: p in ps && p.Kind() == k) <==> KindEnabled(k, a))
            && (forall p :: p in ps ==> p.Enabled())
  {
    FilterInOrder(FACTORIES, a);
    var ks := EnabledKinds(a);
    var ps := EnabledProviders(a, rt);
    forall i | 0 <= i < |ps| ensures ps[i].Kind() == ks[i] && ps[i].Enabled() {
      assert ks[i] in ks;
      EnabledByAnnotation(ks[i], a, rt);
    }
    forall k ensures (exists p :: p in ps && p.Kind() == k) <==> KindEnabled(k, a) {
      assert FACTORIES[Rank(k)] == k;
      if KindEnabled(k, a) {
        var i :| 0 <= i < |ks| && ks[i] == k;
        assert ps[i] in ps && ps[i].Kind() == k;
      }
    }
  }

  /**
   * On every runtime the secret configs of the Vault provider are the values behind exactly the numbered
   * annotations, each once, in the order of their numbers.
   */
  lemma SecretConfigsFollowNumbers(a: map<string, string>, rt: Runtime, p: Provider) returns (keys: seq<Key>)
    requires Sound(rt, a.Keys) && p in EnabledProviders(a, rt) && p.Vault?
    ensures Distinct(keys) && forall k: string :: k in keys <==> k in a && PREFIX <= k
    ensures |p.vault.secretConfigs| == |keys|
    ensures forall i :: 0 <= i < |keys| ==> p.vault.secretConfigs[i] == a[keys[i]]
    ensures AllOnce(a.Keys) ==> SortedByNumber(keys)
  {
    VaultIsFromAnnotations(a, rt, p);
    keys := SortedKeys(rt);
    SortedKeysShape(rt, a.Keys);
    ValueBehindEachKey(a, keys);
    hide SortedKeys, ValuesAt, AllOnce, SortedByNumber, Distinct, Sound, PREFIX;
    forall i | 0 <= i < |keys| ensures p.vault.secretConfigs[i] == a[keys[i]] {
      assert keys[i] in keys;
    }
  }

  lemma VaultIsFromAnnotations(a: map<string, string>, rt: Runtime, p: Provider)
    requires p in EnabledProviders(a, rt) && p.Vault?
    ensures p == FromAnnotations(VaultKind, a, rt)
  {
    hide EnabledKinds, FromAnnotations;
    var ps := EnabledProviders(a, rt);
    var i :| 0 <= i < |ps| && ps[i] == p;
    EnabledByAnnotation(EnabledKinds(a)[i], a, rt);
  }

  /** And so they stand in the injector's arguments: a lower number before a higher one. */
  lemma FlagsFollowNumbers(a: map<string, string>, rt: Runtime, p: Provider, k1: Key, k2: Key)
    returns (i: nat, j: nat)
    requires Sound(rt, a.Keys) && AllOnce(a.Keys) && p in EnabledProviders(a, rt) && p.Vault?
    requires k1 in a && k2 in a && NumberOf(k1) < NumberOf(k2)
    ensures i < j < |p.Layer()|
    ensures p.Layer()[i] == "--secret-config=" + a[k1] && p.Layer()[j] == "--secret-config=" + a[k2]
  {
    hide EnabledProviders, NumberOf, AllOnce, Sound, Distinct, PREFIX, Provider.Layer;
    var keys := SecretConfigsFollowNumbers(a, rt, p);
    var x, y := InNumberOrder(keys, k1, k2);
    var front := ConfigsInLayer(p.vault, x);
    front := ConfigsInLayer(p.vault, y);
    i, j := front + x, front + y;
  }

  lemma InNumberOrder(keys: seq<Key>, k1: Key, k2: Key) returns (x: nat, y: nat)
    requires SortedByNumber(keys) && k1 in keys && k2 in keys && NumberOf(k1) < NumberOf(k2)
    ensures x < y < |keys| && keys[x] == k1 && keys[y] == k2
  {
    hide NumberOf, PREFIX;
    x :| 0 <= x < |keys| && keys[x] == k1;
    y :| 0 <= y < |keys| && keys[y] == k2;
  }

  lemma InTheMiddle(name: string, a: seq<string>, b: seq<string>, c: seq<string>, m: seq<string>,
                    d: seq<string>, e: seq<string>, f: seq<string>, end: string, i: nat)
    requires i < |m|
    ensures var front := 1 + |a| + |b| + |c|;
            var all := [name] + (a + b + c + m + d + e + f) + [end];
            front + |m| < |all| && all[front + i] == m[i]
  {
    assert (a + b + c + m)[|a| + |b| + |c| + i] == m[i];
  }

  lemma ConfigsInLayer(vault: VaultConfig, i: nat) returns (front: nat)
    requires i < |vault.secretConfigs|
    ensures front == 2 + |Flag("--kubernetes-backend=", vault.kubernetesBackend)|
                     + |Flag("--token-path=", vault.tokenPath)|
    ensures var layer := Vault(vault).Layer();
            front + i < |layer| && layer[front + i] == "--secret-config=" + vault.secretConfigs[i]
  {
    SecretConfigWord(vault.secretConfigs);
    hide Flag, SecretConfigFlags;
    var backend := Flag("--kubernetes-backend=", vault.kubernetesBackend);
    var tokenPath := Flag("--token-path=", vault.tokenPath);
    front := 2 + |backend| + |tokenPath|;
    InTheMiddle("vault", ["--role=" + vault.role], backend, tokenPath, SecretConfigFlags(vault.secretConfigs),
                Flag("--path=", vault.path), if vault.namesAsKeys then ["--names-as-keys"] else [],
                Flag("--version=", vault.version), "--", i);
  }

  /** With distinct numbers the providers depend neither on the order of ranging nor on the sorting algorithm. */
  lemma ProvidersIndependentOfRuntime(a: map<string, string>, rt1: Runtime, rt2: Runtime)
    requires Sound(rt1, a.Keys) && Sound(rt2, a.Keys)
    requires AllOnce(a.Keys) && DistinctNumbers(a.Keys)
    ensures EnabledProviders(a, rt1) == EnabledProviders(a, rt2)
  {
    RuntimeIndependent(rt1, rt2, a.Keys);
  }
}
