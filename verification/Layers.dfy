/**
 * The other side of the mutation: an independent reader of the rewritten arguments, environment and
 * volumes, and the proof that it undoes what the providers print.
 */
module Layers {
  import opened GoText
  import opened Kube
  import opened Providers
  import SecretConfigOrder

  const SEPARATOR := "--"

  // ---------------------------------------------------------------- peeling layers

  /** Position of the first bare `--`, or the length when there is none. */
  function FirstSeparator(args: seq<string>): (m: nat)
    ensures m <= |args|
    ensures m < |args| ==> args[m] == SEPARATOR
    ensures forall k :: 0 <= k < m ==> args[k] != SEPARATOR
  {
    if args == [] || args[0] == SEPARATOR then 0 else 1 + FirstSeparator(args[1..])
  }

  /** One layer as the injector reads it: provider name, its flags, and what stands after `--`. */
  datatype Layer = Layer(name: string, flags: seq<string>, inner: seq<string>)

  function ReadLayer(args: seq<string>): Option<Layer> {
    var m := FirstSeparator(args);
    if m == 0 || m == |args| then None
    else Some(Layer(args[0], args[1..m], args[m + 1..]))
  }

  /** Peel `n` layers, outermost first; the names come out in the order they were read. */
  function Peel(args: seq<string>, n: nat): Option<(seq<string>, seq<string>)> {
    if n == 0 then Some(([], args))
    else
      match ReadLayer(args)
      case None => None
      case Some(layer) =>
        match Peel(layer.inner, n - 1)
        case None => None
        case Some((names, argv)) => Some(([layer.name] + names, argv))
  }

  function ReversedNames(ps: seq<Provider>): seq<string> {
    if ps == [] then []
    else
      var n := |ps| - 1;
      [ps[n].Name()] + ReversedNames(ps[..n])
  }

  /** No printed word is a bare `--`. */
  lemma {:induction false} SecretConfigWords(configs: seq<string>)
    ensures SEPARATOR !in SecretConfigFlags(configs)
    decreases |configs|
  {
    if configs != [] {
      var n := |configs| - 1;
      SecretConfigWords(configs[..n]);
      assert |"--secret-config=" + configs[n]| > 2;
    }
  }

  lemma FlagWord(name: string, value: string)
    requires |name| > 2
    ensures SEPARATOR !in Flag(name, value)
    ensures name + value != SEPARATOR
  {
    assert |name + value| > 2;
  }

  lemma NoFlagIsSeparator(p: Provider)
    ensures SEPARATOR !in p.Flags() && p.Name() != SEPARATOR
  {
    match p
    case Vault(c) =>
      SecretConfigWords(c.secretConfigs);
      FlagWord("--role=", c.role);
      FlagWord("--kubernetes-backend=", c.kubernetesBackend);
      FlagWord("--token-path=", c.tokenPath);
      FlagWord("--path=", c.path);
      FlagWord("--version=", c.version);
    case Aws(c) =>
      FlagWord("--region=", c.region);
      FlagWord("--secret-name=", c.secretName);
      FlagWord("--role-arn=", c.roleArn);
      FlagWord("--previous-version=", c.previousVersion);
    case Azure(c) =>
      FlagWord("--azure-vault-name=", c.vaultName);
    case Gcp(c) =>
      FlagWord("--project-id=", c.projectId);
      FlagWord("--secret-name=", c.secretName);
      FlagWord("--secret-version=", c.secretVersion);
      FlagWord("--google-application-credentials=", GOOGLE_KEY_PATH + "/" + GOOGLE_KEY_FILE);
  }

  /** Reading back one printed layer, whatever stands behind it, `--` included. */
  lemma WordsReadBack(name: string, flags: seq<string>, inner: seq<string>)
    requires name != SEPARATOR && SEPARATOR !in flags
    ensures ReadLayer([name] + flags + [SEPARATOR] + inner) == Some(Layer(name, flags, inner))
  {
    var args := [name] + flags + [SEPARATOR] + inner;
    var n := |flags| + 1;
    forall k | 0 < k < n ensures args[k] != SEPARATOR {
      assert args[k] == flags[k - 1];
    }
    assert args[0] == name && args[n] == SEPARATOR;
    assert FirstSeparator(args) == n;
    assert args[1..n] == flags;
    assert args[n + 1..] == inner;
  }

  lemma LayerReadsBack(p: Provider, inner: seq<string>)
    ensures ReadLayer(p.Layer() + inner) == Some(Layer(p.Name(), p.Flags(), inner))
  {
    NoFlagIsSeparator(p);
    WordsReadBack(p.Name(), p.Flags(), inner);
  }

  /** The layers around `argv`, the last provider's outermost. */
  function StackArgs(ps: seq<Provider>, argv: seq<string>): seq<string> {
    if ps == [] then argv
    else
      var n := |ps| - 1;
      ps[n].Layer() + StackArgs(ps[..n], argv)
  }

  lemma {:induction false} MutatedArgs(ps: seq<Provider>, c: Container)
    ensures MutatedByAll(ps, c).args == StackArgs(ps, c.args)
    decreases |ps|
  {
    hide Provider.Layer, Provider.AddedEnv, Provider.AddedMounts;
    if ps != [] {
      MutatedArgs(ps[..|ps| - 1], c);
    }
  }

  lemma {:induction false} PeelUndoesProviders(ps: seq<Provider>, argv: seq<string>)
    ensures Peel(StackArgs(ps, argv), |ps|) == Some((ReversedNames(ps), argv))
    decreases |ps|
  {
    hide Provider.Layer, Provider.Name, Provider.Flags, ReadLayer;
    if ps != [] {
      var n := |ps| - 1;
      LayerReadsBack(ps[n], StackArgs(ps[..n], argv));
      PeelUndoesProviders(ps[..n], argv);
    }
  }

  // ------------------------------------------------------------------ reading flags

  const BLANK_VAULT := VaultConfig(true, "", "", "", "", "", "", "", "", "", false, "", [])

  function ReadVaultFlag(c: VaultConfig, w: string): VaultConfig {
    if "--role=" <= w then c.(role := w[7..])
    else if "--kubernetes-backend=" <= w then
      c.(kubernetesBackend := w[21..], backend := w[21..], authPath := w[21..])
    else if "--token-path=" <= w then c.(tokenPath := w[13..])
    else if "--secret-config=" <= w then c.(secretConfigs := c.secretConfigs + [w[16..]])
    else if "--path=" <= w then c.(path := w[7..])
    else if w == "--names-as-keys" then c.(namesAsKeys := true)
    else if "--version=" <= w then c.(version := w[10..])
    else c
  }

  function ReadVaultFlags(c: VaultConfig, words: seq<string>): VaultConfig {
    if words == [] then c
    else
      var n := |words| - 1;
      ReadVaultFlag(ReadVaultFlags(c, words[..n]), words[n])
  }

  function ReadAwsFlag(c: AwsConfig, w: string): AwsConfig {
    if "--region=" <= w then c.(region := w[9..])
    else if "--secret-name=" <= w then c.(secretName := w[14..])
    else if "--role-arn=" <= w then c.(roleArn := w[11..])
    else if "--previous-version=" <= w then c.(previousVersion := w[19..])
    else c
  }

  function ReadAwsFlags(c: AwsConfig, words: seq<string>): AwsConfig {
    if words == [] then c
    else
      var n := |words| - 1;
      ReadAwsFlag(ReadAwsFlags(c, words[..n]), words[n])
  }

  function ReadGcpFlag(c: GcpConfig, w: string, keySecret: string): GcpConfig {
    if "--project-id=" <= w then c.(projectId := w[13..])
    else if "--secret-name=" <= w then c.(secretName := w[14..])
    else if "--secret-version=" <= w then c.(secretVersion := w[17..])
    else if "--google-application-credentials=" <= w then c.(keySecretName := keySecret)
    else c
  }

  function ReadGcpFlags(c: GcpConfig, words: seq<string>, keySecret: string): GcpConfig {
    if words == [] then c
    else
      var n := |words| - 1;
      ReadGcpFlag(ReadGcpFlags(c, words[..n], keySecret), words[n], keySecret)
  }

  /** The secret behind the last volume of that name. */
  function SecretOf(volumes: seq<Volume>, name: string): string {
    if volumes == [] then ""
    else
      var n := |volumes| - 1;
      if volumes[n].name == name && volumes[n].source.Secret? then volumes[n].source.secretName
      else SecretOf(volumes[..n], name)
  }

  /** The whole provider: flags, plus the last two environment entries and the volumes. */
  function Decode(layer: Layer, env: seq<EnvVar>, volumes: seq<Volume>): Option<Provider> {
    if layer.name == "vault" && |env| >= 2 then
      var c := ReadVaultFlags(BLANK_VAULT, layer.flags);
      var tls := env[|env| - 1];
      var addr := env[|env| - 2].value;
      Some(Vault(
        if tls.name == "VAULT_CACERT" && VAULT_TLS_PATH <= tls.value then
          c.(addr := addr, tlsSecretName := SecretOf(volumes, VAULT_TLS_VOLUME),
             caCert := tls.value[|VAULT_TLS_PATH|..])
        else c.(addr := addr)))
    else if layer.name == "aws" then
      Some(Aws(ReadAwsFlags(AwsConfig(true, "", "", "", ""), layer.flags)))
    else if layer.name == "azure" && |layer.flags| == 1 && "--azure-vault-name=" <= layer.flags[0] then
      Some(Azure(AzureConfig(true, layer.flags[0][19..])))
    else if layer.name == "gcp" then
      Some(Gcp(ReadGcpFlags(GcpConfig(true, "", "", "", ""), layer.flags, SecretOf(volumes, GOOGLE_KEY_VOLUME))))
    else None
  }

  /** What can be recovered: everything, except the CA file name when no TLS secret goes with it. */
  function Canonical(p: Provider): Provider {
    match p
    case Vault(c) =>
      Vault(c.(enabled := true, authPath := c.kubernetesBackend, backend := c.kubernetesBackend,
               caCert := if c.tlsSecretName == "" then "" else c.caCert))
    case Aws(c) => Aws(c.(enabled := true))
    case Azure(c) => Azure(c.(enabled := true))
    case Gcp(c) => Gcp(c.(enabled := true))
  }

  // ---- one flag at a time

  /** Two words that differ at a position inside both prefixes cannot be confused. */
  lemma Clash(p: string, q: string, v: string, k: nat)
    requires k < |p| && k < |q| && p[k] != q[k]
    ensures !(q <= p + v)
  {
    assert (p + v)[k] == p[k];
  }

  lemma Strip(p: string, v: string)
    ensures p <= p + v && (p + v)[|p|..] == v
  {
  }

  lemma {:induction false} VaultFlagsAppend(c: VaultConfig, a: seq<string>, b: seq<string>)
    ensures ReadVaultFlags(c, a + b) == ReadVaultFlags(ReadVaultFlags(c, a), b)
    decreases |b|
  {
    if b == [] {
      assert a + b == a;
    } else {
      assert (a + b)[..|a + b| - 1] == a + b[..|b| - 1];
      VaultFlagsAppend(c, a, b[..|b| - 1]);
    }
  }

  lemma OneVaultFlag(c: VaultConfig, w: string)
    ensures ReadVaultFlags(c, [w]) == ReadVaultFlag(c, w)
  {
    assert [w][..0] == [];
  }

  lemma ReadRole(c: VaultConfig, v: string)
    ensures ReadVaultFlags(c, ["--role=" + v]) == c.(role := v)
  {
    OneVaultFlag(c, "--role=" + v);
    Strip("--role=", v);
  }

  lemma ReadBackend(c: VaultConfig, v: string)
    requires c.kubernetesBackend == c.backend == c.authPath == ""
    ensures ReadVaultFlags(c, Flag("--kubernetes-backend=", v))
         == c.(kubernetesBackend := v, backend := v, authPath := v)
  {
    var p := "--kubernetes-backend=";
    OneVaultFlag(c, p + v);
    Clash(p, "--role=", v, 2);
    Strip(p, v);
  }

  lemma ReadTokenPath(c: VaultConfig, v: string)
    requires c.tokenPath == ""
    ensures ReadVaultFlags(c, Flag("--token-path=", v)) == c.(tokenPath := v)
  {
    var p := "--token-path=";
    OneVaultFlag(c, p + v);
    Clash(p, "--role=", v, 2);
    Clash(p, "--kubernetes-backend=", v, 2);
    Strip(p, v);
  }

  lemma ReadSecretConfig(c: VaultConfig, v: string)
    ensures ReadVaultFlag(c, "--secret-config=" + v) == c.(secretConfigs := c.secretConfigs + [v])
  {
    var p := "--secret-config=";
    Clash(p, "--role=", v, 2);
    Clash(p, "--kubernetes-backend=", v, 2);
    Clash(p, "--token-path=", v, 2);
    Strip(p, v);
  }

  lemma {:induction false} ReadSecretConfigs(c: VaultConfig, vs: seq<string>)
    ensures ReadVaultFlags(c, SecretConfigFlags(vs)) == c.(secretConfigs := c.secretConfigs + vs)
    decreases |vs|
  {
    if vs == [] {
      assert c.secretConfigs + [] == c.secretConfigs;
    } else {
      var n := |vs| - 1;
      var flags := SecretConfigFlags(vs);
      assert flags[..|flags| - 1] == SecretConfigFlags(vs[..n]);
      ReadSecretConfigs(c, vs[..n]);
      ReadSecretConfig(c.(secretConfigs := c.secretConfigs + vs[..n]), vs[n]);
      assert c.secretConfigs + vs[..n] + [vs[n]] == c.secretConfigs + vs;
    }
  }

  lemma ReadPath(c: VaultConfig, v: string)
    requires c.path == ""
    ensures ReadVaultFlags(c, Flag("--path=", v)) == c.(path := v)
  {
    var p := "--path=";
    OneVaultFlag(c, p + v);
    Clash(p, "--role=", v, 2);
    Clash(p, "--kubernetes-backend=", v, 2);
    Clash(p, "--token-path=", v, 2);
    Clash(p, "--secret-config=", v, 2);
    Strip(p, v);
  }

  lemma ReadNamesAsKeys(c: VaultConfig)
    ensures ReadVaultFlags(c, ["--names-as-keys"]) == c.(namesAsKeys := true)
  {
    var p := "--names-as-keys";
    OneVaultFlag(c, p);
    assert p[2] == 'n';
  }

  lemma ReadVersion(c: VaultConfig, v: string)
    requires c.version == ""
    ensures ReadVaultFlags(c, Flag("--version=", v)) == c.(version := v)
  {
    var p := "--version=";
    OneVaultFlag(c, p + v);
    Clash(p, "--role=", v, 2);
    Clash(p, "--kubernetes-backend=", v, 2);
    Clash(p, "--token-path=", v, 2);
    Clash(p, "--secret-config=", v, 2);
    Clash(p, "--path=", v, 2);
    assert (p + v)[2] == 'v' && "--names-as-keys"[2] == 'n';
    Strip(p, v);
  }

  lemma VaultFlagsReadBack(c: VaultConfig)
    ensures ReadVaultFlags(BLANK_VAULT, VaultFlags(c))
         == BLANK_VAULT.(role := c.role, kubernetesBackend := c.kubernetesBackend,
                        backend := c.kubernetesBackend, authPath := c.kubernetesBackend,
                        tokenPath := c.tokenPath, secretConfigs := c.secretConfigs, path := c.path,
                        namesAsKeys := c.namesAsKeys, version := c.version)
  {
    var f0 := ["--role=" + c.role];
    ReadRole(BLANK_VAULT, c.role);
    var c0 := BLANK_VAULT.(role := c.role);
    var b := c.kubernetesBackend;
    var c1 := c0.(kubernetesBackend := b, backend := b, authPath := b);
    var f1 := f0 + Flag("--kubernetes-backend=", b);
    assert ReadVaultFlags(BLANK_VAULT, f1) == c1 by {
      VaultFlagsAppend(BLANK_VAULT, f0, Flag("--kubernetes-backend=", b));
      ReadBackend(c0, b);
    }
    var c2 := c1.(tokenPath := c.tokenPath);
    var f2 := f1 + Flag("--token-path=", c.tokenPath);
    assert ReadVaultFlags(BLANK_VAULT, f2) == c2 by {
      VaultFlagsAppend(BLANK_VAULT, f1, Flag("--token-path=", c.tokenPath));
      ReadTokenPath(c1, c.tokenPath);
    }
    var c3 := c2.(secretConfigs := c.secretConfigs);
    var f3 := f2 + SecretConfigFlags(c.secretConfigs);
    assert ReadVaultFlags(BLANK_VAULT, f3) == c3 by {
      VaultFlagsAppend(BLANK_VAULT, f2, SecretConfigFlags(c.secretConfigs));
      ReadSecretConfigs(c2, c.secretConfigs);
      assert [] + c.secretConfigs == c.secretConfigs;
    }
    var c4 := c3.(path := c.path);
    var f4 := f3 + Flag("--path=", c.path);
    assert ReadVaultFlags(BLANK_VAULT, f4) == c4 by {
      VaultFlagsAppend(BLANK_VAULT, f3, Flag("--path=", c.path));
      ReadPath(c3, c.path);
    }
    var c5 := c4.(namesAsKeys := c.namesAsKeys);
    var names := if c.namesAsKeys then ["--names-as-keys"] else [];
    var f5 := f4 + names;
    assert ReadVaultFlags(BLANK_VAULT, f5) == c5 by {
      VaultFlagsAppend(BLANK_VAULT, f4, names);
      ReadNamesAsKeys(c4);
    }
    VaultFlagsAppend(BLANK_VAULT, f5, Flag("--version=", c.version));
    ReadVersion(c5, c.version);
  }

  lemma {:induction false} AwsFlagsAppend(c: AwsConfig, a: seq<string>, b: seq<string>)
    ensures ReadAwsFlags(c, a + b) == ReadAwsFlags(ReadAwsFlags(c, a), b)
    decreases |b|
  {
    if b == [] {
      assert a + b == a;
    } else {
      assert (a + b)[..|a + b| - 1] == a + b[..|b| - 1];
      AwsFlagsAppend(c, a, b[..|b| - 1]);
    }
  }

  lemma OneAwsFlag(c: AwsConfig, w: string)
    ensures ReadAwsFlags(c, [w]) == ReadAwsFlag(c, w)
  {
    assert [w][..0] == [];
  }

  lemma ReadRegion(c: AwsConfig, v: string)
    ensures ReadAwsFlags(c, ["--region=" + v]) == c.(region := v)
  {
    OneAwsFlag(c, "--region=" + v);
    Strip("--region=", v);
  }

  lemma ReadAwsSecretName(c: AwsConfig, v: string)
    requires c.secretName == ""
    ensures ReadAwsFlags(c, Flag("--secret-name=", v)) == c.(secretName := v)
  {
    var p := "--secret-name=";
    OneAwsFlag(c, p + v);
    Clash(p, "--region=", v, 2);
    Strip(p, v);
  }

  lemma ReadRoleArn(c: AwsConfig, v: string)
    requires c.roleArn == ""
    ensures ReadAwsFlags(c, Flag("--role-arn=", v)) == c.(roleArn := v)
  {
    var p := "--role-arn=";
    OneAwsFlag(c, p + v);
    Clash(p, "--region=", v, 3);
    Clash(p, "--secret-name=", v, 2);
    Strip(p, v);
  }

  lemma ReadPreviousVersion(c: AwsConfig, v: string)
    requires c.previousVersion == ""
    ensures ReadAwsFlags(c, Flag("--previous-version=", v)) == c.(previousVersion := v)
  {
    var p := "--previous-version=";
    OneAwsFlag(c, p + v);
    Clash(p, "--region=", v, 2);
    Clash(p, "--secret-name=", v, 2);
    Clash(p, "--role-arn=", v, 2);
    Strip(p, v);
  }

  lemma AwsFlagsReadBack(c: AwsConfig)
    ensures ReadAwsFlags(AwsConfig(true, "", "", "", ""), Aws(c).Flags()) == c.(enabled := true)
  {
    var blank := AwsConfig(true, "", "", "", "");
    var f0 := ["--region=" + c.region];
    var c0 := blank.(region := c.region);
    ReadRegion(blank, c.region);
    var f1 := f0 + Flag("--secret-name=", c.secretName);
    var c1 := c0.(secretName := c.secretName);
    assert ReadAwsFlags(blank, f1) == c1 by {
      AwsFlagsAppend(blank, f0, Flag("--secret-name=", c.secretName));
      ReadAwsSecretName(c0, c.secretName);
    }
    var f2 := f1 + Flag("--role-arn=", c.roleArn);
    var c2 := c1.(roleArn := c.roleArn);
    assert ReadAwsFlags(blank, f2) == c2 by {
      AwsFlagsAppend(blank, f1, Flag("--role-arn=", c.roleArn));
      ReadRoleArn(c1, c.roleArn);
    }
    AwsFlagsAppend(blank, f2, Flag("--previous-version=", c.previousVersion));
    ReadPreviousVersion(c2, c.previousVersion);
  }

  lemma {:induction false} GcpFlagsAppend(c: GcpConfig, a: seq<string>, b: seq<string>, key: string)
    ensures ReadGcpFlags(c, a + b, key) == ReadGcpFlags(ReadGcpFlags(c, a, key), b, key)
    decreases |b|
  {
    if b == [] {
      assert a + b == a;
    } else {
      assert (a + b)[..|a + b| - 1] == a + b[..|b| - 1];
      GcpFlagsAppend(c, a, b[..|b| - 1], key);
    }
  }

  lemma OneGcpFlag(c: GcpConfig, w: string, key: string)
    ensures ReadGcpFlags(c, [w], key) == ReadGcpFlag(c, w, key)
  {
    assert [w][..0] == [];
  }

  lemma ReadProject(c: GcpConfig, v: string, key: string)
    ensures ReadGcpFlags(c, ["--project-id=" + v], key) == c.(projectId := v)
  {
    OneGcpFlag(c, "--project-id=" + v, key);
    Strip("--project-id=", v);
  }

  lemma ReadGcpSecretName(c: GcpConfig, v: string, key: string)
    requires c.secretName == ""
    ensures ReadGcpFlags(c, Flag("--secret-name=", v), key) == c.(secretName := v)
  {
    var p := "--secret-name=";
    OneGcpFlag(c, p + v, key);
    Clash(p, "--project-id=", v, 2);
    Strip(p, v);
  }

  lemma ReadSecretVersion(c: GcpConfig, v: string, key: string)
    requires c.secretVersion == ""
    ensures ReadGcpFlags(c, Flag("--secret-version=", v), key) == c.(secretVersion := v)
  {
    var p := "--secret-version=";
    OneGcpFlag(c, p + v, key);
    Clash(p, "--project-id=", v, 2);
    Clash(p, "--secret-name=", v, 9);
    Strip(p, v);
  }

  lemma ReadGoogleKey(c: GcpConfig, v: string, key: string)
    ensures ReadGcpFlags(c, ["--google-application-credentials=" + v], key) == c.(keySecretName := key)
  {
    var p := "--google-application-credentials=";
    OneGcpFlag(c, p + v, key);
    Clash(p, "--project-id=", v, 2);
    Clash(p, "--secret-name=", v, 2);
    Clash(p, "--secret-version=", v, 2);
    Strip(p, v);
  }

  lemma GcpFlagsReadBack(c: GcpConfig, key: string)
    requires c.keySecretName != "" ==> key == c.keySecretName
    ensures ReadGcpFlags(GcpConfig(true, "", "", "", ""), Gcp(c).Flags(), key) == c.(enabled := true)
  {
    var blank := GcpConfig(true, "", "", "", "");
    var f0 := ["--project-id=" + c.projectId];
    var c0 := blank.(projectId := c.projectId);
    ReadProject(blank, c.projectId, key);
    var f1 := f0 + Flag("--secret-name=", c.secretName);
    var c1 := c0.(secretName := c.secretName);
    assert ReadGcpFlags(blank, f1, key) == c1 by {
      GcpFlagsAppend(blank, f0, Flag("--secret-name=", c.secretName), key);
      ReadGcpSecretName(c0, c.secretName, key);
    }
    var f2 := f1 + Flag("--secret-version=", c.secretVersion);
    var c2 := c1.(secretVersion := c.secretVersion);
    assert ReadGcpFlags(blank, f2, key) == c2 by {
      GcpFlagsAppend(blank, f1, Flag("--secret-version=", c.secretVersion), key);
      ReadSecretVersion(c1, c.secretVersion, key);
    }
    var path := GOOGLE_KEY_PATH + "/" + GOOGLE_KEY_FILE;
    var last := if c.keySecretName != "" then ["--google-application-credentials=" + path] else [];
    GcpFlagsAppend(blank, f2, last, key);
    ReadGoogleKey(c2, path, key);
    assert Gcp(c).Flags() == f2 + last;
  }

  // ------------------------------------------------------------ one provider read back

  /** The environment and volumes carry what this provider put there. */
  ghost predicate Carries(p: Provider, env: seq<EnvVar>, volumes: seq<Volume>) {
    && (p.Vault? ==> |env| >= 2 && env[|env| - 2..] == p.AddedEnv())
    && (forall v :: v in p.ExtraVolumes() ==> SecretOf(volumes, v.name) == v.source.secretName)
  }

  lemma DecodeUndoesPrint(p: Provider, inner: seq<string>, env: seq<EnvVar>, volumes: seq<Volume>)
    requires forall v :: v in p.ExtraVolumes() ==> v.source.Secret?
    requires Carries(p, env, volumes)
    ensures Decode(Layer(p.Name(), p.Flags(), inner), env, volumes) == Some(Canonical(p))
  {
    hide ReadVaultFlags, ReadAwsFlags, ReadGcpFlags, VaultFlags, Flag;
    match p
    case Vault(c) =>
      VaultFlagsReadBack(c);
      assert env[|env| - 2] == p.AddedEnv()[0] && env[|env| - 1] == p.AddedEnv()[1];
      Strip(VAULT_TLS_PATH, c.caCert);
      if c.tlsSecretName != "" {
        assert p.ExtraVolumes()[0] in p.ExtraVolumes();
      }
    case Aws(c) => AwsFlagsReadBack(c);
    case Azure(c) => Strip("--azure-vault-name=", c.vaultName);
    case Gcp(c) =>
      if c.keySecretName != "" {
        assert p.ExtraVolumes()[0] in p.ExtraVolumes();
      }
      GcpFlagsReadBack(c, SecretOf(volumes, GOOGLE_KEY_VOLUME));
  }

  // ------------------------------------------------------------ the whole stack read back

  function ExtraVolumesOf(ps: seq<Provider>): seq<Volume> {
    if ps == [] then []
    else
      var n := |ps| - 1;
      ExtraVolumesOf(ps[..n]) + ps[n].ExtraVolumes()
  }

  /** Read `n` layers; the outermost layer belongs to the last provider. */
  function DecodeStack(args: seq<string>, n: nat, env: seq<EnvVar>, volumes: seq<Volume>)
    : Option<(seq<Provider>, seq<string>)>
  {
    if n == 0 then Some(([], args))
    else
      match ReadLayer(args)
      case None => None
      case Some(layer) =>
        match (Decode(layer, env, volumes), DecodeStack(layer.inner, n - 1, env, volumes))
        case (Some(p), Some((ps, argv))) => Some((ps + [p], argv))
        case _ => None
  }

  function CanonicalAll(ps: seq<Provider>): seq<Provider> {
    if ps == [] then []
    else
      var n := |ps| - 1;
      CanonicalAll(ps[..n]) + [Canonical(ps[n])]
  }

  lemma ExtraVolumesAreSecrets(p: Provider)
    ensures |p.ExtraVolumes()| <= 1
    ensures forall v :: v in p.ExtraVolumes() ==> v.source.Secret?
  {
  }

  lemma OneMoreLayer(p: Provider, inner: seq<string>, n: nat, env: seq<EnvVar>, volumes: seq<Volume>)
    requires Carries(p, env, volumes)
    ensures DecodeStack(p.Layer() + inner, n + 1, env, volumes)
         == match DecodeStack(inner, n, env, volumes)
            case None => None
            case Some((ps, argv)) => Some((ps + [Canonical(p)], argv))
  {
    LayerReadsBack(p, inner);
    ExtraVolumesAreSecrets(p);
    DecodeUndoesPrint(p, inner, env, volumes);
    hide Canonical, Decode, Carries, ReadLayer, Provider.Layer;
  }

  lemma {:induction false} StackReadsBack(ps: seq<Provider>, argv: seq<string>, env: seq<EnvVar>, volumes: seq<Volume>)
    requires forall p :: p in ps ==> Carries(p, env, volumes)
    ensures DecodeStack(StackArgs(ps, argv), |ps|, env, volumes) == Some((CanonicalAll(ps), argv))
    decreases |ps|
  {
    hide Canonical, Carries, Provider.Layer, ReadLayer, Decode;
    if ps != [] {
      var n := |ps| - 1;
      OneMoreLayer(ps[n], StackArgs(ps[..n], argv), n, env, volumes);
      StackReadsBack(ps[..n], argv, env, volumes);
    }
  }

  lemma {:induction false} EnvKept(ps: seq<Provider>, c: Container, i: nat)
    requires DistinctKinds(ps) && i < |ps| && ps[i].Vault?
    ensures var env := MutatedByAll(ps, c).env;
            |env| >= 2 && env[|env| - 2..] == ps[i].AddedEnv()
    decreases |ps|
  {
    var n := |ps| - 1;
    var before := MutatedByAll(ps[..n], c).env;
    if i == n {
      assert |ps[n].AddedEnv()| == 2;
      assert (before + ps[n].AddedEnv())[|before|..] == ps[n].AddedEnv();
    } else {
      assert ps[i].Kind() != ps[n].Kind();
      assert ps[n].AddedEnv() == [] && before + [] == before;
      EnvKept(ps[..n], c, i);
    }
  }

  lemma VolumeNamesDiffer(p: Provider, q: Provider)
    requires p.Kind() != q.Kind()
    ensures forall v, w :: v in p.ExtraVolumes() && w in q.ExtraVolumes() ==> v.name != w.name
  {
    assert VAULT_TLS_VOLUME[0] == 'v' && GOOGLE_KEY_VOLUME[0] == 'g';
  }

  lemma SecretOfAppend(a: seq<Volume>, extra: seq<Volume>, name: string)
    requires |extra| <= 1 && forall w :: w in extra ==> w.source.Secret?
    ensures SecretOf(a + extra, name)
         == if extra != [] && extra[0].name == name then extra[0].source.secretName else SecretOf(a, name)
  {
    var all := a + extra;
    if extra == [] {
      assert all == a;
    } else {
      assert all[|all| - 1] == extra[0] && extra[0] in extra;
      assert all[..|all| - 1] == a;
    }
  }

  lemma {:induction false} VolumeKept(base: seq<Volume>, ps: seq<Provider>, i: nat, v: Volume)
    requires DistinctKinds(ps) && i < |ps| && v in ps[i].ExtraVolumes()
    ensures v.source.Secret? && SecretOf(base + ExtraVolumesOf(ps), v.name) == v.source.secretName
    decreases |ps|
  {
    var n := |ps| - 1;
    var before := base + ExtraVolumesOf(ps[..n]);
    assert base + ExtraVolumesOf(ps) == before + ps[n].ExtraVolumes();
    ExtraVolumesAreSecrets(ps[n]);
    SecretOfAppend(before, ps[n].ExtraVolumes(), v.name);
    if i != n {
      VolumeKept(base, ps[..n], i, v);
      assert ps[i].Kind() != ps[n].Kind();
      VolumeNamesDiffer(ps[i], ps[n]);
      hide Provider.ExtraVolumes, Provider.Kind;
      if ps[n].ExtraVolumes() != [] { assert ps[n].ExtraVolumes()[0] in ps[n].ExtraVolumes(); }
    }
  }

  /**
   * Round trip: the printed mutation determines every provider up to `Canonical`, in order, and the
   * argv underneath, whatever words, variables and volumes the pod already had.
   */
  lemma MutationReadsBack(ps: seq<Provider>, c: Container, base: seq<Volume>)
    requires DistinctKinds(ps)
    ensures var m := MutatedByAll(ps, c);
            DecodeStack(m.args, |ps|, m.env, base + ExtraVolumesOf(ps)) == Some((CanonicalAll(ps), c.args))
  {
    hide Provider.AddedEnv, Provider.ExtraVolumes, Provider.Kind, SecretOf, DecodeStack, MutatedByAll, ExtraVolumesOf;
    var env := MutatedByAll(ps, c).env;
    var volumes := base + ExtraVolumesOf(ps);
    forall p | p in ps ensures Carries(p, env, volumes) {
      var i :| 0 <= i < |ps| && ps[i] == p;
      if p.Vault? { EnvKept(ps, c, i); }
      ExtraVolumesAreSecrets(p);
      forall v | v in p.ExtraVolumes() ensures SecretOf(volumes, v.name) == v.source.secretName {
        VolumeKept(base, ps, i, v);
      }
    }
    MutatedArgs(ps, c);
    StackReadsBack(ps, c.args, env, volumes);
  }

  lemma {:induction false} PeelShrinks(args: seq<string>, n: nat, m: nat)
    requires n < m && Peel(args, n).Some? && Peel(args, m).Some?
    ensures |Peel(args, m).value.1| < |Peel(args, n).value.1|
    decreases m
  {
    var inner := ReadLayer(args).value.inner;
    if n > 0 {
      PeelShrinks(inner, n - 1, m - 1);
    } else if m > 1 {
      PeelShrinks(inner, 0, m - 1);
    }
  }

  /** Two provider lists that mutate one container alike are the same list, up to `Canonical`. */
  lemma MutationInjective(ps: seq<Provider>, qs: seq<Provider>, c: Container, base: seq<Volume>)
    requires DistinctKinds(ps) && DistinctKinds(qs)
    requires MutatedByAll(ps, c).args == MutatedByAll(qs, c).args
    requires MutatedByAll(ps, c).env == MutatedByAll(qs, c).env
    requires base + ExtraVolumesOf(ps) == base + ExtraVolumesOf(qs)
    ensures CanonicalAll(ps) == CanonicalAll(qs)
  {
    hide DecodeStack, CanonicalAll, MutatedByAll;
    var args := MutatedByAll(ps, c).args;
    MutatedArgs(ps, c);
    MutatedArgs(qs, c);
    PeelUndoesProviders(ps, c.args);
    PeelUndoesProviders(qs, c.args);
    if |ps| < |qs| { PeelShrinks(args, |ps|, |qs|); }
    if |qs| < |ps| { PeelShrinks(args, |qs|, |ps|); }
    MutationReadsBack(ps, c, base);
    MutationReadsBack(qs, c, base);
  }

  // ---- from the annotations to what the injector reads

  /**
   * Whatever stands behind them, the injector reads the Vault flags as the annotations say; address and
   * TLS come as variables and volume.
   */
  lemma VaultLayerSaysAnnotations(a: map<string, string>, rt: SecretConfigOrder.Runtime, inner: seq<string>)
    ensures var p := FromAnnotations(VaultKind, a, rt);
            var tls := Get(a, "vault.opstree.secret.manager/tls-secret");
            && ReadLayer(p.Layer() + inner) == Some(Layer("vault", p.Flags(), inner))
            && var c := ReadVaultFlags(BLANK_VAULT, p.Flags());
            && c.role == Get(a, "vault.opstree.secret.manager/role")
            && c.kubernetesBackend == Get(a, "vault.opstree.secret.manager/auth-path")
            && c.tokenPath == Get(a, "vault.opstree.secret.manager/k8s-token-path")
            && c.path == Get(a, "vault.opstree.secret.manager/path")
            && c.version == Get(a, "vault.opstree.secret.manager/secret-version")
            && (c.namesAsKeys <==> Get(a, "vault.opstree.secret.manager/use-secret-names-as-keys")
                                   in {"1", "t", "T", "true", "TRUE", "True"})
            && p.AddedEnv() == [Literal("VAULT_ADDR", Get(a, "vault.opstree.secret.manager/service"))]
                 + (if tls != ""
                    then [Literal("VAULT_CACERT", "/etc/tls/" + Get(a, "vault.opstree.secret.manager/ca-cert"))]
                    else [Literal("VAULT_SKIP_VERIFY", "true")])
            && p.ExtraVolumes() == if tls != "" then [Volume("vault-tls", Secret(tls))] else []
  {
    var p := FromAnnotations(VaultKind, a, rt);
    LayerReadsBack(p, inner);
    VaultFlagsReadBack(p.vault);
    hide ReadVaultFlags, VaultFlags, Get, SecretConfigOrder.SortedKeys, ValuesAt, EnabledKey, ReadLayer;
  }

  lemma AwsLayerSaysAnnotations(a: map<string, string>, rt: SecretConfigOrder.Runtime, inner: seq<string>)
    ensures var p := FromAnnotations(AwsKind, a, rt);
            && ReadLayer(p.Layer() + inner) == Some(Layer("aws", p.Flags(), inner))
            && var c := ReadAwsFlags(AwsConfig(true, "", "", "", ""), p.Flags());
            && c.region == Get(a, "aws.opstree.secret.manager/region")
            && c.secretName == Get(a, "aws.opstree.secret.manager/secret-name")
            && c.previousVersion == Get(a, "aws.opstree.secret.manager/previous-version")
            && c.roleArn == Get(a, "aws.opstree.secret.manager/role-arn")
            && p.AddedEnv() == [] && p.ExtraVolumes() == []
  {
    var p := FromAnnotations(AwsKind, a, rt);
    LayerReadsBack(p, inner);
    AwsFlagsReadBack(p.aws);
    hide ReadAwsFlags, Provider.Flags, Get, EnabledKey, ReadLayer;
  }

  lemma AzureLayerSaysAnnotations(a: map<string, string>, rt: SecretConfigOrder.Runtime, inner: seq<string>)
    ensures var p := FromAnnotations(AzureKind, a, rt);
            && ReadLayer(p.Layer() + inner)
               == Some(Layer("azure",
                             ["--azure-vault-name=" + Get(a, "azure.opstree.secret.manager/vault-name")], inner))
            && p.AddedEnv() == [] && p.ExtraVolumes() == []
  {
    LayerReadsBack(FromAnnotations(AzureKind, a, rt), inner);
    hide ReadLayer, Get, EnabledKey;
  }

  /** The key volume decides whether the key file is named. */
  lemma GcpLayerSaysAnnotations(a: map<string, string>, rt: SecretConfigOrder.Runtime, inner: seq<string>)
    ensures var p := FromAnnotations(GcpKind, a, rt);
            var key := Get(a, "gcp.opstree.secret.manager/gcp-service-account-key-secret-name");
            && ReadLayer(p.Layer() + inner) == Some(Layer("gcp", p.Flags(), inner))
            && var c := ReadGcpFlags(GcpConfig(true, "", "", "", ""), p.Flags(), key);
            && c.projectId == Get(a, "gcp.opstree.secret.manager/project-id")
            && c.secretName == Get(a, "gcp.opstree.secret.manager/secret-name")
            && c.secretVersion == Get(a, "gcp.opstree.secret.manager/secret-version")
            && c.keySecretName == key
            && p.AddedEnv() == []
            && p.ExtraVolumes() == if key != "" then [Volume("google-cloud-key", Secret(key))] else []
  {
    var p := FromAnnotations(GcpKind, a, rt);
    LayerReadsBack(p, inner);
    GcpFlagsReadBack(p.gcp, Get(a, "gcp.opstree.secret.manager/gcp-service-account-key-secret-name"));
    hide ReadGcpFlags, Provider.Flags, Get, EnabledKey, ReadLayer;
  }

  /** A provider built from annotations is recovered whole, except for a CA file name without a TLS secret. */
  lemma BuiltProviderRecoveredIff(k: Kind, a: map<string, string>, rt: SecretConfigOrder.Runtime)
    requires KindEnabled(k, a)
    ensures var p := FromAnnotations(k, a, rt);
            Canonical(p) == p <==> !(p.Vault? && p.vault.tlsSecretName == "" && p.vault.caCert != "")
  {
    EnabledByAnnotation(k, a, rt);
    hide ParseBool, Get, SecretConfigOrder.SortedKeys, ValuesAt, EnabledKey;
  }
}
