/** What a successfully mutated pod guarantees: meaning, volumes, start order, independence of lookups. */
module PodSafety {
  import opened GoText
  import opened Kube
  import opened Providers
  import opened Layers
  import opened Webhook
  import opened SecretConfigOrder

  // ------------------------------------------------------------------ meaning of the argv

  /**
   * Peeling one layer per provider from a rewritten container gives back exactly the argv Kubernetes
   * would have run, however many `--` that argv contains, with the last provider outermost.
   */
  lemma MeaningPreserved(c: Container, ps: seq<Provider>, reply: ImageReply)
    ensures var r := Rewritten(c, ps, reply);
            Peel(r.args, |ps|) == Some((ReversedNames(ps), KubeArgv(c.command, c.args, ImageOf(reply))))
    ensures Rewritten(c, ps, reply).command == [INJECTOR_COMMAND]
  {
    hide Peel, StackArgs, ReversedNames, KubeArgv;
    var inner := c.(command := [INJECTOR_COMMAND], args := KubeArgv(c.command, c.args, ImageOf(reply)));
    MutatedArgs(ps, inner);
    PeelUndoesProviders(ps, inner.args);
    KeepsRest(ps, inner);
  }

  lemma {:induction false} KeepsRest(ps: seq<Provider>, c: Container)
    ensures var m := MutatedByAll(ps, c);
            m == c.(args := m.args, env := m.env, mounts := m.mounts)
    decreases |ps|
  {
    hide Provider.Layer, Provider.AddedEnv, Provider.AddedMounts;
    if ps != [] {
      KeepsRest(ps[..|ps| - 1], c);
    }
  }

  /** The configuration of every provider can be read off the finished pod. */
  lemma RewrittenReadsBack(c: Container, ps: seq<Provider>, reply: ImageReply, base: seq<Volume>)
    requires DistinctKinds(ps)
    ensures var r := Rewritten(c, ps, reply);
            DecodeStack(r.args, |ps|, r.env, base + ([Volume(INJECTOR_VOLUME, MemoryDir)] + ExtraVolumesOf(ps)))
            == Some((CanonicalAll(ps), KubeArgv(c.command, c.args, ImageOf(reply))))
  {
    hide DecodeStack, CanonicalAll, KubeArgv, MutatedByAll, ExtraVolumesOf;
    var inner := c.(command := [INJECTOR_COMMAND], args := KubeArgv(c.command, c.args, ImageOf(reply)));
    var volumes := base + [Volume(INJECTOR_VOLUME, MemoryDir)];
    MutationReadsBack(ps, inner, volumes);
    assert base + ([Volume(INJECTOR_VOLUME, MemoryDir)] + ExtraVolumesOf(ps)) == volumes + ExtraVolumesOf(ps);
  }

  // ---- the `$(NAME)` references that Kubernetes substitutes in command and args, but not in an image's words

  /** `$$` stands for a dollar sign, and a reference to a variable that is not set stays as it is. */
  function Expand(vars: map<string, string>, w: string): string
    decreases |w|
  {
    if w == "" then ""
    else if |w| == 1 || w[0] != '$' || (w[1] != '$' && w[1] != '(') then [w[0]] + Expand(vars, w[1..])
    else if w[1] == '$' then "$" + Expand(vars, w[2..])
    else
      var m := IndexByte(w[2..], ')');
      if m < 0 then "$(" + Expand(vars, w[2..]) else Value(vars, w[2..][..m]) + Expand(vars, w[2..][m + 1..])
  }

  function Value(vars: map<string, string>, name: string): string {
    if name in vars then vars[name] else "$(" + name + ")"
  }

  function ExpandAll(vars: map<string, string>, words: seq<string>): seq<string> {
    seq(|words|, i requires 0 <= i < |words| => Expand(vars, words[i]))
  }

  /** The variables of a container: each entry sees the ones before it and replaces those of its name. */
  function Vars(base: map<string, string>, env: seq<EnvVar>, resolve: EnvVar -> Option<string>): map<string, string> {
    if env == [] then base
    else
      var n := |env| - 1;
      var before := Vars(base, env[..n], resolve);
      var value := if env[n].valueFrom.Some? && env[n].value == "" then resolve(env[n])
                   else Some(Expand(before, env[n].value));
      if value.Some? then before[env[n].name := value.value] else before
  }

  /** The argv of an untouched container, its references substituted. */
  function SubstitutedArgv(vars: map<string, string>, c: Container, image: ImageConfig): seq<string> {
    if c.command != [] then ExpandAll(vars, c.command) + ExpandAll(vars, c.args)
    else if c.args != [] then image.entrypoint + ExpandAll(vars, c.args)
    else image.entrypoint + image.cmd
  }

  lemma ExpandFirst(vars: map<string, string>, w: string)
    requires w != "" && w[0] != '$'
    ensures Expand(vars, w) == [w[0]] + Expand(vars, w[1..])
  {
    hide IndexByte, Value;
  }

  /** Substitution only ever acts from a `$` on. */
  lemma {:induction false} ExpandPlain(vars: map<string, string>, u: string, v: string)
    requires '$' !in u
    ensures Expand(vars, u + v) == u + Expand(vars, v)
    decreases |u|
  {
    if u == "" {
      assert u + v == v;
    } else {
      ExpandFirst(vars, u + v);
      hide Expand;
      assert (u + v)[0] == u[0] && (u + v)[1..] == u[1..] + v;
      ExpandPlain(vars, u[1..], v);
    }
  }

  predicate PlainHead(w: string) {
    |w| >= 3 && w[0] != '$' && w[1] != '$' && w[2] != '$'
  }

  lemma {:induction false} SecretConfigHeads(configs: seq<string>)
    ensures forall w :: w in SecretConfigFlags(configs) ==> PlainHead(w)
    decreases |configs|
  {
    if configs != [] {
      var n := |configs| - 1;
      SecretConfigHeads(configs[..n]);
      assert ("--secret-config=" + configs[n])[..3] == "--s";
    }
  }

  lemma PlainNames()
    ensures PlainHead("--role=") && PlainHead("--kubernetes-backend=") && PlainHead("--token-path=")
    ensures PlainHead("--path=") && PlainHead("--names-as-keys") && PlainHead("--version=")
    ensures PlainHead("--region=") && PlainHead("--secret-name=") && PlainHead("--role-arn=")
    ensures PlainHead("--previous-version=") && PlainHead("--azure-vault-name=") && PlainHead("--project-id=")
    ensures PlainHead("--secret-version=") && PlainHead("--google-application-credentials=")
  {
  }

  lemma FlagHead(name: string, value: string)
    requires PlainHead(name)
    ensures PlainHead(name + value)
  {
  }

  lemma FlagsHavePlainHeads(p: Provider)
    ensures forall w :: w in p.Flags() ==> PlainHead(w)
  {
    hide PlainHead;
    PlainNames();
    match p
    case Vault(c) =>
      SecretConfigHeads(c.secretConfigs);
      FlagHead("--role=", c.role);
      FlagHead("--kubernetes-backend=", c.kubernetesBackend);
      FlagHead("--token-path=", c.tokenPath);
      FlagHead("--path=", c.path);
      FlagHead("--version=", c.version);
    case Aws(c) =>
      FlagHead("--region=", c.region);
      FlagHead("--secret-name=", c.secretName);
      FlagHead("--role-arn=", c.roleArn);
      FlagHead("--previous-version=", c.previousVersion);
    case Azure(c) =>
      FlagHead("--azure-vault-name=", c.vaultName);
    case Gcp(c) =>
      FlagHead("--project-id=", c.projectId);
      FlagHead("--secret-name=", c.secretName);
      FlagHead("--secret-version=", c.secretVersion);
      FlagHead("--google-application-credentials=", GOOGLE_KEY_PATH + "/" + GOOGLE_KEY_FILE);
  }

  lemma PlainHeadStays(vars: map<string, string>, w: string)
    requires PlainHead(w)
    ensures Expand(vars, w) != SEPARATOR
  {
    assert w == w[..3] + w[3..];
    assert '$' !in w[..3];
    ExpandPlain(vars, w[..3], w[3..]);
  }

  lemma PlainStays(vars: map<string, string>, w: string)
    requires '$' !in w
    ensures Expand(vars, w) == w
  {
    ExpandPlain(vars, w, "");
    assert w + "" == w;
  }

  lemma NamesArePlain(p: Provider)
    ensures '$' !in p.Name() && '$' !in SEPARATOR
  {
  }

  lemma SubstitutedLayer(vars: map<string, string>, p: Provider, inner: seq<string>)
    ensures ReadLayer(ExpandAll(vars, p.Layer() + inner))
         == Some(Layers.Layer(p.Name(), ExpandAll(vars, p.Flags()), ExpandAll(vars, inner)))
  {
    FlagsHavePlainHeads(p);
    NamesArePlain(p);
    hide Provider.Flags, Provider.Name, PlainHead, ReadLayer, Expand;
    PlainStays(vars, p.Name());
    PlainStays(vars, SEPARATOR);
    NoFlagIsSeparator(p);
    var flags := ExpandAll(vars, p.Flags());
    forall i | 0 <= i < |flags| ensures flags[i] != SEPARATOR {
      PlainHeadStays(vars, p.Flags()[i]);
    }
    WordsReadBack(p.Name(), flags, ExpandAll(vars, inner));
    assert ExpandAll(vars, p.Layer() + inner) == [p.Name()] + flags + [SEPARATOR] + ExpandAll(vars, inner);
  }

  lemma {:induction false} PeelSubstituted(vars: map<string, string>, ps: seq<Provider>, argv: seq<string>)
    ensures Peel(ExpandAll(vars, StackArgs(ps, argv)), |ps|) == Some((ReversedNames(ps), ExpandAll(vars, argv)))
    decreases |ps|
  {
    hide Provider.Layer, Provider.Name, Provider.Flags, ReadLayer, ExpandAll;
    if ps != [] {
      var n := |ps| - 1;
      SubstitutedLayer(vars, ps[n], StackArgs(ps[..n], argv));
      PeelSubstituted(vars, ps[..n], argv);
    }
  }

  lemma ExpandAppend(vars: map<string, string>, a: seq<string>, b: seq<string>)
    ensures ExpandAll(vars, a + b) == ExpandAll(vars, a) + ExpandAll(vars, b)
  {
    hide Expand;
  }

  /** The words expand alike before and after. */
  predicate Alike(before: map<string, string>, after: map<string, string>, words: seq<string>) {
    ExpandAll(after, words) == ExpandAll(before, words)
  }

  /** The words hold nothing that these variables change. */
  predicate Unchanged(vars: map<string, string>, words: seq<string>) {
    ExpandAll(vars, words) == words
  }

  lemma EqualHalves(a: seq<string>, b: seq<string>, x: seq<string>, y: seq<string>)
    requires |a| == |x|
    ensures a + b == x + y <==> a == x && b == y
  {
    if a + b == x + y {
      assert a == (a + b)[..|a|] && x == (x + y)[..|a|];
      assert b == (a + b)[|a|..] && y == (x + y)[|a|..];
    }
  }

  /**
   * What the rewritten container runs is what the original ran exactly when the words it brings itself
   * expand as before, and the image words that moved into args hold nothing to expand.
   */
  lemma MeaningUnderVarsIff(before: map<string, string>, after: map<string, string>, c: Container, ps: seq<Provider>,
                            reply: ImageReply)
    ensures var image := ImageOf(reply);
            Peel(ExpandAll(after, Rewritten(c, ps, reply).args), |ps|)
              == Some((ReversedNames(ps), SubstitutedArgv(before, c, image)))
            <==> if c.command != [] then Alike(before, after, c.command) && Alike(before, after, c.args)
                 else Unchanged(after, image.entrypoint)
                      && if c.args != [] then Alike(before, after, c.args) else Unchanged(after, image.cmd)
  {
    var image := ImageOf(reply);
    var argv := KubeArgv(c.command, c.args, image);
    MutatedArgs(ps, c.(command := [INJECTOR_COMMAND], args := argv));
    PeelSubstituted(after, ps, argv);
    hide Peel, StackArgs, ReversedNames, MutatedByAll, Expand;
    ExpandAppend(after, c.command, c.args);
    ExpandAppend(after, image.entrypoint, c.args);
    ExpandAppend(after, image.entrypoint, image.cmd);
    if c.command != [] {
      EqualHalves(ExpandAll(after, c.command), ExpandAll(after, c.args),
                  ExpandAll(before, c.command), ExpandAll(before, c.args));
    } else if c.args != [] {
      EqualHalves(ExpandAll(after, image.entrypoint), ExpandAll(after, c.args),
                  image.entrypoint, ExpandAll(before, c.args));
    } else {
      EqualHalves(ExpandAll(after, image.entrypoint), ExpandAll(after, image.cmd), image.entrypoint, image.cmd);
    }
  }

  // ---- which variables the rewrite changes

  const ADDED_NAMES := {"VAULT_ADDR", "VAULT_CACERT", "VAULT_SKIP_VERIFY"}

  predicate SameValue(a: map<string, string>, b: map<string, string>, name: string) {
    (name in a <==> name in b) && (name in a ==> a[name] == b[name])
  }

  lemma {:induction false} VarsAppend(base: map<string, string>, a: seq<EnvVar>, b: seq<EnvVar>,
                                      resolve: EnvVar -> Option<string>)
    ensures Vars(base, a + b, resolve) == Vars(Vars(base, a, resolve), b, resolve)
    decreases |b|
  {
    hide Expand;
    if b == [] {
      assert a + b == a;
    } else {
      assert (a + b)[..|a + b| - 1] == a + b[..|b| - 1];
      VarsAppend(base, a, b[..|b| - 1], resolve);
    }
  }

  /** The Vault backend sets its address and one of two TLS variables; the other backends set nothing. */
  function WithVault(vars: map<string, string>, vault: VaultConfig): map<string, string> {
    var addressed := vars["VAULT_ADDR" := Expand(vars, vault.addr)];
    if vault.tlsSecretName != "" then addressed["VAULT_CACERT" := Expand(addressed, VAULT_TLS_PATH + vault.caCert)]
    else addressed["VAULT_SKIP_VERIFY" := "true"]
  }

  /** The variables after the rewrite, told from those before it and the providers. */
  function VarsAfter(before: map<string, string>, ps: seq<Provider>): map<string, string> {
    if ps == [] then before
    else
      var n := |ps| - 1;
      if ps[n].Vault? then WithVault(VarsAfter(before, ps[..n]), ps[n].vault) else VarsAfter(before, ps[..n])
  }

  lemma TwoVars(vars: map<string, string>, a: EnvVar, b: EnvVar, resolve: EnvVar -> Option<string>)
    requires a.valueFrom.None? && b.valueFrom.None?
    ensures var first := vars[a.name := Expand(vars, a.value)];
            Vars(vars, [a, b], resolve) == first[b.name := Expand(first, b.value)]
  {
    hide Expand;
    assert [a, b][..1] == [a] && [a][..0] == [];
    assert Vars(vars, [a], resolve) == vars[a.name := Expand(vars, a.value)];
  }

  lemma ProviderVars(p: Provider, vars: map<string, string>, resolve: EnvVar -> Option<string>)
    ensures Vars(vars, p.AddedEnv(), resolve) == if p.Vault? then WithVault(vars, p.vault) else vars
  {
    if p.Vault? {
      var env := p.AddedEnv();
      TwoVars(vars, env[0], env[1], resolve);
      PlainStays(vars["VAULT_ADDR" := Expand(vars, p.vault.addr)], "true");
      hide Expand, Vars;
      assert env == [env[0], env[1]];
    }
  }

  /** The rewritten container has exactly these variables. */
  lemma {:induction false} RewriteVars(ps: seq<Provider>, c: Container, base: map<string, string>,
                                       resolve: EnvVar -> Option<string>)
    ensures Vars(base, MutatedByAll(ps, c).env, resolve) == VarsAfter(Vars(base, c.env, resolve), ps)
    decreases |ps|
  {
    hide Provider.Layer, Provider.AddedEnv, Provider.AddedMounts, Vars, WithVault;
    if ps != [] {
      var n := |ps| - 1;
      var inner := MutatedByAll(ps[..n], c).env;
      RewriteVars(ps[..n], c, base, resolve);
      VarsAppend(base, inner, ps[n].AddedEnv(), resolve);
      ProviderVars(ps[n], Vars(base, inner, resolve), resolve);
    }
  }

  /** No variable but the three Vault ones changes its value. */
  lemma {:induction false} OnlyVaultNamesChange(before: map<string, string>, ps: seq<Provider>)
    ensures forall name :: name !in ADDED_NAMES ==> SameValue(VarsAfter(before, ps), before, name)
    decreases |ps|
  {
    hide Expand;
    if ps != [] { OnlyVaultNamesChange(before, ps[..|ps| - 1]); }
  }

  /** The names a word refers to. */
  function References(w: string): set<string>
    decreases |w|
  {
    if w == "" then {}
    else if |w| == 1 || w[0] != '$' || (w[1] != '$' && w[1] != '(') then References(w[1..])
    else if w[1] == '$' then References(w[2..])
    else
      var m := IndexByte(w[2..], ')');
      if m < 0 then References(w[2..]) else {w[2..][..m]} + References(w[2..][m + 1..])
  }

  lemma {:induction false} ExpandSeesReferences(a: map<string, string>, b: map<string, string>, w: string)
    requires forall name :: name in References(w) ==> SameValue(a, b, name)
    ensures Expand(a, w) == Expand(b, w)
    decreases |w|
  {
    hide IndexByte;
    if w == "" {
    } else if |w| == 1 || w[0] != '$' || (w[1] != '$' && w[1] != '(') {
      ExpandSeesReferences(a, b, w[1..]);
    } else if w[1] == '$' {
      ExpandSeesReferences(a, b, w[2..]);
    } else {
      var m := IndexByte(w[2..], ')');
      if m < 0 {
        ExpandSeesReferences(a, b, w[2..]);
      } else {
        assert w[2..][..m] in References(w);
        ExpandSeesReferences(a, b, w[2..][m + 1..]);
      }
    }
  }

  /** Every dollar sign is followed by something else than another one. */
  predicate NoEscape(w: string) {
    |w| < 2 || ((w[0] != '$' || w[1] != '$') && NoEscape(w[1..]))
  }

  lemma NoEscapeBehind(w: string, k: nat)
    requires NoEscape(w) && k <= |w|
    ensures NoEscape(w[k..])
    decreases |w|
  {
    if k > 0 && |w| >= 2 {
      NoEscapeBehind(w[1..], k - 1);
      assert w[1..][k - 1..] == w[k..];
    } else if k == 0 {
      assert w[0..] == w;
    }
  }

  /** How far the first step of the substitution reads: one character, an escape, a lone opener, or a reference. */
  function StepLength(w: string): (k: nat)
    requires w != ""
    ensures 0 < k <= |w|
  {
    if |w| == 1 || w[0] != '$' || (w[1] != '$' && w[1] != '(') then 1
    else if w[1] == '$' || ')' !in w[2..] then 2
    else IndexByte(w[2..], ')') + 3
  }

  lemma ReferenceText(w: string, m: nat)
    requires |w| >= m + 3 && w[0] == '$' && w[1] == '(' && w[m + 2] == ')'
    ensures w[..m + 3] == "$(" + w[2..][..m] + ")" && w[2..][m + 1..] == w[m + 3..]
  {
  }

  lemma ReferenceUnfolds(vars: map<string, string>, w: string)
    requires |w| >= 2 && w[0] == '$' && w[1] == '(' && ')' in w[2..]
    ensures var m := IndexByte(w[2..], ')');
            && Expand(vars, w) == Value(vars, w[2..][..m]) + Expand(vars, w[2..][m + 1..])
            && References(w) == {w[2..][..m]} + References(w[2..][m + 1..])
  {
    hide IndexByte, Value;
  }

  lemma ReferenceStep(vars: map<string, string>, w: string) returns (name: string)
    requires |w| >= 2 && w[0] == '$' && w[1] == '(' && ')' in w[2..]
    ensures var k := StepLength(w);
            && w[..k] == "$(" + name + ")"
            && Expand(vars, w) == Value(vars, name) + Expand(vars, w[k..])
            && References(w) == {name} + References(w[k..])
  {
    hide Expand, References, Value, IndexByte;
    var m := IndexByte(w[2..], ')');
    name := w[2..][..m];
    ReferenceUnfolds(vars, w);
    ReferenceText(w, m);
  }

  lemma StepIsKept(vars: map<string, string>, w: string)
    requires w != "" && References(w) !! vars.Keys && NoEscape(w)
    ensures var k := StepLength(w);
            Expand(vars, w) == w[..k] + Expand(vars, w[k..]) && References(w[k..]) <= References(w)
  {
    hide NoEscape, Expand, References, StepLength;
    if |w| >= 2 && w[0] == '$' && w[1] == '(' && ')' in w[2..] {
      var name := ReferenceStep(vars, w);
      assert name in References(w);
    } else {
      PlainStep(vars, w);
    }
  }

  lemma PlainStep(vars: map<string, string>, w: string)
    requires w != "" && NoEscape(w) && !(|w| >= 2 && w[0] == '$' && w[1] == '(' && ')' in w[2..])
    ensures var k := StepLength(w);
            Expand(vars, w) == w[..k] + Expand(vars, w[k..]) && References(w[k..]) == References(w)
  {
    if |w| >= 2 && w[0] == '$' {
      OneIsNotEscaped(w);
      assert w[..2] == [w[0], w[1]];
    }
    assert w[..1] == [w[0]];
  }

  /** A word without `$$` whose references are all unset holds nothing to expand. */
  lemma {:induction false} NothingToExpand(vars: map<string, string>, w: string)
    requires References(w) !! vars.Keys && NoEscape(w)
    ensures Expand(vars, w) == w
    decreases |w|
  {
    if w != "" {
      var k := StepLength(w);
      StepIsKept(vars, w);
      NoEscapeBehind(w, k);
      hide Expand, References, NoEscape, StepLength;
      NothingToExpand(vars, w[k..]);
      assert w == w[..k] + w[k..];
    }
  }

  lemma OneIsNotEscaped(w: string)
    requires NoEscape(w) && |w| >= 2 && w[0] == '$'
    ensures w[1] != '$'
  {
  }

  predicate RefersToAdded(words: seq<string>) {
    exists w :: w in words && References(w) * ADDED_NAMES != {}
  }

  lemma UnreferencedWordsAlike(before: map<string, string>, ps: seq<Provider>, words: seq<string>)
    requires !RefersToAdded(words)
    ensures Alike(before, VarsAfter(before, ps), words)
  {
    OnlyVaultNamesChange(before, ps);
    hide Expand, References, ADDED_NAMES, VarsAfter;
    var after := VarsAfter(before, ps);
    forall i | 0 <= i < |words| ensures Expand(after, words[i]) == Expand(before, words[i]) {
      assert words[i] in words && References(words[i]) * ADDED_NAMES == {};
      forall name | name in References(words[i]) ensures SameValue(after, before, name) {
        assert name !in References(words[i]) * ADDED_NAMES;
      }
      ExpandSeesReferences(after, before, words[i]);
    }
  }

  /** The rewritten container runs what the original ran, each with the variables of its own environment. */
  predicate KeepsMeaning(c: Container, ps: seq<Provider>, reply: ImageReply, base: map<string, string>,
                         resolve: EnvVar -> Option<string>)
  {
    var r := Rewritten(c, ps, reply);
    Peel(ExpandAll(Vars(base, r.env, resolve), r.args), |ps|)
      == Some((ReversedNames(ps), SubstitutedArgv(Vars(base, c.env, resolve), c, ImageOf(reply))))
  }

  lemma RewrittenVars(c: Container, ps: seq<Provider>, reply: ImageReply, base: map<string, string>,
                      resolve: EnvVar -> Option<string>)
    ensures Vars(base, Rewritten(c, ps, reply).env, resolve) == VarsAfter(Vars(base, c.env, resolve), ps)
  {
    var inner := c.(command := [INJECTOR_COMMAND], args := KubeArgv(c.command, c.args, ImageOf(reply)));
    RewriteVars(ps, inner, base, resolve);
    hide MutatedByAll, KubeArgv, Vars, VarsAfter;
  }

  /**
   * With substitution the same argv runs exactly when the container's own words expand as before and
   * the image words that moved into args hold nothing to expand; both can be told from the variables
   * before the rewrite. Own words that refer to no added name always expand as before.
   */
  lemma MeaningUnderSubstitutionIff(c: Container, ps: seq<Provider>, reply: ImageReply, base: map<string, string>,
                                    resolve: EnvVar -> Option<string>)
    ensures var image := ImageOf(reply);
            var before := Vars(base, c.env, resolve);
            var after := VarsAfter(before, ps);
            KeepsMeaning(c, ps, reply, base, resolve)
            <==> if c.command != [] then Alike(before, after, c.command) && Alike(before, after, c.args)
                 else Unchanged(after, image.entrypoint)
                      && if c.args != [] then Alike(before, after, c.args) else Unchanged(after, image.cmd)
    ensures !RefersToAdded(c.command) && !RefersToAdded(c.args) ==>
              var image := ImageOf(reply);
              var after := VarsAfter(Vars(base, c.env, resolve), ps);
              KeepsMeaning(c, ps, reply, base, resolve)
              <==> (c.command != []
                    || (Unchanged(after, image.entrypoint) && (c.args != [] || Unchanged(after, image.cmd))))
  {
    var before := Vars(base, c.env, resolve);
    if !RefersToAdded(c.command) { UnreferencedWordsAlike(before, ps, c.command); }
    if !RefersToAdded(c.args) { UnreferencedWordsAlike(before, ps, c.args); }
    RewrittenVars(c, ps, reply, base, resolve);
    hide Peel, ExpandAll, Rewritten, SubstitutedArgv, Vars, VarsAfter, Unchanged, RefersToAdded, Alike;
    MeaningUnderVarsIff(before, VarsAfter(before, ps), c, ps, reply);
  }

  lemma ReferenceExpands(vars: map<string, string>, name: string)
    requires ')' !in name
    ensures Expand(vars, "$(" + name + ")") == Value(vars, name)
  {
    var w := "$(" + name + ")";
    CutAtFirst(name, ')', "");
    assert w[2..] == name + [')'] + "";
    assert w[2..][|name|] == ')' && forall i :: 0 <= i < |name| ==> w[2..][i] == name[i];
    assert w[2..][..|name|] == name && w[2..][|name| + 1..] == "";
  }

  lemma EchoExpands(vars: map<string, string>)
    ensures Expand(vars, "echo $(VAULT_ADDR)") == "echo " + Value(vars, "VAULT_ADDR")
  {
    assert "echo $(VAULT_ADDR)" == "echo " + ("$(" + "VAULT_ADDR" + ")");
    ExpandPlain(vars, "echo ", "$(" + "VAULT_ADDR" + ")");
    ReferenceExpands(vars, "VAULT_ADDR");
    hide Expand;
  }

  /** A reference to an added name that used to stay literal does change: the address shows through. */
  lemma AddedVariableShowsThrough(c: Container, vault: VaultConfig, reply: ImageReply, base: map<string, string>,
                                  resolve: EnvVar -> Option<string>)
    requires c.command == ["sh", "-c", "echo $(VAULT_ADDR)"]
    requires '$' !in vault.addr && "VAULT_ADDR" !in Vars(base, c.env, resolve)
    ensures !KeepsMeaning(c, [Vault(vault)], reply, base, resolve)
  {
    var ps := [Vault(vault)];
    var before := Vars(base, c.env, resolve);
    var after := VarsAfter(before, ps);
    VaultAddressSet(before, vault);
    EchoExpands(before);
    EchoExpands(after);
    MeaningUnderSubstitutionIff(c, ps, reply, base, resolve);
    assert Value(before, "VAULT_ADDR")[0] == '$' && (vault.addr == "" || vault.addr[0] != '$');
    hide Expand, Value, VarsAfter, Vars, KeepsMeaning, Unchanged, RefersToAdded;
    assert ExpandAll(before, c.command)[2] == "echo " + Value(before, "VAULT_ADDR");
    assert ExpandAll(after, c.command)[2] == "echo " + Value(after, "VAULT_ADDR");
    assert ("echo " + vault.addr)[|"echo "|..] == vault.addr;
    assert ("echo " + Value(before, "VAULT_ADDR"))[|"echo "|..] == Value(before, "VAULT_ADDR");
  }

  lemma VaultAddressSet(before: map<string, string>, vault: VaultConfig)
    requires '$' !in vault.addr
    ensures var after := VarsAfter(before, [Vault(vault)]);
            "VAULT_ADDR" in after && after["VAULT_ADDR"] == vault.addr && Value(after, "VAULT_ADDR") == vault.addr
  {
    PlainStays(before, vault.addr);
    hide Expand;
    assert [Vault(vault)][..0] == [];
    assert |"VAULT_ADDR"| == 10 && |"VAULT_CACERT"| == 12 && |"VAULT_SKIP_VERIFY"| == 17;
  }

  // ------------------------------------------------------------------ the finished pod

  /** `mutatePod` succeeded on `v`, with at least one provider, and left `m`. */
  ghost predicate MutatesTo(v: PodValue, ps: seq<Provider>, settings: Settings, cluster: Cluster, images: Images,
                            m: PodValue)
  {
    ps != [] && MutatedPod(v, ps, settings, cluster, images) == (m, None)
  }

  /** The list with every container rewritten. */
  function RewriteAll(cs: seq<Container>, ps: seq<Provider>, images: nat -> ImageReply): (r: seq<Container>)
    ensures |r| == |cs|
    ensures forall k :: 0 <= k < |cs| ==> r[k] == Rewritten(cs[k], ps, images(k))
  {
    seq(|cs|, k requires 0 <= k < |cs| => Rewritten(cs[k], ps, images(k)))
  }

  lemma AllRewritten(cs: seq<Container>, ps: seq<Provider>, cluster: Cluster, images: nat -> ImageReply)
    requires ps != [] && ErrorOf(cs, cluster, images).None?
    ensures Effect(cs, ps, cluster, images) == RewriteAll(cs, ps, images)
  {
    hide Rewritten, Trouble;
  }

  /** A loop that stops at container `j` has rewritten exactly the containers before it. */
  lemma PrefixRewritten(cs: seq<Container>, ps: seq<Provider>, cluster: Cluster, images: nat -> ImageReply)
    requires ps != []
    ensures var j := FirstTrouble(cs, cluster, images);
            && Effect(cs, ps, cluster, images) == RewriteAll(cs[..j], ps, images) + cs[j..]
            && (ErrorOf(cs, cluster, images).Some? <==> j < |cs|)
            && (forall k :: 0 <= k < j ==> Trouble(cs[k], cluster, images(k)).None?)
            && (j < |cs| ==> Trouble(cs[j], cluster, images(j)) == ErrorOf(cs, cluster, images))
  {
    hide Rewritten, Trouble;
  }

  /**
   * What a failed mutation leaves behind: the containers before the one in trouble are rewritten, in the
   * init list first; if that one fails, the containers are not even looked at. Nothing else has changed.
   */
  lemma FailureLeaves(v: PodValue, ps: seq<Provider>, settings: Settings, cluster: Cluster, images: Images,
                      m: PodValue, e: Error)
    requires ps != [] && MutatedPod(v, ps, settings, cluster, images) == (m, Some(e))
    ensures var i := FirstTrouble(v.init, cluster, images.ofInit);
            var j := FirstTrouble(v.app, cluster, images.ofApp);
            if i < |v.init| then
              && Trouble(v.init[i], cluster, images.ofInit(i)) == Some(e)
              && m == v.(init := RewriteAll(v.init[..i], ps, images.ofInit) + v.init[i..])
            else
              && j < |v.app| && Trouble(v.app[j], cluster, images.ofApp(j)) == Some(e)
              && m == v.(init := RewriteAll(v.init, ps, images.ofInit),
                         app := RewriteAll(v.app[..j], ps, images.ofApp) + v.app[j..])
  {
    PrefixRewritten(v.init, ps, cluster, images.ofInit);
    PrefixRewritten(v.app, ps, cluster, images.ofApp);
    var i := FirstTrouble(v.init, cluster, images.ofInit);
    if i == |v.init| { AllRewritten(v.init, ps, cluster, images.ofInit); }
    hide Effect, ErrorOf, RewriteAll, Rewritten, Trouble, Finish;
  }

  lemma Succeeded(v: PodValue, ps: seq<Provider>, settings: Settings, cluster: Cluster, images: Images, m: PodValue)
    requires MutatesTo(v, ps, settings, cluster, images, m)
    ensures m == Finish(v.(init := RewriteAll(v.init, ps, images.ofInit),
                           app := RewriteAll(v.app, ps, images.ofApp)), ps, settings)
    ensures m.app == RewriteAll(v.app, ps, images.ofApp)
    ensures v.init == [] && v.app == [] ==> m.init == [] && m.volumes == v.volumes
    ensures v.init != [] || v.app != [] ==>
      && m.init == [CopyContainer(settings)] + RewriteAll(v.init, ps, images.ofInit)
      && m.volumes == v.volumes + ([Volume(INJECTOR_VOLUME, MemoryDir)] + ExtraVolumesOf(ps))
  {
    hide Rewritten, ErrorOf, Effect, RewriteAll, ExtraVolumesOf, CopyContainer, INJECTOR_VOLUME;
    AllRewritten(v.app, ps, cluster, images.ofApp);
    AllRewritten(v.init, ps, cluster, images.ofInit);
  }

  // -------------------------------------------------------------------- start order

  /** What the kubelet does with the containers of one pod. */
  datatype Event = InitStart(i: nat) | InitExit(i: nat, ok: bool) | AppStart(i: nat)

  /** `done` init containers are finished (or, for sidecars, started); `running` is about the next one. */
  datatype Boot = Boot(done: nat, running: bool)

  predicate CanHappen(pod: PodValue, b: Boot, e: Event) {
    match e
    case InitStart(i) =>
      && i < |pod.init|
      && ((i == b.done && !b.running) || (i < b.done && pod.init[i].sidecar))
    case InitExit(i, _) => i == b.done && b.running
    case AppStart(i) => i < |pod.app| && b.done == |pod.init|
  }

  function Happen(pod: PodValue, b: Boot, e: Event): Boot
    requires CanHappen(pod, b, e)
  {
    match e
    case InitStart(i) =>
      if i < b.done then b
      else if pod.init[i].sidecar then Boot(b.done + 1, false)
      else Boot(b.done, true)
    case InitExit(_, ok) => Boot(if ok then b.done + 1 else b.done, false)
    case AppStart(_) => b
  }

  /** The state after a run Kubernetes allows; None when some event was not allowed. */
  function After(pod: PodValue, events: seq<Event>): Option<Boot> {
    if events == [] then Some(Boot(0, false))
    else
      var n := |events| - 1;
      match After(pod, events[..n])
      case None => None
      case Some(b) => if CanHappen(pod, b, events[n]) then Some(Happen(pod, b, events[n])) else None
  }

  ghost predicate Finished(events: seq<Event>, i: nat) {
    exists u :: 0 <= u < |events| && events[u] == InitExit(i, true)
  }

  lemma {:induction false} DoneMeansFinished(pod: PodValue, events: seq<Event>)
    requires After(pod, events).Some? && |pod.init| > 0 && !pod.init[0].sidecar
    ensures After(pod, events).value.done > 0 ==> Finished(events, 0)
    decreases |events|
  {
    if events != [] {
      var n := |events| - 1;
      DoneMeansFinished(pod, events[..n]);
      var b := After(pod, events[..n]).value;
      if b.done > 0 {
        var u :| 0 <= u < n && events[..n][u] == InitExit(0, true);
        assert events[u] == InitExit(0, true);
      } else if After(pod, events).value.done > 0 {
        assert events[n] == InitExit(0, true);
      }
    }
  }

  lemma {:induction false} PrefixAllowed(pod: PodValue, events: seq<Event>, t: nat)
    requires After(pod, events).Some? && t < |events|
    ensures After(pod, events[..t]).Some? && CanHappen(pod, After(pod, events[..t]).value, events[t])
    decreases |events|
  {
    var n := |events| - 1;
    if t < n {
      PrefixAllowed(pod, events[..n], t);
      assert events[..n][..t] == events[..t];
    }
  }

  function Started(pod: PodValue, e: Event): Option<Container> {
    match e
    case InitStart(i) => if i < |pod.init| then Some(pod.init[i]) else None
    case AppStart(i) => if i < |pod.app| then Some(pod.app[i]) else None
    case InitExit(_, _) => None
  }

  lemma RewrittenMountsInjector(c: Container, ps: seq<Provider>, reply: ImageReply)
    ensures Mounts(Rewritten(c, ps, reply), INJECTOR_VOLUME)
  {
    hide MutatedByAll, KubeArgv;
    assert Mount(INJECTOR_VOLUME, "/k8s-secret") in Rewritten(c, ps, reply).mounts;
  }

  lemma CopyMountsInjector(settings: Settings)
    ensures Mounts(CopyContainer(settings), INJECTOR_VOLUME)
    ensures CopyContainer(settings).command != [INJECTOR_COMMAND] && CopyContainer(settings).name == COPY_CONTAINER
    ensures !CopyContainer(settings).sidecar
    ensures CopyContainer(settings).image == settings.injectorImage
    ensures CopyContainer(settings).pullPolicy == settings.injectorPullPolicy && CopyContainer(settings).args == []
  {
    var copy := CopyContainer(settings);
    assert copy.command[0] == "sh";
    assert Mount(INJECTOR_VOLUME, "/k8s-secret/") in copy.mounts;
  }

  /** In every run Kubernetes allows, the copy container has succeeded before the injector is ever started. */
  lemma CopyFinishesFirst(v: PodValue, ps: seq<Provider>, settings: Settings, cluster: Cluster, images: Images,
                          m: PodValue, events: seq<Event>, t: nat)
    requires MutatesTo(v, ps, settings, cluster, images, m)
    requires After(m, events).Some? && t < |events|
    requires Started(m, events[t]).Some? && Started(m, events[t]).value.command == [INJECTOR_COMMAND]
    ensures Finished(events[..t], 0) && m.init[0].name == COPY_CONTAINER
  {
    hide MutatesTo, RewriteAll, Finish, ExtraVolumesOf, CopyContainer, INJECTOR_VOLUME, INJECTOR_COMMAND,
        COPY_CONTAINER;
    Succeeded(v, ps, settings, cluster, images, m);
    CopyMountsInjector(settings);
    PrefixAllowed(m, events, t);
    DoneMeansFinished(m, events[..t]);
  }

  /** Every container that runs the injector mounts the volume the copy was made into, and it is declared. */
  lemma InjectorVolumeShared(v: PodValue, ps: seq<Provider>, settings: Settings, cluster: Cluster, images: Images,
                             m: PodValue, c: Container)
    requires MutatesTo(v, ps, settings, cluster, images, m)
    requires (c in m.init || c in m.app) && c.command == [INJECTOR_COMMAND]
    ensures Mounts(c, INJECTOR_VOLUME)
    ensures |m.init| > 0 && m.init[0].name == COPY_CONTAINER && Mounts(m.init[0], INJECTOR_VOLUME)
    ensures Volume(INJECTOR_VOLUME, MemoryDir) in m.volumes
  {
    hide MutatesTo, Rewritten, ExtraVolumesOf, CopyContainer, Finish, Mounts, INJECTOR_VOLUME, INJECTOR_COMMAND,
        COPY_CONTAINER;
    Succeeded(v, ps, settings, cluster, images, m);
    CopyMountsInjector(settings);
    assert v.init != [] || v.app != [];
    assert m.volumes[|v.volumes|] == Volume(INJECTOR_VOLUME, MemoryDir);
    if c in m.app {
      var k :| 0 <= k < |m.app| && m.app[k] == c;
      RewrittenMountsInjector(v.app[k], ps, images.ofApp(k));
    } else {
      var rs := RewriteAll(v.init, ps, images.ofInit);
      assert c in rs;
      var k :| 0 <= k < |rs| && rs[k] == c;
      RewrittenMountsInjector(v.init[k], ps, images.ofInit(k));
    }
  }

  lemma RewrittenKeepsIdentity(c: Container, ps: seq<Provider>, reply: ImageReply)
    ensures var r := Rewritten(c, ps, reply);
            r.name == c.name && r.image == c.image && r.sidecar == c.sidecar
  {
    KeepsRest(ps, c.(command := [INJECTOR_COMMAND], args := KubeArgv(c.command, c.args, ImageOf(reply))));
    hide MutatedByAll, KubeArgv;
  }

  /** Nothing of a container changes but command, args, variables and mounts, and the latter two only grow. */
  lemma RewrittenKeepsRest(c: Container, ps: seq<Provider>, reply: ImageReply)
    ensures var r := Rewritten(c, ps, reply);
            && r == Container(c.name, c.image, c.pullPolicy, r.command, r.args, r.env, c.envFrom, r.mounts, c.sidecar)
            && c.env <= r.env && c.mounts <= r.mounts
  {
    var inner := c.(command := [INJECTOR_COMMAND], args := KubeArgv(c.command, c.args, ImageOf(reply)));
    KeepsRest(ps, inner);
    OnlyGrows(ps, inner);
    hide MutatedByAll, KubeArgv, INJECTOR_COMMAND, INJECTOR_VOLUME;
  }

  lemma {:induction false} OnlyGrows(ps: seq<Provider>, c: Container)
    ensures c.env <= MutatedByAll(ps, c).env && c.mounts <= MutatedByAll(ps, c).mounts
    decreases |ps|
  {
    hide Provider.Layer, Provider.AddedEnv, Provider.AddedMounts;
    if ps != [] { OnlyGrows(ps[..|ps| - 1], c); }
  }

  /** `sh` copies the file from one directory into another. */
  predicate Copies(command: seq<string>, from: string, file: string, to: string) {
    && |command| == 3 && command[0] == "sh" && command[1] == "-c"
    && command[2] == "cp " + from + "/" + file + " " + to
    && '/' !in file && ' ' !in from && ' ' !in file && ' ' !in to && to != "" && to[|to| - 1] == '/'
  }

  lemma CopyCommand(settings: Settings)
    ensures Copies(CopyContainer(settings).command, "/usr/local/bin", "k8s-secret-injector", "/k8s-secret/")
  {
    CopyText();
    CopyWords();
    hide COPY_CONTAINER, INJECTOR_VOLUME;
  }

  lemma CopySource()
    ensures "cp " + "/usr/local/bin" + "/" + "k8s-secret-injector" == "cp /usr/local/bin/k8s-secret-injector"
  {
    assert "cp " + "/usr/local/bin" + "/" == "cp /usr/local/bin/";
  }

  lemma CopyText()
    ensures "cp " + "/usr/local/bin" + "/" + "k8s-secret-injector" + " " + "/k8s-secret/"
         == "cp /usr/local/bin/k8s-secret-injector /k8s-secret/"
  {
    CopySource();
  }

  lemma CopyWords()
    ensures '/' !in "k8s-secret-injector" && ' ' !in "k8s-secret-injector"
    ensures ' ' !in "/usr/local/bin" && ' ' !in "/k8s-secret/"
    ensures "/k8s-secret/"[|"/k8s-secret/"| - 1] == '/'
  {
  }

  lemma CommandText()
    ensures INJECTOR_COMMAND == "/k8s-secret" + "/" + "k8s-secret-injector"
  {
    assert "/k8s-secret" + "/" == "/k8s-secret/";
  }

  /**
   * The injector is started from where it was copied to: the copy goes into the copy container's mount
   * of the shared volume, and the command is a rewritten container's mount of it plus the copied file.
   */
  lemma InjectorIsCopied(settings: Settings, c: Container, ps: seq<Provider>, reply: ImageReply)
    returns (from: string, to: string, at: string, file: string)
    ensures Mount(INJECTOR_VOLUME, to) in CopyContainer(settings).mounts
    ensures Copies(CopyContainer(settings).command, from, file, to)
    ensures Mount(INJECTOR_VOLUME, at) in Rewritten(c, ps, reply).mounts
    ensures Rewritten(c, ps, reply).command == [at + "/" + file]
  {
    from, to, at, file := "/usr/local/bin", "/k8s-secret/", "/k8s-secret", "k8s-secret-injector";
    hide INJECTOR_COMMAND, INJECTOR_VOLUME, COPY_CONTAINER, Copies, MutatedByAll, KubeArgv, Peel;
    CopyCommand(settings);
    CommandText();
    MeaningPreserved(c, ps, reply);
    assert Mount(INJECTOR_VOLUME, to) in CopyContainer(settings).mounts;
  }

  /** The pod's own init containers follow the copy container in their old order. */
  lemma InitOrderKept(v: PodValue, ps: seq<Provider>, settings: Settings, cluster: Cluster, images: Images, m: PodValue)
    requires MutatesTo(v, ps, settings, cluster, images, m) && v.init != []
    ensures |m.init| == |v.init| + 1
    ensures forall k :: 0 <= k < |v.init| ==>
      && m.init[k + 1].name == v.init[k].name
      && m.init[k + 1].image == v.init[k].image
      && m.init[k + 1].sidecar == v.init[k].sidecar
  {
    hide MutatesTo, Rewritten, ExtraVolumesOf, CopyContainer, Finish;
    Succeeded(v, ps, settings, cluster, images, m);
    forall k | 0 <= k < |v.init|
      ensures var r := m.init[k + 1];
              r.name == v.init[k].name && r.image == v.init[k].image && r.sidecar == v.init[k].sidecar
    {
      assert m.init[k + 1] == RewriteAll(v.init, ps, images.ofInit)[k];
      RewrittenKeepsIdentity(v.init[k], ps, images.ofInit(k));
    }
  }

  // ----------------------------------------------------------------- volumes resolve

  ghost predicate WellMounted(cs: seq<Container>, volumes: seq<Volume>) {
    forall c, m :: c in cs && m in c.mounts ==> Declares(volumes, m.name)
  }

  ghost predicate DistinctNames(volumes: seq<Volume>) {
    forall i, j :: 0 <= i < j < |volumes| ==> volumes[i].name != volumes[j].name
  }

  const RESERVED := {INJECTOR_VOLUME, VAULT_TLS_VOLUME, GOOGLE_KEY_VOLUME}

  /** Each backend declares exactly the volumes it mounts. */
  lemma MountsMatchVolumes(p: Provider)
    ensures forall m :: m in p.AddedMounts() ==> Declares(p.ExtraVolumes(), m.name)
    ensures forall w :: w in p.ExtraVolumes() ==> exists m :: m in p.AddedMounts() && m.name == w.name
  {
    match p
    case Vault(c) =>
      if c.tlsSecretName != "" {
        assert p.AddedMounts()[0] in p.AddedMounts() && p.ExtraVolumes()[0] in p.ExtraVolumes();
      }
    case Gcp(c) =>
      if c.keySecretName != "" {
        assert p.AddedMounts()[0] in p.AddedMounts() && p.ExtraVolumes()[0] in p.ExtraVolumes();
      }
    case _ =>
  }

  /** The CA file and the key file that a backend points to lie inside a volume it mounts from the right secret. */
  lemma CredentialFilesAreMounted(p: Provider)
    ensures p.Vault? && p.vault.tlsSecretName != "" ==>
              exists m, file :: m in p.AddedMounts() && Literal("VAULT_CACERT", m.path + file) in p.AddedEnv()
                && file == p.vault.caCert
                && Volume(m.name, Secret(p.vault.tlsSecretName)) in p.ExtraVolumes()
    ensures p.Gcp? && p.gcp.keySecretName != "" ==>
              exists m, file :: m in p.AddedMounts()
                && "--google-application-credentials=" + (m.path + "/" + file) in p.Flags()
                && file == "service-account.json"
                && Volume(m.name, Secret(p.gcp.keySecretName)) in p.ExtraVolumes()
  {
    match p
    case Vault(c) =>
      if c.tlsSecretName != "" {
        hide VAULT_TLS_PATH, VAULT_TLS_VOLUME, VaultFlags;
        var m := p.AddedMounts()[0];
        assert m in p.AddedMounts() && p.ExtraVolumes()[0] in p.ExtraVolumes();
        assert p.AddedEnv()[1] == Literal("VAULT_CACERT", m.path + c.caCert);
        assert p.AddedEnv()[1] in p.AddedEnv();
      }
    case Gcp(c) =>
      if c.keySecretName != "" {
        hide GOOGLE_KEY_PATH, GOOGLE_KEY_VOLUME, Flag;
        var m := p.AddedMounts()[0];
        assert m in p.AddedMounts() && p.ExtraVolumes()[0] in p.ExtraVolumes();
        var flags := p.Flags();
        assert flags[|flags| - 1] == "--google-application-credentials=" + (m.path + "/" + GOOGLE_KEY_FILE);
        assert flags[|flags| - 1] in flags;
      }
    case _ =>
  }

  lemma {:induction false} AddedMountsResolve(ps: seq<Provider>, c: Container, m: Mount)
    requires m in MutatedByAll(ps, c).mounts
    ensures m in c.mounts || Declares(ExtraVolumesOf(ps), m.name)
    decreases |ps|
  {
    hide Provider.Layer, Provider.AddedEnv, Provider.AddedMounts, Provider.ExtraVolumes;
    if ps != [] {
      var n := |ps| - 1;
      if m in ps[n].AddedMounts() {
        MountsMatchVolumes(ps[n]);
        var w :| w in ps[n].ExtraVolumes() && w.name == m.name;
        assert w in ExtraVolumesOf(ps);
      } else {
        AddedMountsResolve(ps[..n], c, m);
        if m !in c.mounts {
          var w :| w in ExtraVolumesOf(ps[..n]) && w.name == m.name;
          assert w in ExtraVolumesOf(ps);
        }
      }
    }
  }

  lemma RewrittenResolves(c: Container, ps: seq<Provider>, reply: ImageReply, base: seq<Volume>, m: Mount)
    requires m in Rewritten(c, ps, reply).mounts
    requires m in c.mounts ==> Declares(base, m.name)
    ensures Declares(base + ([Volume(INJECTOR_VOLUME, MemoryDir)] + ExtraVolumesOf(ps)), m.name)
  {
    hide MutatedByAll, ExtraVolumesOf, KubeArgv;
    var all := base + ([Volume(INJECTOR_VOLUME, MemoryDir)] + ExtraVolumesOf(ps));
    var inner := c.(command := [INJECTOR_COMMAND], args := KubeArgv(c.command, c.args, ImageOf(reply)));
    if m == Mount(INJECTOR_VOLUME, "/k8s-secret") {
      assert all[|base|].name == m.name && all[|base|] in all;
    } else {
      AddedMountsResolve(ps, inner, m);
      if m in c.mounts {
        var w :| w in base && w.name == m.name;
        assert w in all;
      } else {
        var w :| w in ExtraVolumesOf(ps) && w.name == m.name;
        assert w in all;
      }
    }
  }

  lemma AllResolve(cs: seq<Container>, ps: seq<Provider>, images: nat -> ImageReply, base: seq<Volume>)
    requires WellMounted(cs, base)
    ensures WellMounted(RewriteAll(cs, ps, images), base + ([Volume(INJECTOR_VOLUME, MemoryDir)] + ExtraVolumesOf(ps)))
  {
    hide Rewritten, ExtraVolumesOf, Declares, INJECTOR_VOLUME;
    var rs := RewriteAll(cs, ps, images);
    forall c, m | c in rs && m in c.mounts
      ensures Declares(base + ([Volume(INJECTOR_VOLUME, MemoryDir)] + ExtraVolumesOf(ps)), m.name)
    {
      var k :| 0 <= k < |rs| && rs[k] == c;
      assert cs[k] in cs;
      RewrittenResolves(cs[k], ps, images(k), base, m);
    }
  }

  lemma WellMountedConcat(a: seq<Container>, b: seq<Container>, volumes: seq<Volume>)
    requires WellMounted(a, volumes) && WellMounted(b, volumes)
    ensures WellMounted(a + b, volumes)
  {
    hide Declares;
  }

  lemma NothingToMount(volumes: seq<Volume>)
    ensures WellMounted([], volumes)
  {
  }

  lemma CopyResolves(settings: Settings, volumes: seq<Volume>)
    requires Volume(INJECTOR_VOLUME, MemoryDir) in volumes
    ensures WellMounted([CopyContainer(settings)], volumes)
  {
  }

  /** Referential closure: if every mount of the pod resolved before, every mount of the mutated pod resolves. */
  lemma MountsResolve(v: PodValue, ps: seq<Provider>, settings: Settings, cluster: Cluster, images: Images, m: PodValue)
    requires MutatesTo(v, ps, settings, cluster, images, m)
    requires WellMounted(v.init, v.volumes) && WellMounted(v.app, v.volumes)
    ensures WellMounted(m.init, m.volumes) && WellMounted(m.app, m.volumes)
  {
    hide MutatesTo, RewriteAll, Finish, ExtraVolumesOf, CopyContainer, INJECTOR_VOLUME, WellMounted;
    Succeeded(v, ps, settings, cluster, images, m);
    if v.init != [] || v.app != [] {
      AllResolve(v.app, ps, images.ofApp, v.volumes);
      AllResolve(v.init, ps, images.ofInit, v.volumes);
      assert m.volumes[|v.volumes|] == Volume(INJECTOR_VOLUME, MemoryDir);
      CopyResolves(settings, m.volumes);
      WellMountedConcat([CopyContainer(settings)], RewriteAll(v.init, ps, images.ofInit), m.volumes);
    } else {
      NothingToMount(m.volumes);
    }
  }

  lemma ReservedNames()
    ensures INJECTOR_VOLUME != VAULT_TLS_VOLUME && INJECTOR_VOLUME != GOOGLE_KEY_VOLUME
  {
    assert INJECTOR_VOLUME[0] == 'k' && VAULT_TLS_VOLUME[0] == 'v' && GOOGLE_KEY_VOLUME[0] == 'g';
  }

  lemma ExtraNamesReserved(p: Provider)
    ensures DistinctNames(p.ExtraVolumes())
    ensures forall w :: w in p.ExtraVolumes() ==> w.name in RESERVED - {INJECTOR_VOLUME}
  {
    ReservedNames();
    hide INJECTOR_VOLUME, VAULT_TLS_VOLUME, GOOGLE_KEY_VOLUME;
  }

  lemma {:induction false} ExtraVolumesMembers(ps: seq<Provider>, w: Volume)
    ensures w in ExtraVolumesOf(ps) <==> exists p :: p in ps && w in p.ExtraVolumes()
    decreases |ps|
  {
    hide Provider.ExtraVolumes;
    if ps != [] {
      var n := |ps| - 1;
      ExtraVolumesMembers(ps[..n], w);
      assert ps == ps[..n] + [ps[n]];
    }
  }

  lemma {:induction false} ExtraNames(ps: seq<Provider>)
    requires DistinctKinds(ps)
    ensures DistinctNames(ExtraVolumesOf(ps))
    ensures forall w :: w in ExtraVolumesOf(ps) ==> w.name in RESERVED - {INJECTOR_VOLUME}
    decreases |ps|
  {
    hide RESERVED, INJECTOR_VOLUME, Provider.ExtraVolumes, Provider.Kind;
    if ps != [] {
      var n := |ps| - 1;
      ExtraNames(ps[..n]);
      ExtraNamesReserved(ps[n]);
      forall w, x | w in ExtraVolumesOf(ps[..n]) && x in ps[n].ExtraVolumes() ensures w.name != x.name {
        ExtraVolumesMembers(ps[..n], w);
        var p :| p in ps[..n] && w in p.ExtraVolumes();
        assert p.Kind() != ps[n].Kind();
        VolumeNamesDiffer(p, ps[n]);
      }
      DistinctVolumesIff(ExtraVolumesOf(ps[..n]), ps[n].ExtraVolumes());
      hide DistinctNames;
    }
  }

  lemma DistinctVolumesIff(a: seq<Volume>, b: seq<Volume>)
    requires DistinctNames(b)
    ensures DistinctNames(a + b) <==> DistinctNames(a) && forall v, w :: v in a && w in b ==> v.name != w.name
  {
    var all := a + b;
    assert forall i :: 0 <= i < |a| ==> all[i] == a[i];
    assert forall j :: 0 <= j < |b| ==> all[|a| + j] == b[j];
    if DistinctNames(all) {
      forall i, j | 0 <= i < |a| && 0 <= j < |b| ensures a[i].name != b[j].name {
        assert all[i].name != all[|a| + j].name;
      }
    }
    if DistinctNames(a) && forall v, w :: v in a && w in b ==> v.name != w.name {
      forall i, j | 0 <= i < j < |all| ensures all[i].name != all[j].name {
        assert i < |a| ==> all[i] in a;
        assert j >= |a| ==> all[j] == b[j - |a|] && all[j] in b;
        assert i >= |a| ==> all[i] == b[i - |a|];
      }
    }
  }

  /** The volume names of the pod are distinct exactly when they were, and none is that of an added volume. */
  lemma VolumeNamesIff(v: PodValue, ps: seq<Provider>, settings: Settings, cluster: Cluster, images: Images,
                       m: PodValue)
    requires DistinctKinds(ps) && MutatesTo(v, ps, settings, cluster, images, m) && (v.init != [] || v.app != [])
    ensures var added := [Volume(INJECTOR_VOLUME, MemoryDir)] + ExtraVolumesOf(ps);
            DistinctNames(m.volumes) <==>
            DistinctNames(v.volumes) && forall x, w :: x in v.volumes && w in added ==> x.name != w.name
  {
    Succeeded(v, ps, settings, cluster, images, m);
    ExtraNames(ps);
    hide MutatesTo, ExtraVolumesOf, DistinctKinds, DistinctNames, Rewritten, CopyContainer, Finish, RewriteAll;
    var own := [Volume(INJECTOR_VOLUME, MemoryDir)];
    OneVolumeDistinct(own[0]);
    DistinctVolumesIff(own, ExtraVolumesOf(ps));
    DistinctVolumesIff(v.volumes, own + ExtraVolumesOf(ps));
  }

  /** In particular they stay distinct if the pod stays clear of the three reserved names. */
  lemma VolumeNamesStayDistinct(v: PodValue, ps: seq<Provider>, settings: Settings, cluster: Cluster, images: Images,
                                m: PodValue)
    requires DistinctKinds(ps) && MutatesTo(v, ps, settings, cluster, images, m)
    requires DistinctNames(v.volumes) && forall w :: w in v.volumes ==> w.name !in RESERVED
    ensures DistinctNames(m.volumes)
  {
    Succeeded(v, ps, settings, cluster, images, m);
    if v.init != [] || v.app != [] {
      ExtraNames(ps);
      hide MutatesTo, ExtraVolumesOf, DistinctKinds, DistinctNames, Rewritten, CopyContainer, Finish, RewriteAll;
      VolumeNamesIff(v, ps, settings, cluster, images, m);
    }
  }

  lemma OneVolumeDistinct(v: Volume)
    ensures DistinctNames([v])
  {
  }

  // ---- mount paths and container names

  function PathsOf(mounts: seq<Mount>): seq<string> {
    seq(|mounts|, i requires 0 <= i < |mounts| => mounts[i].path)
  }

  function NamesOf(cs: seq<Container>): seq<string> {
    seq(|cs|, i requires 0 <= i < |cs| => cs[i].name)
  }

  /** The paths at which a rewritten container mounts something new. */
  function AddedPaths(ps: seq<Provider>): seq<string> {
    ProviderPaths(ps) + ["/k8s-secret"]
  }

  function ProviderPaths(ps: seq<Provider>): seq<string> {
    if ps == [] then []
    else
      var n := |ps| - 1;
      ProviderPaths(ps[..n]) + PathsOf(ps[n].AddedMounts())
  }

  lemma DistinctConcatIff(a: seq<string>, b: seq<string>)
    ensures Distinct(a + b) <==> Distinct(a) && Distinct(b) && forall x :: x in a ==> x !in b
  {
    var all := a + b;
    assert forall i :: 0 <= i < |a| ==> all[i] == a[i];
    assert forall j :: 0 <= j < |b| ==> all[|a| + j] == b[j];
    if Distinct(all) {
      forall i, j | 0 <= i < |a| && 0 <= j < |b| ensures a[i] != b[j] {
        assert all[i] != all[|a| + j];
      }
      forall i, j | 0 <= i < j < |b| ensures b[i] != b[j] {
        assert all[|a| + i] != all[|a| + j];
      }
    }
    if Distinct(a) && Distinct(b) && forall x :: x in a ==> x !in b {
      forall i, j | 0 <= i < j < |all| ensures all[i] != all[j] {
        assert i < |a| ==> all[i] in a;
        assert j >= |a| ==> all[j] == b[j - |a|];
        assert i >= |a| ==> all[i] == b[i - |a|];
      }
    }
  }

  lemma OneNameDistinct(x: string)
    ensures Distinct([x])
  {
  }

  lemma PathOfProvider(p: Provider)
    ensures Distinct(PathsOf(p.AddedMounts()))
    ensures forall x :: x in PathsOf(p.AddedMounts()) ==>
        (p.Vault? && x == VAULT_TLS_PATH) || (p.Gcp? && x == GOOGLE_KEY_PATH)
  {
  }

  lemma PathsDiffer()
    ensures VAULT_TLS_PATH != GOOGLE_KEY_PATH && "/k8s-secret" != VAULT_TLS_PATH && "/k8s-secret" != GOOGLE_KEY_PATH
  {
    assert VAULT_TLS_PATH[1] == 'e' && GOOGLE_KEY_PATH[1] == 'v' && "/k8s-secret"[1] == 'k';
  }

  /** No two backends mount at the same path, and none where the injector is mounted. */
  lemma {:induction false} AddedPathsDistinct(ps: seq<Provider>)
    requires DistinctKinds(ps)
    ensures Distinct(ProviderPaths(ps)) && "/k8s-secret" !in ProviderPaths(ps)
    ensures VAULT_TLS_PATH in ProviderPaths(ps) ==> exists p :: p in ps && p.Vault?
    ensures GOOGLE_KEY_PATH in ProviderPaths(ps) ==> exists p :: p in ps && p.Gcp?
    decreases |ps|
  {
    PathsDiffer();
    hide VAULT_TLS_PATH, GOOGLE_KEY_PATH, PathsOf, Provider.AddedMounts;
    if ps != [] {
      var n := |ps| - 1;
      var init, paths := ProviderPaths(ps[..n]), PathsOf(ps[n].AddedMounts());
      AddedPathsDistinct(ps[..n]);
      PathOfProvider(ps[n]);
      assert ps == ps[..n] + [ps[n]];
      assert forall p :: p in ps[..n] ==> p.Kind() != ps[n].Kind();
      DistinctConcatIff(init, paths);
      hide Distinct;
    }
  }

  lemma {:induction false} MutatedPaths(ps: seq<Provider>, c: Container)
    ensures PathsOf(MutatedByAll(ps, c).mounts) == PathsOf(c.mounts) + ProviderPaths(ps)
    decreases |ps|
  {
    hide Provider.Layer, Provider.AddedEnv, Provider.AddedMounts;
    if ps != [] {
      var n := |ps| - 1;
      MutatedPaths(ps[..n], c);
      hide PathsOf;
      PathsOfJoin(MutatedByAll(ps[..n], c).mounts, ps[n].AddedMounts());
    }
  }

  lemma PathsOfJoin(a: seq<Mount>, b: seq<Mount>)
    ensures PathsOf(a + b) == PathsOf(a) + PathsOf(b)
  {
  }

  lemma RewrittenPaths(c: Container, ps: seq<Provider>, reply: ImageReply)
    ensures PathsOf(Rewritten(c, ps, reply).mounts) == PathsOf(c.mounts) + AddedPaths(ps)
  {
    var inner := c.(command := [INJECTOR_COMMAND], args := KubeArgv(c.command, c.args, ImageOf(reply)));
    MutatedPaths(ps, inner);
    hide MutatedByAll, ProviderPaths, KubeArgv;
    var own := [Mount(INJECTOR_VOLUME, "/k8s-secret")];
    assert PathsOf(own) == ["/k8s-secret"];
    PathsOfJoin(MutatedByAll(ps, inner).mounts, own);
    hide PathsOf;
    assert PathsOf(c.mounts) + ProviderPaths(ps) + ["/k8s-secret"] == PathsOf(c.mounts) + AddedPaths(ps);
  }

  /** The mount paths of a rewritten container are distinct exactly when they were, and none is an added one. */
  lemma MountPathsIff(c: Container, ps: seq<Provider>, reply: ImageReply)
    requires DistinctKinds(ps)
    ensures Distinct(PathsOf(Rewritten(c, ps, reply).mounts)) <==>
            Distinct(PathsOf(c.mounts)) && forall x :: x in PathsOf(c.mounts) ==> x !in AddedPaths(ps)
  {
    RewrittenPaths(c, ps, reply);
    AddedPathsDistinct(ps);
    OneNameDistinct("/k8s-secret");
    hide Rewritten, ProviderPaths, DistinctKinds, PathsOf, Distinct;
    DistinctConcatIff(ProviderPaths(ps), ["/k8s-secret"]);
    DistinctConcatIff(PathsOf(c.mounts), AddedPaths(ps));
  }

  lemma RewritingKeepsNames(cs: seq<Container>, ps: seq<Provider>, images: nat -> ImageReply)
    ensures NamesOf(RewriteAll(cs, ps, images)) == NamesOf(cs)
  {
    hide Rewritten;
    forall k | 0 <= k < |cs| ensures Rewritten(cs[k], ps, images(k)).name == cs[k].name {
      RewrittenKeepsIdentity(cs[k], ps, images(k));
    }
  }

  lemma NamesOfJoin(a: seq<Container>, b: seq<Container>)
    ensures NamesOf(a + b) == NamesOf(a) + NamesOf(b)
  {
  }

  function ContainerNames(v: PodValue): seq<string> {
    NamesOf(v.init) + NamesOf(v.app)
  }

  /** The container names of the pod are distinct exactly when they were, and none is that of the copy container. */
  lemma ContainerNamesIff(v: PodValue, ps: seq<Provider>, settings: Settings, cluster: Cluster, images: Images,
                          m: PodValue)
    requires MutatesTo(v, ps, settings, cluster, images, m) && (v.init != [] || v.app != [])
    ensures Distinct(ContainerNames(m)) <==> Distinct(ContainerNames(v)) && COPY_CONTAINER !in ContainerNames(v)
  {
    hide MutatesTo, Rewritten, RewriteAll, ExtraVolumesOf, CopyContainer, Finish, COPY_CONTAINER;
    Succeeded(v, ps, settings, cluster, images, m);
    RewritingKeepsNames(v.init, ps, images.ofInit);
    RewritingKeepsNames(v.app, ps, images.ofApp);
    CopyMountsInjector(settings);
    assert NamesOf(m.init) == [COPY_CONTAINER] + NamesOf(v.init) by {
      NamesOfJoin([CopyContainer(settings)], RewriteAll(v.init, ps, images.ofInit));
      assert NamesOf([CopyContainer(settings)]) == [COPY_CONTAINER];
    }
    assert ContainerNames(m) == [COPY_CONTAINER] + ContainerNames(v);
    DistinctConcatIff([COPY_CONTAINER], ContainerNames(v));
  }

  // ------------------------------------------------------------ lookups do not interfere

  /** Every ConfigMap and Secret lookup for these containers ends without an error. */
  predicate LookupsComplete(cs: seq<Container>, cluster: Cluster) {
    forall c :: c in cs ==>
      var from := FromEntries(c.envFrom, cluster, []);
      from.Ok? && FromEnv(c.env, cluster, from.value).Ok?
  }

  lemma {:induction false} SameTrouble(cs: seq<Container>, c1: Cluster, c2: Cluster, images: nat -> ImageReply,
                                       from: nat)
    requires from <= |cs| && LookupsComplete(cs, c1) && LookupsComplete(cs, c2)
    ensures FirstTrouble(cs, c1, images, from) == FirstTrouble(cs, c2, images, from)
    ensures forall k :: 0 <= k < |cs| ==> Trouble(cs[k], c1, images(k)) == Trouble(cs[k], c2, images(k))
    decreases |cs| - from
  {
    hide FromEntries, FromEnv;
    forall k | 0 <= k < |cs| ensures Trouble(cs[k], c1, images(k)) == Trouble(cs[k], c2, images(k)) {
      assert cs[k] in cs;
    }
    if from < |cs| {
      SameTrouble(cs, c1, c2, images, from + 1);
    }
  }

  /** What the lookups return never reaches the pod: only whether one of them fails does. */
  lemma LookupsDoNotInterfere(v: PodValue, ps: seq<Provider>, settings: Settings, c1: Cluster, c2: Cluster,
                              images: Images)
    requires LookupsComplete(v.init, c1) && LookupsComplete(v.init, c2)
    requires LookupsComplete(v.app, c1) && LookupsComplete(v.app, c2)
    ensures MutatedPod(v, ps, settings, c1, images) == MutatedPod(v, ps, settings, c2, images)
  {
    SameTrouble(v.init, c1, c2, images.ofInit, 0);
    SameTrouble(v.app, c1, c2, images.ofApp, 0);
    hide LookupsComplete, Trouble, Rewritten, FirstTrouble;
    assert Effect(v.init, ps, c1, images.ofInit) == Effect(v.init, ps, c2, images.ofInit);
    assert Effect(v.app, ps, c1, images.ofApp) == Effect(v.app, ps, c2, images.ofApp);
  }

  // --------------------------------------------------------------- everything together

  /** `r` is `c` under the injector: same container, and its argv and every provider can be read back from it. */
  ghost predicate Injected(c: Container, r: Container, ps: seq<Provider>, reply: ImageReply, volumes: seq<Volume>) {
    var argv := KubeArgv(c.command, c.args, ImageOf(reply));
    && r == Container(c.name, c.image, c.pullPolicy, r.command, r.args, r.env, c.envFrom, r.mounts, c.sidecar)
    && c.env <= r.env && c.mounts <= r.mounts
    && r.command == [INJECTOR_COMMAND] && Mounts(r, INJECTOR_VOLUME)
    && Peel(r.args, |ps|) == Some((ReversedNames(ps), argv))
    && DecodeStack(r.args, |ps|, r.env, volumes) == Some((CanonicalAll(ps), argv))
    && (Distinct(PathsOf(r.mounts)) <==>
        Distinct(PathsOf(c.mounts)) && forall x :: x in PathsOf(c.mounts) ==> x !in AddedPaths(ps))
  }

  /** In every run Kubernetes allows, the first init container has succeeded before the injector is ever started. */
  ghost predicate CopiesFirst(m: PodValue) {
    forall events, t | After(m, events).Some? && 0 <= t < |events| && StartsInjector(m, events[t]) ::
      Finished(events[..t], 0)
  }

  predicate StartsInjector(m: PodValue, e: Event) {
    var c := Started(m, e);
    c.Some? && c.value.command == [INJECTOR_COMMAND]
  }

  lemma RewrittenIsInjected(c: Container, ps: seq<Provider>, reply: ImageReply, base: seq<Volume>)
    requires DistinctKinds(ps)
    ensures Injected(c, Rewritten(c, ps, reply), ps, reply,
                     base + ([Volume(INJECTOR_VOLUME, MemoryDir)] + ExtraVolumesOf(ps)))
  {
    MeaningPreserved(c, ps, reply);
    RewrittenReadsBack(c, ps, reply, base);
    RewrittenKeepsRest(c, ps, reply);
    RewrittenMountsInjector(c, ps, reply);
    MountPathsIff(c, ps, reply);
    hide PathsOf, AddedPaths, Distinct, DistinctKinds;
    hide Rewritten, KubeArgv, ReversedNames, CanonicalAll, ExtraVolumesOf, DecodeStack, Peel, INJECTOR_COMMAND,
        INJECTOR_VOLUME;
  }

  lemma ListInjected(cs: seq<Container>, ps: seq<Provider>, images: nat -> ImageReply, base: seq<Volume>)
    requires DistinctKinds(ps)
    ensures forall k :: 0 <= k < |cs| ==> Injected(cs[k], RewriteAll(cs, ps, images)[k], ps, images(k),
                                                   base + ([Volume(INJECTOR_VOLUME, MemoryDir)] + ExtraVolumesOf(ps)))
  {
    hide Rewritten, ExtraVolumesOf, Injected, DistinctKinds, INJECTOR_VOLUME;
    forall k | 0 <= k < |cs|
      ensures Injected(cs[k], RewriteAll(cs, ps, images)[k], ps, images(k),
                       base + ([Volume(INJECTOR_VOLUME, MemoryDir)] + ExtraVolumesOf(ps)))
    {
      RewrittenIsInjected(cs[k], ps, images(k), base);
    }
  }

  /** Every container of the finished pod is its original under the injector, behind the copy container. */
  lemma AllInjected(v: PodValue, ps: seq<Provider>, settings: Settings, cluster: Cluster, images: Images, m: PodValue)
    requires MutatesTo(v, ps, settings, cluster, images, m) && DistinctKinds(ps)
    ensures |m.app| == |v.app| && forall k :: 0 <= k < |v.app| ==>
        Injected(v.app[k], m.app[k], ps, images.ofApp(k), m.volumes)
    ensures v.init != [] || v.app != [] ==>
              && |m.init| == |v.init| + 1 && m.init[0] == CopyContainer(settings)
              && forall k :: 0 <= k < |v.init| ==> Injected(v.init[k], m.init[k + 1], ps, images.ofInit(k), m.volumes)
  {
    hide MutatesTo, Rewritten, RewriteAll, ExtraVolumesOf, CopyContainer, Finish, Injected, DistinctKinds,
        INJECTOR_VOLUME;
    Succeeded(v, ps, settings, cluster, images, m);
    ListInjected(v.app, ps, images.ofApp, v.volumes);
    ListInjected(v.init, ps, images.ofInit, v.volumes);
  }

  /** The pod's own pull secrets keep their order, and the configured one follows them if there is one. */
  lemma PullSecretsKept(v: PodValue, ps: seq<Provider>, settings: Settings, cluster: Cluster, images: Images,
                        m: PodValue)
    requires MutatesTo(v, ps, settings, cluster, images, m)
    ensures m.pullSecrets == v.pullSecrets + (if settings.pullSecretName != "" then [settings.pullSecretName] else [])
    ensures m.annotations == v.annotations
  {
    hide Effect, ErrorOf, CopyContainer, ExtraVolumesOf;
  }

  lemma AnnotationsAreCarried(v: PodValue, ps: seq<Provider>, settings: Settings, cluster: Cluster, images: Images,
                              a: map<string, string>)
    ensures var (m, err) := MutatedPod(v, ps, settings, cluster, images);
            MutatedPod(v.(annotations := a), ps, settings, cluster, images) == (m.(annotations := a), err)
  {
    hide Effect, ErrorOf, CopyContainer, ExtraVolumesOf;
  }

  /**
   * The admission verdict Mutated, whatever the runtime, the cluster and the registry answered: every
   * provider is valid and can be read back together with the argv from every container, the copy comes
   * first, every mount and every volume name that was in order still is, and the baseline is recorded.
   */
  lemma AdmittedPodIsSafe(v: PodValue, ns: string, rt: Runtime, settings: Settings, cluster: Cluster,
                          images: Images, versions: VersionOracle, m: PodValue)
    requires Admission(v, ns, rt, settings, cluster, images, versions) == (m, Mutated)
    ensures var ps := EnabledProviders(v.annotations, rt);
            && ps != [] && DistinctKinds(ps)
            && (forall p :: p in ps ==> p.Validate().None?)
            && |m.app| == |v.app|
            && (forall k :: 0 <= k < |v.app| ==> Injected(v.app[k], m.app[k], ps, images.ofApp(k), m.volumes))
            && (v.init != [] || v.app != [] ==>
                  && |m.init| == |v.init| + 1 && m.init[0] == CopyContainer(settings)
                  && (forall k :: 0 <= k < |v.init| ==>
                        Injected(v.init[k], m.init[k + 1], ps, images.ofInit(k), m.volumes)))
            && m.annotations == WithBaseline(v.annotations, ps[0].Kind(), versions)
    ensures CopiesFirst(m)
    ensures WellMounted(v.init, v.volumes) && WellMounted(v.app, v.volumes) ==>
              WellMounted(m.init, m.volumes) && WellMounted(m.app, m.volumes)
    ensures m.pullSecrets == v.pullSecrets + (if settings.pullSecretName != "" then [settings.pullSecretName] else [])
    ensures DistinctNames(v.volumes) && (forall w :: w in v.volumes ==> w.name !in RESERVED) ==>
        DistinctNames(m.volumes)
    ensures v.init != [] || v.app != [] ==>
              (Distinct(ContainerNames(m)) <==> Distinct(ContainerNames(v)) && COPY_CONTAINER !in ContainerNames(v))
  {
    var ps := EnabledProviders(v.annotations, rt);
    EnabledProvidersShape(v.annotations, rt);
    MutationKeepsAnnotations(v, ps, settings, cluster, images);
    AnnotationsAreCarried(v, ps, settings, cluster, images, m.annotations);
    hide EnabledProviders, MutatedPod, WithBaseline, Provider.Validate, Provider.Kind, DistinctKinds, Injected,
         WellMounted, DistinctNames, CopyContainer, RESERVED, ContainerNames, Distinct, COPY_CONTAINER;
    var w := v.(annotations := m.annotations);
    assert MutatesTo(w, ps, settings, cluster, images, m);
    PullSecretsKept(w, ps, settings, cluster, images, m);
    hide Admission, MutatesTo;
    AllInjected(w, ps, settings, cluster, images, m);
    forall events, t | After(m, events).Some? && 0 <= t < |events| && StartsInjector(m, events[t])
      ensures Finished(events[..t], 0)
    {
      CopyFinishesFirst(w, ps, settings, cluster, images, m, events, t);
    }
    if WellMounted(v.init, v.volumes) && WellMounted(v.app, v.volumes) {
      MountsResolve(w, ps, settings, cluster, images, m);
    }
    if DistinctNames(v.volumes) && forall w :: w in v.volumes ==> w.name !in RESERVED {
      VolumeNamesStayDistinct(w, ps, settings, cluster, images, m);
    }
    if v.init != [] || v.app != [] {
      ContainerNamesIff(w, ps, settings, cluster, images, m);
      assert ContainerNames(w) == ContainerNames(v) by { ContainerNamesOf(w, v); }
    }
  }

  lemma ContainerNamesOf(v: PodValue, w: PodValue)
    requires v.init == w.init && v.app == w.app
    ensures ContainerNames(v) == ContainerNames(w)
  {
  }
}
