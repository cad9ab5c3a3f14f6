/** What the lookups of a container collect: exactly the variables that name a secret, in their order. */
module Lookups {
  import opened GoText
  import opened Kube
  import opened Webhook

  // ----------------------------------------------------------------- the data of one object

  /** A variable for exactly the entries whose value names a secret. */
  lemma {:induction false} PrefixedVarsMembers(data: map<string, string>, order: seq<string>, e: EnvVar)
    ensures e in PrefixedVars(data, order) <==>
            e.valueFrom.None? && e.name in order && e.value == Get(data, e.name) && NamesSecret(e.value)
    decreases |order|
  {
    NamesSecretIff(e.value);
    hide Get, HasSecretPrefix, NamesSecret;
    if order != [] {
      var n := |order| - 1;
      PrefixedVarsMembers(data, order[..n], e);
      assert order == order[..n] + [order[n]];
    }
  }

  /** The first of two keys is visited before the second. */
  ghost predicate Before(order: seq<string>, k1: string, k2: string) {
    exists x, y :: 0 <= x < y < |order| && order[x] == k1 && order[y] == k2
  }

  lemma BeforeStays(order: seq<string>, last: string, k1: string, k2: string)
    ensures Before(order, k1, k2) ==> Before(order + [last], k1, k2)
    ensures k1 in order ==> Before(order + [last], k1, last)
  {
    var all := order + [last];
    if Before(order, k1, k2) {
      var x, y :| 0 <= x < y < |order| && order[x] == k1 && order[y] == k2;
      assert all[x] == k1 && all[y] == k2;
    }
    if k1 in order {
      var x :| 0 <= x < |order| && order[x] == k1;
      assert all[x] == k1 && all[|order|] == last;
    }
  }

  /** In the order the entries are visited. */
  lemma {:induction false} PrefixedVarsInOrder(data: map<string, string>, order: seq<string>, i: nat, j: nat)
    requires i < j < |PrefixedVars(data, order)|
    ensures Before(order, PrefixedVars(data, order)[i].name, PrefixedVars(data, order)[j].name)
    decreases |order|
  {
    hide Get, NamesSecret;
    var n := |order| - 1;
    var before, vars := PrefixedVars(data, order[..n]), PrefixedVars(data, order);
    assert order == order[..n] + [order[n]];
    BeforeStays(order[..n], order[n], vars[i].name, vars[j].name);
    hide Before;
    if j < |before| {
      PrefixedVarsInOrder(data, order[..n], i, j);
    } else {
      assert before[i] in before;
      PrefixedVarsMembers(data, order[..n], before[i]);
    }
  }

  // -------------------------------------------------------------- the entries of `envFrom`

  /** The data of an object hold this variable, and its value names a secret. */
  predicate Holds(reply: DataReply, e: EnvVar) {
    reply.Found? && e.valueFrom.None? && e.name in reply.order && e.value == Get(reply.data, e.name)
        && NamesSecret(e.value)
  }

  /** One `envFrom` entry contributes this variable: a missing or unreadable config map hides the secret behind it. */
  predicate EntryGives(ef: EnvFrom, cluster: Cluster, e: EnvVar) {
    || (ef.configMapRef.Some? && Holds(cluster.configMap(ef.configMapRef.value.name), e))
    || ((ef.configMapRef.Some? ==> cluster.configMap(ef.configMapRef.value.name).Found?)
        && ef.secretRef.Some? && Holds(cluster.secret(ef.secretRef.value.name), e))
  }

  lemma FromReplyGives(reply: DataReply, optional: bool, error: Error, e: EnvVar)
    ensures var r := FromReply(reply, optional, error);
            r.Ok? ==> (e in r.value.0 <==> Holds(reply, e)) && (r.value.1 <==> !reply.Found?)
  {
    if reply.Found? { PrefixedVarsMembers(reply.data, reply.order, e); }
    hide PrefixedVars, NamesSecret, Get;
  }

  lemma FromEntryGives(ef: EnvFrom, cluster: Cluster, e: EnvVar)
    ensures var r := FromEntry(ef, cluster);
            r.Ok? ==> (e in r.value <==> EntryGives(ef, cluster, e))
  {
    if ef.configMapRef.Some? {
      var r := ef.configMapRef.value;
      FromReplyGives(cluster.configMap(r.name), r.optional, ConfigMapUnreadable(r.name), e);
    }
    if ef.secretRef.Some? {
      var r := ef.secretRef.value;
      FromReplyGives(cluster.secret(r.name), r.optional, SecretUnreadable(r.name), e);
    }
    hide FromReply, Holds;
  }

  /** Of one entry, the variables of the config map come first. */
  lemma ConfigMapFirst(ef: EnvFrom, cluster: Cluster)
    requires ef.configMapRef.Some? && ef.secretRef.Some?
    requires cluster.configMap(ef.configMapRef.value.name).Found? && cluster.secret(ef.secretRef.value.name).Found?
    ensures var maps, secrets := cluster.configMap(ef.configMapRef.value.name), cluster.secret(ef.secretRef.value.name);
            FromEntry(ef, cluster)
            == Ok(PrefixedVars(maps.data, maps.order) + PrefixedVars(secrets.data, secrets.order))
  {
    hide PrefixedVars;
  }

  /** The entries are collected in their order, behind what there was, and nothing else is. */
  lemma {:induction false} EntriesGive(refs: seq<EnvFrom>, cluster: Cluster, acc: seq<EnvVar>, e: EnvVar)
    ensures var r := FromEntries(refs, cluster, acc);
            r.Ok? ==> acc <= r.value
                      && (e in r.value <==> e in acc || exists i :: 0 <= i < |refs| && EntryGives(refs[i], cluster, e))
    decreases |refs|
  {
    hide FromEntry, EntryGives;
    if refs != [] {
      var entry := FromEntry(refs[0], cluster);
      FromEntryGives(refs[0], cluster, e);
      if entry.Ok? {
        EntriesGive(refs[1..], cluster, acc + entry.value, e);
        assert forall i :: 0 < i < |refs| ==> refs[i] == refs[1..][i - 1];
      }
    }
  }

  lemma {:induction false} EntriesInOrder(first: seq<EnvFrom>, second: seq<EnvFrom>, cluster: Cluster, acc: seq<EnvVar>)
    ensures FromEntries(first + second, cluster, acc)
         == var r := FromEntries(first, cluster, acc); if r.Ok? then FromEntries(second, cluster, r.value) else r
    decreases |first|
  {
    hide FromEntry;
    if first == [] {
      assert first + second == second;
    } else {
      assert (first + second)[1..] == first[1..] + second;
      var entry := FromEntry(first[0], cluster);
      if entry.Ok? { EntriesInOrder(first[1..], second, cluster, acc + entry.value); }
    }
  }

  // --------------------------------------------------------- the variables of the container

  /** What the reference of a variable resolves to, under the variable's own name. */
  predicate ReferenceGives(env: EnvVar, cluster: Cluster, e: EnvVar) {
    env.valueFrom.Some? && e.valueFrom.None? && e.name == env.name && NamesSecret(e.value)
    && var source := env.valueFrom.value;
       var maps := if source.configMapKeyRef.Some? then cluster.configMap(source.configMapKeyRef.value.name)
                   else Found(map[], []);
       var text := if source.configMapKeyRef.Some? && maps.Found? then Get(maps.data, source.configMapKeyRef.value.key)
                   else "";
       if NamesSecret(text) then e.value == text
       else
         maps.Found? && source.secretKeyRef.Some?
         && var secrets := cluster.secret(source.secretKeyRef.value.name);
            secrets.Found? && e.value == Get(secrets.data, source.secretKeyRef.value.key)
  }

  lemma EmptyNamesNothing()
    ensures !NamesSecret("")
  {
    assert |"vault:"| == 6 && |">>secret:"| == 9 && |"secret:"| == 7;
  }

  lemma LookForValueGives(env: EnvVar, cluster: Cluster, e: EnvVar)
    requires env.valueFrom.Some?
    ensures var r := LookForValueFrom(env.name, env.valueFrom.value, cluster);
            r.Ok? ==> (r.value == Some(e) <==> ReferenceGives(env, cluster, e))
  {
    EmptyNamesNothing();
    forall value ensures HasSecretPrefix(value) == NamesSecret(value) {
      NamesSecretIff(value);
    }
    hide HasSecretPrefix, NamesSecret, Get;
  }

  /** A variable of the container is collected for its own value, and behind it what its reference resolves to. */
  lemma OwnVarGives(env: EnvVar, cluster: Cluster, acc: seq<EnvVar>)
    ensures var r := FromEnv([env], cluster, acc);
            r.Ok? ==>
              && acc <= r.value
              && (forall e :: e in r.value[|acc|..] <==>
                    (e == env && NamesSecret(env.value)) || ReferenceGives(env, cluster, e))
              && (NamesSecret(env.value) ==> |r.value| > |acc| && r.value[|acc|] == env)
  {
    NamesSecretIff(env.value);
    assert [env][1..] == [];
    var looked := if env.valueFrom.Some? then LookForValueFrom(env.name, env.valueFrom.value, cluster) else Ok(None);
    var own := if HasSecretPrefix(env.value) then [env] else [];
    var more := if looked.Ok? && looked.value.Some? then [looked.value.value] else [];
    if env.valueFrom.Some? {
      forall e: EnvVar {
        LookForValueGives(env, cluster, e);
      }
    }
    assert FromEnv([env], cluster, acc).Ok? ==> looked.Ok? && FromEnv([env], cluster, acc).value == acc + (own + more);
    hide LookForValueFrom, HasSecretPrefix, NamesSecret, FromEnv;
    assert (acc + (own + more))[|acc|..] == own + more;
    forall e ensures looked.Ok? ==> (e in more <==> ReferenceGives(env, cluster, e)) {
    }
  }

  lemma {:induction false} OwnVarsInOrder(first: seq<EnvVar>, second: seq<EnvVar>, cluster: Cluster, acc: seq<EnvVar>)
    ensures FromEnv(first + second, cluster, acc)
         == var r := FromEnv(first, cluster, acc); if r.Ok? then FromEnv(second, cluster, r.value) else r
    decreases |first|
  {
    hide LookForValueFrom, HasSecretPrefix;
    if first == [] {
      assert first + second == second;
    } else {
      assert (first + second)[0] == first[0] && (first + second)[1..] == first[1..] + second;
      var acc1 := if HasSecretPrefix(first[0].value) then acc + [first[0]] else acc;
      OwnVarsInOrder(first[1..], second, cluster, acc1);
      if first[0].valueFrom.Some? {
        var looked := LookForValueFrom(first[0].name, first[0].valueFrom.value, cluster);
        if looked.Ok? && looked.value.Some? {
          OwnVarsInOrder(first[1..], second, cluster, acc1 + [looked.value.value]);
        }
      }
    }
  }
}
