# k8s-vault-webhook: a verified model

A Dafny 4.11 model of the admission webhook that wraps container commands in a secret injector, of the
controller that restarts workloads when a secret rotates, and of the registry client that finds out what
an image would have run. `dafny verify dfyconfig.toml` checks everything.

## How it is organised

| file | what it models |
|---|---|
| `GoText.dfy` | Go's string splitting, `Atoi`, `ParseBool`, and ranging over a map |
| `SecretConfigOrder.dfy` | the numbered secret-config annotations: comparator, filter, and any sort run with that comparator |
| `Kube.dfy` | containers, volumes, variables, and the argv rule of Kubernetes |
| `Providers.dfy` | the Vault, AWS, Azure and GCP backends and the registry that enables them |
| `Layers.dfy` | an independent reader of what the backends print, and the round trip |
| `Webhook.dfy` | lookups, the in-place rewriting loop, `mutatePod`, `SecretsMutator` |
| `Lookups.dfy` | what the reference lookups collect |
| `Verdicts.dfy` | the exact condition of every admission verdict |
| `PodSafety.dfy` | what a successfully mutated pod guarantees |
| `Rotation.dfy` | one reconciliation, `triggerRollingRestart`, and the baseline of an admitted pod |
| `RotationRuns.dfy` | the timed system of clock, work queue, rotations, checks and replacements |
| `GoCache.dfy` | the expiring cache both registry caches are made of |
| `ImageRegistry.dfy` | image references, credential search, ECR login, `GetImageConfig` |
| `Resolution.dfy` | theorems about which registry, image and credentials a reference resolves to |
| `CacheRuns.dfy` | both caches over whole request sequences |
| `AdmissionRuns.dfy` | admissions that share one registry: where every injected argv comes from |

Code that works step by step is a method proved against a function (`MutatePod` against `MutatedPod`,
`Reconcile` against `ReconcilePod`, `GetImageConfig` against `Serve`); the theorems are about those functions.

Choices that every theorem shares:

- What the runtime contributes is an input: the order in which Go ranges over a map (`order`) and, for the secret
  configs, the algorithm behind `sort.Slice` (`Runtime`). Results are stated for every order and for every
  algorithm that sorts; where ties matter, for every one that learns about the keys only through the comparator.
- API replies, image replies, base64, duration parsing, the ECR host pattern, case folding and clock
  readings are inputs. Durations are nanoseconds.
- `GetCurrentVersion` is an oracle. Following provider/interface.go:34-36 it answers for the secret that the
  annotations configure, so it is asked with the recorded baseline removed from them.
- `$(NAME)` substitution follows the rules of Kubernetes: `$$` is an escape, an unset reference stays as it is, a later
  variable replaces an earlier one. Variables from envFrom and services and values behind valueFrom are inputs.
- A failed reconciliation is retried after an arbitrary positive backoff, and a check may also come at any
  other time (a watch event). A tick never passes a timer that is due: this is the timely work queue.
- main.go:549-552 leaves the manager's SyncPeriod at its default, so controller-runtime delivers every watched pod
  again from time to time (about every ten hours). The instant of the next resync is part of the world, the period
  behind it an input of each resync, and a tick passes neither a resync nor a pod it has delivered.

Findings, each with its exact condition:

- The comparator reads its two operands differently. It orders a key before itself exactly when the prefix is
  repeated behind a negative number (`IrreflexiveIff`). Such a key holds two slashes, so Kubernetes refuses it after
  admission; the keys of stored pods never repeat the prefix (`SlashFreeTailIsOnce`).
- With equal numbers the order of the secret configs depends on map iteration, with distinct ones it depends neither
  on that nor on the sorting algorithm (`DeterministicIffNumbersDistinct`, `RuntimeIndependent`). What a pull secret
  yields depends on map iteration exactly when the secret that decides holds matching entries that resolve
  differently (`SearchDeterministicIff`, `CollectDeterministicIff`).
- The image cache is keyed by the image alone. While the registries hold fixed content, a hit agrees with a lookup
  that uses no cache exactly when the request's own lookup succeeds and its pull secrets resolve the image to the same
  content as those of the request that filled the entry (`AgreesWithDirectIff`); whatever the registries hold, exactly
  when it succeeds and both resolve to the very same place (`AgreesForEveryContentIff`). Both halves matter: for every
  cacheable image of another registry there is a run in which a namespace without credentials is answered
  (`CacheOutlivesCredentials`), and one in which a namespace is answered what the mirror in another namespace's pull
  secret holds (`CacheCrossesMirrors`). Who asks plays no part in a hit (`HitIgnoresRequester`).
- Moving ENTRYPOINT and CMD into args subjects them to `$(NAME)` substitution, and the Vault backend adds variables of
  its own (`RewriteVars`). The argv is unchanged exactly when the container's own words expand as before and the moved
  image words hold nothing to expand (`MeaningUnderSubstitutionIff`); own words that refer to none of VAULT_ADDR, VAULT_CACERT and
  VAULT_SKIP_VERIFY always expand as before, and `echo $(VAULT_ADDR)` need not (`AddedVariableShowsThrough`).
- An image that means "latest" enters the image cache exactly when a colon stands before its last path component
  (`LatestReachesCacheIff`, and `PortedLatestIsCached` for a registry that serves it as "latest" only).
- A stored ECR token respects its lifetime bound exactly when it was issued with more than five minutes left
  (`TokenBoundIff`).
- The baseline comes from the first provider but is compared with all of them. Pods are fresh after admission
  exactly when no reporting provider differs from the baseline they end up with (`FreshOnAdmissionIff`); otherwise
  restarts never end (`ReplacementIsRestartedAgain`). With the fixed versions reported today AWS agrees with no other
  backend (`StubsAgreeIff`).
- A pod whose first provider fails or reports nothing at admission, and whose template carries no baseline of its own,
  has none. Every check of it asks for another after its interval and compares nothing; a supported pod with an
  interval and an enabled provider can never be restarted exactly when it has no baseline
  (`UnrecordedIsNeverCompared`, `NeverPatchedIffNoBaseline`).
- A restart drops the pod's timer, trusting that the pod is replaced. A stale pod is sure to be restarted by a given
  instant exactly when its timer or the manager's next resync is due by then (`DetectedIffCheckDue`); so a pod that was
  patched but not replaced is not restarted again before the resync, however many intervals away that is
  (`PatchedButNotReplaced`, `PodWaitsForResync`).
- A due check of a stale pod silently drops its timer exactly when it has no owner, an owner of an unknown kind, or a
  ReplicaSet that exists and is not a Deployment's; a missing ReplicaSet is retried instead (`SilentIffLeadsNowhere`).
- An encoded login whose password contains a colon is rejected (`EncodedLoginIff`).

## Model

| member | source | states |
|---|---|---|
| SecretConfigOrder.ReadingsAgreeIff | provider/vault/vault.go:191-192 | the left and right reading of one key agree exactly when the prefix occurs once, or the text before its repetition is no nonzero 64-bit number |
| SecretConfigOrder.IrreflexiveIff | provider/vault/vault.go:190-194 | exactly which keys the comparator orders before themselves |
| SecretConfigOrder.RepeatedPrefixBreaksComparator | provider/vault/vault.go:190-194 | a concrete key that is less than itself |
| SecretConfigOrder.SlashFreeTailIsOnce | provider/vault/vault.go:183-192 | a key with one slash, as every stored pod's keys are, holds the prefix once |
| SecretConfigOrder.ComparatorIsStrictWeakOrder | provider/vault/vault.go:190-194 | on keys holding the prefix once the comparator is a strict weak order and compares the numeric suffixes |
| SecretConfigOrder.NumberedKeys | provider/vault/vault.go:190-194 | keys numbered in decimal are ordered as numbers, 10 after 9 |
| GoText.AtoiReadsDecimal | provider/vault/vault.go:191-192 | reading a number undoes printing it, with any sign in front |
| SecretConfigOrder.SortedKeysShape | provider/vault/vault.go:182-197 | for every map order and every sorting algorithm the result is a duplicate-free permutation of exactly the matching keys, sorted by number when no key repeats the prefix |
| SecretConfigOrder.RuntimeIndependent | provider/vault/vault.go:182-197 | with distinct numbers any two map orders and any two sorting algorithms give the same result |
| SecretConfigOrder.TieFollowsMapOrder | provider/vault/vault.go:190-194 | two keys with equal readings come out in different orders for two map orders, for every sort that only sees its comparator |
| SecretConfigOrder.DeterministicIffNumbersDistinct | provider/vault/vault.go:182-197 | for every comparison-driven sort and keys that hold the prefix once, the result is independent of the map order if and only if the numbers are distinct |
| SecretConfigOrder.InsertionSortQualifies | provider/vault/vault.go:190-194 | insertion sort, which Go runs on up to 12 keys, sorts and is driven by comparisons alone |
| SecretConfigOrder.FilterAndSort | provider/vault/vault.go:182-197 | the loop keeps the matching keys in visiting order and hands them to the runtime's sort when there are any |
| Providers.VaultFromAnnotations | provider/vault/vault.go:58-84 | the factory loop pairs each sorted key with its value |
| Providers.SecretConfigsFollowNumbers | provider/vault/vault.go:61-65 | on every runtime the secret configs are the values behind exactly the numbered annotations, each once, in the order of their numbers |
| Providers.FlagsFollowNumbers | provider/vault/vault.go:140-142 | in the injector's arguments the value with the lower number stands before the one with the higher |
| Providers.MutateByVault | provider/vault/vault.go:106-158 | layer in front of args, variables and mount behind the old ones, nothing else touched |
| Providers.MutateByAws | provider/aws/aws.go:63-82 | likewise for AWS |
| Providers.MutateByAzure | provider/azure/azure.go:54-63 | likewise for Azure |
| Providers.MutateByGcp | provider/gcp/gcp.go:70-98 | likewise for GCP, with the key mount |
| Providers.BuildEnabledProviders | provider/registry.go:18-27 | the loop returns the enabled providers in factory order |
| Providers.EnabledProvidersShape | types.go:23-30 | at most one provider per backend, in registration order, and exactly the annotated ones |
| Providers.ProvidersIndependentOfRuntime | provider/vault/vault.go:61-65 | with distinct numbers the built providers depend neither on the map order nor on the sorting algorithm |
| Layers.NoFlagIsSeparator | provider/vault/vault.go:131-153 | no printed flag and no provider name is a bare `--` |
| Layers.LayerReadsBack | provider/vault/vault.go:131-155 | one layer is read back exactly, whatever follows it |
| Layers.PeelUndoesProviders | main.go:268-271 | peeling one layer per provider leaves the inner argv, names in reverse provider order |
| Layers.VaultFlagsReadBack | provider/vault/vault.go:131-151 | the Vault flags determine every flag-borne field, secret configs in order |
| Layers.AwsFlagsReadBack | provider/aws/aws.go:64-75 | the AWS flags determine the AWS configuration |
| Layers.GcpFlagsReadBack | provider/gcp/gcp.go:80-91 | the GCP flags and the key volume determine the GCP configuration |
| Layers.DecodeUndoesPrint | provider/vault/vault.go:106-174 | one provider is recovered from its flags, variables and volumes |
| Layers.MutationReadsBack | main.go:267-271 | the whole provider list and the argv are recovered from a mutated container and the volumes |
| Layers.MutationInjective | main.go:267-271 | provider lists that mutate a container alike agree in every recoverable field |
| Layers.BuiltProviderRecoveredIff | provider/vault/vault.go:67-82 | a provider built from annotations is recovered whole unless it names a CA file without a TLS secret |
| Layers.VaultLayerSaysAnnotations | provider/vault/vault.go:67-82 | which annotation each Vault flag, variable and volume carries, as the injector reads them |
| Layers.AwsLayerSaysAnnotations | provider/aws/aws.go:41-47 | likewise for AWS |
| Layers.AzureLayerSaysAnnotations | provider/azure/azure.go:33-41 | likewise for Azure |
| Layers.GcpLayerSaysAnnotations | provider/gcp/gcp.go:43-54 | likewise for GCP |
| Webhook.LookForEnvFrom | main.go:170-214 | the loop collects the prefixed variables, and its error is that of the first entry with an unreadable mandatory object; none is an error otherwise |
| Webhook.ScanEnv | main.go:228-242 | the scan of the container's own variables, whose error is that of the first variable with an unreadable object that an earlier reference has not settled |
| Lookups.EntriesGive | main.go:170-214 | a variable is collected from the entries if and only if some entry's object holds it under a value that names a secret; what was there before stays in front |
| Lookups.ConfigMapFirst | main.go:176-211 | of one entry the variables of the config map come before those of the secret |
| Lookups.LookForValueGives | main.go:134-168 | exactly what the reference of a variable resolves to, and when to nothing |
| Lookups.OwnVarGives | main.go:228-242 | a variable is collected for its own value, and behind it what its reference resolves to, and nothing else is |
| Webhook.Prepare | main.go:219-262 | the argv handed to the providers is the one Kubernetes would run, or the first error |
| Webhook.MutateContainers | main.go:216-289 | the in-place loop: rewritten prefix, untouched rest, first error, and when it reports a mutation |
| Webhook.GetVolumes | main.go:59-83 | the injector volume followed by the extra volumes of the providers |
| Webhook.MutatePod | main.go:291-329 | the new state of the pod, also after an error in either list |
| Webhook.IsNamespaceExcluded | main.go:332-340 | membership up to case folding |
| Webhook.SecretsMutator | main.go:344-447 | the new pod and the verdict: a pod rejected by namespace, opt-out, no provider or validation is unchanged; otherwise mutated, and the baseline comes from the first provider |
| Verdicts.VerdictIff | main.go:361-445 | the exact condition of Skipped, Invalid(i), MutationFailed and Mutated, told from namespace, annotation values and lookups; Skipped and Invalid leave the pod as it was, and the error of MutationFailed is the first one met |
| Verdicts.ValidateIff | provider/vault/vault.go:90-104 | a provider is invalid if and only if a required annotation is missing or empty |
| Verdicts.AskedForIsEnabled | provider/registry.go:18-27 | the enabled backends are those whose annotation reads true, in registration order |
| PodSafety.MeaningPreserved | main.go:244-271 | peeling a rewritten container gives exactly the argv Kubernetes would have run, even if it contains `--` |
| PodSafety.RewrittenKeepsRest | main.go:218-286 | nothing of a container changes but command, args, variables and mounts, and the latter two only grow |
| PodSafety.RewrittenReadsBack | main.go:264-286 | the finished container and volumes still determine every provider and the argv |
| PodSafety.MeaningUnderSubstitutionIff | main.go:244-271 | with the variables each container has, the same argv runs if and only if the container's own words expand as before and the moved image words hold nothing to expand, told from the variables before the rewrite; own words that refer to no added variable always expand as before |
| PodSafety.AddedVariableShowsThrough | provider/vault/vault.go:108-128 | a concrete command whose reference to VAULT_ADDR was literal before and is replaced after |
| PodSafety.RewriteVars | provider/vault/vault.go:106-128 | the variables of a rewritten container in closed form: those before, then for each Vault layer the address and one of the two TLS variables |
| PodSafety.OnlyVaultNamesChange | provider/vault/vault.go:106-128 | however many providers wrap a container, no variable but the three Vault ones changes its value |
| PodSafety.NothingToExpand | main.go:254-262 | a word without `$$` whose references are all unset is left alone |
| PodSafety.PrefixRewritten | main.go:218-288 | after an error at index j exactly the containers before j are rewritten |
| PodSafety.FailureLeaves | main.go:291-314 | the pod after a failed mutation: the containers before the one in trouble are rewritten, init list first, and nothing else has changed |
| PodSafety.Succeeded | main.go:316-326 | the whole pod after success: every container rewritten, copy container first, volumes appended |
| PodSafety.CopyFinishesFirst | main.go:85-109 | in every start order Kubernetes allows, sidecars and retries included, the copy has succeeded before the injector starts |
| PodSafety.InjectorVolumeShared | main.go:278-286 | every container running the injector mounts the declared volume the copy wrote to |
| PodSafety.InjectorIsCopied | main.go:93-97 | the copy lands in the shared volume, and the injector is started from a rewritten container's mount of it under the copied file's name |
| PodSafety.PullSecretsKept | main.go:324-326 | the pod's own pull secrets keep their order, and the configured one follows them if there is one |
| PodSafety.InitOrderKept | main.go:316-317 | the original init containers follow the copy container in their order |
| PodSafety.MountsMatchVolumes | provider/vault/vault.go:114-174 | each backend declares exactly the volumes it mounts |
| PodSafety.CredentialFilesAreMounted | provider/gcp/gcp.go:70-114 | the CA file and the service-account file lie in a volume mounted from the configured secret |
| PodSafety.MountsResolve | main.go:316-322 | if every mount resolved before, every mount of the mutated pod resolves |
| PodSafety.VolumeNamesIff | main.go:59-83 | volume names are distinct after the rewrite if and only if they were and none is that of an added volume |
| PodSafety.VolumeNamesStayDistinct | main.go:59-83 | distinct volume names stay distinct when the pod avoids the reserved names |
| PodSafety.MountPathsIff | main.go:280-284 | the mount paths of a container are distinct after the rewrite if and only if they were and none is an added one |
| PodSafety.ContainerNamesIff | main.go:85-110 | container names are distinct after the rewrite if and only if they were and none is that of the copy container |
| PodSafety.LookupsDoNotInterfere | main.go:134-242 | two clusters in which all lookups complete yield the same pod and result |
| PodSafety.AdmittedPodIsSafe | main.go:344-447 | after the verdict Mutated: valid providers of distinct kinds, providers and argv readable from every container, copy first in every start order, pull secrets kept, mounts resolving, volume and container names and mount paths distinct, baseline recorded |
| GoCache.Cache.Set | registry/registry.go:60-65 | zero duration means the default, only a positive one expires |
| GoCache.Cache.Fetch | registry/registry.go:90 | a present entry is served with its value exactly up to and including its deadline, or always if it has none |
| ImageRegistry.TaggedRoundTrip | registry/registry.go:187-204 | parsing inverts name and tag |
| ImageRegistry.DigestRoundTrip | registry/registry.go:187-204 | parsing inverts name and digest |
| ImageRegistry.ReferenceReassembles | registry/registry.go:187-204 | the parsed halves reassemble to the reference |
| ImageRegistry.LatestRefusedIff | registry/registry.go:73-80 | exactly which digest-free references the cache refuses for being latest |
| ImageRegistry.PortDefeatsLatestRule | registry/registry.go:193 | a concrete untagged image of a registry with a port that is cacheable |
| ImageRegistry.ContainerInfo.FixDockerHubImage | registry/registry.go:290-307 | the normalised name, and the registry fields set exactly for Docker Hub shorthands |
| ImageRegistry.ContainerInfo.ParseDockerConfig | registry/registry.go:227-288 | the first matching registry in visiting order decides |
| ImageRegistry.ContainerInfo.CheckImagePullSecret | registry/registry.go:309-325 | one pull secret: unreadable, malformed, or searched |
| ImageRegistry.ContainerInfo.FindCredentials | registry/registry.go:331-364 | pull secrets in list order, then the default secret |
| ImageRegistry.ContainerInfo.LoginToEcr | registry/registry.go:381-433 | cached or newly issued token, what is stored and with which lifetime, and the crash on a token without a colon |
| ImageRegistry.ContainerInfo.CollectFor | registry/registry.go:328-436 | the fields and the token cache after a collection |
| ImageRegistry.Registry.GetImageConfig | registry/registry.go:83-140 | the answer and both caches after one request |
| Resolution.FixHubIdempotent | registry/registry.go:290-307 | normalising twice changes nothing more |
| Resolution.OfficialImageSpellings | registry/registry.go:290-307 | the four spellings of an official image normalise to one string |
| Resolution.SpellingsResolveAlike | registry/registry.go:328-379 | an image and its normalised form collect the same fields, credentials and tokens, whatever the pull secrets hold |
| Resolution.ResolutionLosesNothing | registry/registry.go:366-379 | registry name and image reassemble to the normalised reference, or it was kept whole |
| Resolution.OtherRegistryResolves | registry/registry.go:366-379 | for another registry the first path component becomes name and address |
| Resolution.SearchOutcome | registry/registry.go:327-364 | a match gives non-empty credentials for a registry that prefixes the image, a non-match changes nothing |
| Resolution.FirstDecides | registry/registry.go:337-347 | the first pull secret that matches or fails decides |
| Resolution.FirstMatchWins | registry/registry.go:228-284 | the first matching registry of one secret decides |
| Resolution.SearchDeterministicIff | registry/registry.go:227-288 | the outcome is independent of the map order if and only if all matching entries resolve alike |
| Resolution.SingleMatchDeterministic | registry/registry.go:227-288 | with at most one matching key the outcome is independent of the map order |
| Resolution.CollectDeterministicIff | registry/registry.go:328-379 | a whole collection, fields and tokens, is independent of the order in every secret if and only if the deciding secret's matching entries resolve alike |
| Resolution.NestedRegistriesAmbiguous | registry/registry.go:243-248 | two matching keys with different names make the outcome depend on the order |
| Resolution.RegistryKeySpellings | registry/registry.go:229-241 | all common spellings of a registry key normalise to its host |
| Resolution.EncodedLoginIff | registry/registry.go:250-281 | exactly which encoded fields yield which login |
| Resolution.CredentialsIff | registry/registry.go:243-284 | what the deciding entry does: name, address, and exactly which login it grants, from its own fields or its encoded one; without one the search fails |
| Resolution.UnusableSecretFails | registry/registry.go:309-322 | a secret that is unreadable or malformed ends the search with that reason |
| Resolution.NothingFound | registry/registry.go:337-364 | when no secret has an entry for the image nothing is found, and the default secret counts only if both its parts are set |
| Resolution.CollectKeepsMatch | registry/registry.go:366-379 | after a match the login is unchanged and the registry name is taken off the image |
| Resolution.HubResolves | registry/registry.go:290-307 | without credentials official images and those of hub accounts resolve to the hub's host |
| CacheRuns.ImagesJustified | registry/registry.go:135-137 | in every reachable state a cached image never expires, is cacheable, and was fetched for that very reference |
| CacheRuns.AnswersWereFetched | registry/registry.go:88-139 | each answer equals some fetch of the same image at or before the request |
| CacheRuns.UncacheableBypasses | registry/registry.go:73-80 | requests that may not be cached neither read nor change the image cache |
| CacheRuns.AlwaysPullsBypass | registry/registry.go:73-76 | a request with policy Always is answered by a fetch and leaves the image cache alone |
| CacheRuns.PinnedIsServedFromCache | registry/registry.go:73-99 | for every other policy, once a config is answered for a reference with a tag or digest other than latest, all later such requests for it are answered that config |
| CacheRuns.HitLeavesStateAlone | registry/registry.go:89-99 | a hit answers the recorded config and changes neither cache, anything else is answered by a fetch |
| CacheRuns.HitIgnoresRequester | registry/registry.go:89-99 | the answer of a hit depends on neither the namespace nor the pull secrets nor the outside world |
| CacheRuns.CachedIff | registry/registry.go:135-137 | an image is cached if and only if a fetch for an earlier cacheable request of that very reference succeeds |
| CacheRuns.FillerFetched | registry/registry.go:133-137 | every entry was put there by one earlier request that missed the cache, and holds what that request fetched |
| CacheRuns.CacheRefinesDirect | registry/registry.go:88-139 | while registries hold fixed content, every config answered is what they hold where some request for the image resolved it to, and if all of them resolve it alike, it is the one the run without a cache answers whenever that run answers a config |
| CacheRuns.AgreesWithDirectIff | registry/registry.go:88-139 | while registries hold fixed content, a hit agrees with the run without a cache if and only if the request's own credentials fetch the image and resolve it to the same content as the filling request's; any other request if and only if the ECR tokens held in both runs lead to the same kind of answer; without ECR the request alone decides |
| CacheRuns.AgreesForEveryContentIff | registry/registry.go:243-248 | a hit agrees whatever the registries hold if and only if the request's own lookup succeeds and both requests resolve to the same address, name and reference |
| CacheRuns.TokensStayAlike | registry/registry.go:386-420 | both runs hold the same ECR tokens as long as no hit has skipped an ECR login |
| CacheRuns.FetchReadsHeld | registry/registry.go:386-393 | a fetch depends on the token cache only through the token held for its registry |
| CacheRuns.FetchAfterMatch | registry/registry.go:143-155 | after a match the registry is asked with the login found, username first |
| CacheRuns.FetchWithoutLogin | registry/registry.go:394-407 | without a match the registry is asked without a login, also when AWS gives no session or no token |
| CacheRuns.FetchWithToken | registry/registry.go:424-427 | an ECR token is used as the text before its first colon and everything behind it |
| CacheRuns.BadTokens | registry/registry.go:412-427 | a token that cannot be decoded refuses the request, one without a colon crashes it |
| CacheRuns.FailedSearchFetchesNothing | registry/registry.go:107-115 | a failed search asks no registry |
| CacheRuns.CacheOutlivesCredentials | registry/registry.go:89-99 | for every cacheable image of another registry a run in one unchanging world in which a namespace without credentials gets the cached config where the direct lookup is refused |
| CacheRuns.CacheCrossesMirrors | registry/registry.go:243-248 | likewise a run in which it gets what the server address in another namespace's pull secret holds, while its own lookup succeeds with something else |
| CacheRuns.LatestReachesCacheIff | registry/registry.go:73-80 | an image meaning latest is cached in some run if and only if a colon precedes its last component |
| CacheRuns.PortedLatestIsCached | registry/registry.go:187-204 | a registry with a port that serves an image as latest only: the untagged image is fetched there and cached |
| CacheRuns.TokensJustified | registry/registry.go:419-420 | in every reachable state a cached token carries the deadline computed when it was issued |
| CacheRuns.ReusedTokenIsUsed | registry/registry.go:388-427 | a cached token is split into the login the request uses |
| CacheRuns.TokenLifetimeBound | registry/registry.go:386-421 | in any run whose tokens are issued with more than five minutes left and stored within delta, a served token is at most delta past five minutes before its expiry |
| CacheRuns.TokenBoundIff | registry/registry.go:419-420 | the bound holds for a stored token if and only if it was issued with more than five minutes left |
| CacheRuns.DefaultTokenLife | registry/registry.go:60-65 | a token issued with exactly five minutes left is served for twelve hours |
| CacheRuns.SpellingsFetchAlike | registry/registry.go:143-184 | an image and its normalised form fetch the same config |
| CacheRuns.OrderFetchesAlike | registry/registry.go:227-288 | two worlds that differ only in the order of consistent pull secrets fetch the same config and store the same tokens |
| Rotation.Controller.TriggerRollingRestart | controllers/rotation_controller.go:99-140 | which workload is patched for which owner chain, and which failures patch nothing |
| Rotation.Controller.Reconcile | controllers/rotation_controller.go:38-97 | result and patches of one reconciliation |
| Rotation.DiffersIff | controllers/rotation_controller.go:71-93 | the loop finds a mismatch exactly when some version differs before any provider fails |
| Rotation.PatchesIffStale | controllers/rotation_controller.go:60-93 | without faults an owner is patched if and only if the pod is stale and its owner chain supported |
| Rotation.OnlyStaleIsPatched | controllers/rotation_controller.go:79-92 | no fault makes the controller patch the owner of a fresh pod |
| Rotation.PatchedWorkloadIff | controllers/rotation_controller.go:99-137 | the workload patched, under any faults, is the pod's first owner or its ReplicaSet's Deployment, in the pod's namespace, and without faults it is patched if and only if the pod is stale |
| Rotation.CheckOutcome | controllers/rotation_controller.go:40-97 | exactly when a check counts as failed, and when it asks for another after the interval |
| Rotation.BaselineLeavesConfigAlone | main.go:432 | recording the baseline changes neither the enabled providers nor the configured secret |
| Rotation.WebhookRecordsBaseline | main.go:425-435 | the baseline of the model is the one the webhook writes |
| Rotation.FreshOnAdmissionIff | main.go:425-435 | a pod is fresh on admission if and only if every reporting provider the loop reaches matches the baseline the pod ends up with, the template's own included |
| Rotation.HarmonyIsAgreement | main.go:425-435 | when the first provider reports a version, that condition is agreement with the first provider |
| Rotation.UnrecordedIsNeverCompared | controllers/rotation_controller.go:60-64 | a pod admitted without a baseline is requeued by every check, whatever the later versions and faults, and never patched |
| Rotation.NeverPatchedIffNoBaseline | controllers/rotation_controller.go:60-93 | a supported pod with an interval and an enabled provider is patched under no versions and faults if and only if it has no baseline |
| Rotation.DifferentVersionsAreDiscord | controllers/rotation_controller.go:71-92 | with a baseline, any two providers that report different versions make the pod stale on admission |
| Rotation.StubsAgreeIff | provider/aws/aws.go:88-91 | with today's fixed versions providers agree if and only if AWS is not combined with another backend |
| RotationRuns.RunsKeepTime | controllers/rotation_controller.go:49-97 | in every run and for every pod neither a pending timer nor the next resync is ever late |
| RotationRuns.RunsKeepInterval | controllers/rotation_controller.go:96 | while no check of the pod fails, its next pending check comes at most its interval after the last |
| RotationRuns.DetectedIffCheckDue | controllers/rotation_controller.go:71-97 | every run in which a stale, watched, supported pod stays stale past an instant restarts it, if and only if its timer or the next resync is due by then |
| RotationRuns.TimerLostOnlyByRestart | controllers/rotation_controller.go:87-97 | a watched, supported pod loses its timer only through a check that patches its owner |
| RotationRuns.PatchedButNotReplaced | controllers/rotation_controller.go:87-89 | the failing run: patched but not replaced, the pod becomes stale again without a timer, and is sure to be restarted by exactly the instants from the next resync on |
| RotationRuns.PodWaitsForResync | main.go:549-552 | that run for a concrete pod of a Deployment with an interval of one hour and a resync in ten |
| RotationRuns.DetectionWithinInterval | controllers/rotation_controller.go:49-97 | in every reachable state a stale, watched, supported pod that was not restarted since its admission, and none of whose checks failed since, is restarted within one interval |
| RotationRuns.SilentIffLeadsNowhere | controllers/rotation_controller.go:99-137 | a due fault-free check of a stale watched pod patches nothing and schedules nothing if and only if the pod has no owner, an owner of an unknown kind, or an existing ReplicaSet without a Deployment |
| RotationRuns.FrozenStepEffect | controllers/rotation_controller.go:60-96 | with frozen, agreeing versions no step makes a fresh pod stale, and a replacement removes exactly its stale pod |
| RotationRuns.StalePodsConserved | controllers/rotation_controller.go:60-96 | stale pods at the start equal stale pods left plus stale pods replaced or removed |
| RotationRuns.QuietWhenFresh | controllers/rotation_controller.go:60-96 | without stale pods nothing is ever patched again |
| RotationRuns.Converges | controllers/rotation_controller.go:60-96 | after as many stale replacements as there were stale pods every continuation is quiet |
| RotationRuns.DiscordantAlwaysPatched | controllers/rotation_controller.go:71-92 | every error-free check of a pod admitted with disagreeing providers reaches the restart |
| RotationRuns.DueHoldsTime | controllers/rotation_controller.go:71-92 | while such a pod is due and its workload not patched again, time cannot pass |
| RotationRuns.ReplacementIsRestartedAgain | controllers/rotation_controller.go:71-92 | after every replacement the workload is patched again before the clock moves |
| AdmissionRuns.RepliesWereFetched | main.go:216-262 | every config a list of containers is given was fetched for just that image, then or earlier, and the walk ends early only at a container that cannot be prepared |
| AdmissionRuns.RequestsAreThePods | main.go:246-250 | the registry is asked for containers without a command only, with the pod's namespace, pull secrets and the container's policy |
| AdmissionRuns.AdmissionsRunOriginals | main.go:244-271 | over any sequence of admissions sharing one registry, every container of a mutated pod runs its own argv, with image words from a config that was fetched for its image |
| AdmissionRuns.OriginalIsContent | registry/registry.go:88-139 | while registries hold fixed content and all requests for the image resolve it alike, that config is the content at this one place |

## Left out

- HTTP serving, TLS, signals, configuration loading, manager start-up, logging and metrics: no logic of their own.
- Objects other than pods: `SecretsMutator` returns at once for them.
- JSON decoding of pull secrets and of image metadata, base64, duration parsing and the ECR host pattern: inputs of the model.
- Sharing of slice storage: containers, argument lists and volume lists are values, so aliasing of backing arrays is not captured; only the container list itself is an array updated in place.
- Byte strings: secret data and strings are sequences of characters, and no Unicode folding is modelled.
- Concurrency of requests: each call sees both caches at one moment, and a crash of the registry client ends one admission only.
- Resource limits and the exact image of the copy container: opaque.
- RotationRuns.NewPod: admits every pod through the baseline step, so namespaces excluded from mutation and opted-out pods, which never get a baseline, are not distinguished.
- RotationRuns.Apply: the effect of a patch on the cluster is only that pods may be replaced at any later time; rollout order and the one-second resolution of the restart time are not modelled.
