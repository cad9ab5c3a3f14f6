/** Admissions that share one image registry: where the argv of every injected container comes from. */
module AdmissionRuns {
  import opened GoText
  import opened Kube
  import opened Providers
  import opened Layers
  import opened SecretConfigOrder
  import opened Webhook
  import opened PodSafety
  import ImageRegistry
  import CacheRuns

  /** The requests the registry has served so far, whose caches are `CacheRuns.State` of them. */
  type History = seq<CacheRuns.Event>

  /** What request number `t` to the registry meets outside the process. */
  type Worlds = nat -> ImageRegistry.Env

  /** One call of the webhook for a pod. */
  datatype Visit = Visit(pod: PodValue, ns: string, rt: Runtime, settings: Settings, cluster: Cluster,
      versions: VersionOracle)

  /** The loop asks the registry about a container without a command, once its lookups have succeeded. */
  predicate Asks(c: Container, cluster: Cluster) {
    c.command == [] && Trouble(c, cluster, Ok(ImageConfig([], []))).None?
  }

  function RequestFor(c: Container, visit: Visit): ImageRegistry.Request {
    ImageRegistry.Request(c.image, c.pullPolicy, visit.ns, visit.pod.pullSecrets)
  }

  /** The registry's answer to the last request; a crash ends the admission just as an error does. */
  function LastReply(history: History): ImageReply
    requires history != []
  {
    var n := |history| - 1;
    match CacheRuns.AnswerAt(history, n)
    case Config(config) => Ok(config)
    case _ => Err(ImageUnknown(history[n].req.image))
  }

  /** The replies one list of containers gets, up to the first container that cannot be prepared. */
  function Replies(cs: seq<Container>, visit: Visit, worlds: Worlds, history: History): (seq<ImageReply>, History) {
    if cs == [] then ([], history)
    else
      var c := cs[0];
      var asked := history + [CacheRuns.Event(RequestFor(c, visit), worlds(|history|))];
      var (reply, now) := if Asks(c, visit.cluster) then (LastReply(asked), asked)
                          else (Err(ImageUnknown(c.image)), history);
      if Trouble(c, visit.cluster, reply).Some? then ([reply], now)
      else
        var (rest, later) := Replies(cs[1..], visit, worlds, now);
        ([reply] + rest, later)
  }

  function Answered(replies: seq<ImageReply>): nat -> ImageReply {
    (k: nat) => if k < |replies| then replies[k] else Err(ImageUnknown(""))
  }

  /** The webhook looks at the containers at all. */
  predicate PassesGate(visit: Visit) {
    var v := visit.pod;
    var ps := EnabledProviders(v.annotations, visit.rt);
    !Excluded(visit.settings, visit.ns) && !OptedOut(visit.settings, v.annotations) && ps != []
        && FirstInvalid(ps) == |ps|
  }

  /** The replies to the init containers, then, unless one of them failed, those to the containers. */
  function Lookups(visit: Visit, worlds: Worlds, history: History): (Images, History) {
    if !PassesGate(visit) then (Images(Answered([]), Answered([])), history)
    else
      var (init, h1) := Replies(visit.pod.init, visit, worlds, history);
      if ErrorOf(visit.pod.init, visit.cluster, Answered(init)).Some? then (Images(Answered(init), Answered([])), h1)
      else
        var (app, h2) := Replies(visit.pod.app, visit, worlds, h1);
        (Images(Answered(init), Answered(app)), h2)
  }

  /** The pod and the verdict of one admission against the shared registry. */
  function Served(visit: Visit, worlds: Worlds, history: History): (PodValue, Verdict) {
    Admission(visit.pod, visit.ns, visit.rt, visit.settings, visit.cluster, Lookups(visit, worlds, history).0,
        visit.versions)
  }

  function HistoryAfter(visits: seq<Visit>, worlds: Worlds): History {
    if visits == [] then []
    else
      var n := |visits| - 1;
      Lookups(visits[n], worlds, HistoryAfter(visits[..n], worlds)).1
  }

  // ------------------------------------------------------------- where a reply comes from

  /** Some request for the image fetched this config from its registry. */
  ghost predicate FetchedFor(history: History, image: string, config: ImageConfig) {
    exists j :: 0 <= j < |history| && history[j].req.image == image
                && CacheRuns.FetchAt(history, j) == ImageRegistry.Config(config)
  }

  lemma FetchedStays(history: History, later: History, image: string, config: ImageConfig)
    requires history <= later && FetchedFor(history, image, config)
    ensures FetchedFor(later, image, config)
  {
    hide CacheRuns.FetchAt;
    var j :| 0 <= j < |history| && history[j].req.image == image
             && CacheRuns.FetchAt(history, j) == ImageRegistry.Config(config);
    assert history[j] == later[j];
    SamePast(history, later, j);
  }

  lemma SamePast(history: History, later: History, j: nat)
    requires history <= later && j < |history|
    ensures CacheRuns.FetchAt(history, j) == CacheRuns.FetchAt(later, j)
  {
    hide CacheRuns.State, ImageRegistry.FetchConfig;
    assert history[..j] == later[..j] && history[j] == later[j];
  }

  lemma ReplyWasFetched(history: History)
    requires history != [] && LastReply(history).Ok?
    ensures FetchedFor(history, history[|history| - 1].req.image, LastReply(history).value)
  {
    hide CacheRuns.AnswerAt, CacheRuns.FetchAt, CacheRuns.MayCache;
    var n := |history| - 1;
    CacheRuns.AnswersWereFetched(history, n);
  }

  /** Every config a list of containers is given was fetched for just that image. */
  lemma {:induction false} RepliesWereFetched(cs: seq<Container>, visit: Visit, worlds: Worlds, history: History)
    ensures var (replies, later) := Replies(cs, visit, worlds, history);
            && history <= later && |replies| <= |cs|
            && (|replies| < |cs| ==>
                  replies != [] && Trouble(cs[|replies| - 1], visit.cluster, replies[|replies| - 1]).Some?)
            && forall k :: 0 <= k < |replies| && replies[k].Ok? ==> FetchedFor(later, cs[k].image, replies[k].value)
    decreases |cs|
  {
    hide Trouble, LastReply, FetchedFor;
    if cs != [] {
      var c := cs[0];
      var asked := history + [CacheRuns.Event(RequestFor(c, visit), worlds(|history|))];
      var (reply, now) := if Asks(c, visit.cluster) then (LastReply(asked), asked)
                          else (Err(ImageUnknown(c.image)), history);
      if reply.Ok? { ReplyWasFetched(asked); }
      if Trouble(c, visit.cluster, reply).None? {
        RepliesWereFetched(cs[1..], visit, worlds, now);
        var (rest, later) := Replies(cs[1..], visit, worlds, now);
        if reply.Ok? { FetchedStays(now, later, c.image, reply.value); }
        assert forall k :: 0 < k < |rest| + 1 ==> ([reply] + rest)[k] == rest[k - 1] && cs[k] == cs[1..][k - 1];
      }
    }
  }

  /** When the whole list could be prepared, every container without a command was given such a config. */
  lemma ListWasFetched(cs: seq<Container>, visit: Visit, worlds: Worlds, history: History)
    requires ErrorOf(cs, visit.cluster, Answered(Replies(cs, visit, worlds, history).0)).None?
    ensures var (replies, later) := Replies(cs, visit, worlds, history);
            forall k :: 0 <= k < |cs| && cs[k].command == [] ==>
              Answered(replies)(k).Ok? && FetchedFor(later, cs[k].image, Answered(replies)(k).value)
  {
    RepliesWereFetched(cs, visit, worlds, history);
    hide Replies, FetchedFor, FromEntries, FromEnv;
    var (replies, later) := Replies(cs, visit, worlds, history);
    assert forall k :: 0 <= k < |cs| ==> Trouble(cs[k], visit.cluster, Answered(replies)(k)).None?;
    assert replies != [] ==> Answered(replies)(|replies| - 1) == replies[|replies| - 1];
  }

  /** What is asked for the containers of a list: in this pod's name, and only for those without a command. */
  lemma {:induction false} RequestsAreThePods(cs: seq<Container>, visit: Visit, worlds: Worlds, history: History,
                                              t: nat)
    requires |history| <= t < |Replies(cs, visit, worlds, history).1|
    ensures history <= Replies(cs, visit, worlds, history).1
    ensures var req := Replies(cs, visit, worlds, history).1[t].req;
            exists k :: 0 <= k < |cs| && cs[k].command == [] && req.image == cs[k].image
                && req.policy == cs[k].pullPolicy
                        && req.ns == visit.ns && req.pullSecrets == visit.pod.pullSecrets
    decreases |cs|
  {
    RepliesWereFetched(cs, visit, worlds, history);
    if cs != [] {
      var c := cs[0];
      var asked := history + [CacheRuns.Event(RequestFor(c, visit), worlds(|history|))];
      var (reply, now) := if Asks(c, visit.cluster) then (LastReply(asked), asked)
                          else (Err(ImageUnknown(c.image)), history);
      hide Trouble, LastReply, FetchedFor;
      if Trouble(c, visit.cluster, reply).None? && t >= |now| {
        RequestsAreThePods(cs[1..], visit, worlds, now, t);
        var req := Replies(cs, visit, worlds, history).1[t].req;
        var k :| 0 <= k < |cs| - 1 && cs[1..][k].command == [] && req.image == cs[1..][k].image
                 && req.policy == cs[1..][k].pullPolicy;
        assert cs[k + 1] == cs[1..][k];
      } else {
        assert Asks(c, visit.cluster) && t == |history|;
        if Trouble(c, visit.cluster, reply).None? { RepliesWereFetched(cs[1..], visit, worlds, now); }
        assert Replies(cs, visit, worlds, history).1[t] == asked[t];
      }
    }
  }

  // --------------------------------------------------------------- the injected argv

  /** `r` wraps the argv of `c`, with the image words of a config that was fetched for the image of `c`. */
  ghost predicate RunsOriginal(c: Container, r: Container, ps: seq<Provider>, history: History) {
    exists config :: (c.command == [] ==> FetchedFor(history, c.image, config))
                     && Peel(r.args, |ps|) == Some((ReversedNames(ps), KubeArgv(c.command, c.args, config)))
  }

  lemma InjectedRunsOriginal(c: Container, r: Container, ps: seq<Provider>, reply: ImageReply, volumes: seq<Volume>,
                             history: History)
    requires Injected(c, r, ps, reply, volumes)
    requires c.command == [] ==> reply.Ok? && FetchedFor(history, c.image, reply.value)
    ensures RunsOriginal(c, r, ps, history)
  {
    hide Peel, DecodeStack, FetchedFor, ReversedNames, CanonicalAll, PathsOf, AddedPaths;
    assert Peel(r.args, |ps|) == Some((ReversedNames(ps), KubeArgv(c.command, c.args, ImageOf(reply))));
  }

  lemma MutatedLookups(visit: Visit, worlds: Worlds, history: History)
    requires Served(visit, worlds, history).1 == Mutated
    ensures var (images, later) := Lookups(visit, worlds, history);
            && history <= later
            && (forall k :: 0 <= k < |visit.pod.init| && visit.pod.init[k].command == [] ==>
                  images.ofInit(k).Ok? && FetchedFor(later, visit.pod.init[k].image, images.ofInit(k).value))
            && (forall k :: 0 <= k < |visit.pod.app| && visit.pod.app[k].command == [] ==>
                  images.ofApp(k).Ok? && FetchedFor(later, visit.pod.app[k].image, images.ofApp(k).value))
  {
    hide Replies, FetchedFor, EnabledProviders, ErrorOf, Effect, Answered, Excluded, OptedOut, WithBaseline, Finish;
    var v := visit.pod;
    assert PassesGate(visit);
    var (init, h1) := Replies(v.init, visit, worlds, history);
    assert ErrorOf(v.init, visit.cluster, Answered(init)).None?;
    var (app, h2) := Replies(v.app, visit, worlds, h1);
    RepliesWereFetched(v.init, visit, worlds, history);
    RepliesWereFetched(v.app, visit, worlds, h1);
    ListWasFetched(v.init, visit, worlds, history);
    ListWasFetched(v.app, visit, worlds, h1);
    forall k | 0 <= k < |v.init| && v.init[k].command == []
      ensures FetchedFor(h2, v.init[k].image, Answered(init)(k).value)
    {
      FetchedStays(h1, h2, v.init[k].image, Answered(init)(k).value);
    }
  }

  /** Every container of the finished pod runs its own argv, the copy container standing in front of them. */
  ghost predicate AllRunOriginals(v: PodValue, m: PodValue, ps: seq<Provider>, history: History) {
    && |m.app| == |v.app|
    && (forall k :: 0 <= k < |m.app| ==> RunsOriginal(v.app[k], m.app[k], ps, history))
    && (v.init != [] ==>
          && |m.init| == |v.init| + 1
          && forall k :: 0 <= k < |v.init| ==> RunsOriginal(v.init[k], m.init[k + 1], ps, history))
  }

  lemma AdmissionRunsOriginals(visit: Visit, worlds: Worlds, before: History)
    requires Served(visit, worlds, before).1 == Mutated
    ensures AllRunOriginals(visit.pod, Served(visit, worlds, before).0,
                            EnabledProviders(visit.pod.annotations, visit.rt), Lookups(visit, worlds, before).1)
  {
    var v := visit.pod;
    var (images, history) := Lookups(visit, worlds, before);
    var m := Served(visit, worlds, before).0;
    var ps := EnabledProviders(v.annotations, visit.rt);
    MutatedLookups(visit, worlds, before);
    AdmittedPodIsSafe(v, visit.ns, visit.rt, visit.settings, visit.cluster, images, visit.versions, m);
    hide Lookups, Injected, RunsOriginal, FetchedFor, Admission, EnabledProviders, CopiesFirst, WellMounted;
    hide DistinctNames, Distinct, ContainerNames, DistinctKinds, CopyContainer;
    forall k | 0 <= k < |m.app| ensures RunsOriginal(v.app[k], m.app[k], ps, history) {
      InjectedRunsOriginal(v.app[k], m.app[k], ps, images.ofApp(k), m.volumes, history);
    }
    if v.init != [] {
      forall k | 0 <= k < |v.init| ensures RunsOriginal(v.init[k], m.init[k + 1], ps, history) {
        InjectedRunsOriginal(v.init[k], m.init[k + 1], ps, images.ofInit(k), m.volumes, history);
      }
    }
  }

  /**
   * Over any sequence of admissions that share the registry: in every pod admitted as Mutated, each
   * container runs its own argv, and image words come from a fetch of just that image, then or earlier.
   */
  lemma AdmissionsRunOriginals(visits: seq<Visit>, n: nat, worlds: Worlds)
    requires n < |visits| && Served(visits[n], worlds, HistoryAfter(visits[..n], worlds)).1 == Mutated
    ensures var visit := visits[n];
            AllRunOriginals(visit.pod, Served(visit, worlds, HistoryAfter(visits[..n], worlds)).0,
                            EnabledProviders(visit.pod.annotations, visit.rt),
                            HistoryAfter(visits[..n + 1], worlds))
  {
    assert visits[..n + 1][..n] == visits[..n];
    AdmissionRunsOriginals(visits[n], worlds, HistoryAfter(visits[..n], worlds));
    hide Lookups, Served, EnabledProviders, AllRunOriginals;
  }

  /** With fixed registries such a config is what they hold where a request for the image resolved it to. */
  lemma FetchedIsContent(history: History, image: string, config: ImageConfig,
                         content: CacheRuns.Locator -> ImageConfig)
    requires CacheRuns.RemoteFixed(history, content) && FetchedFor(history, image, config)
    ensures exists j :: 0 <= j < |history| && history[j].req.image == image
                        && config == content(CacheRuns.Target(history[j]))
  {
    hide CacheRuns.Target, CacheRuns.State, ImageRegistry.FetchConfig;
    var j :| 0 <= j < |history| && history[j].req.image == image
             && CacheRuns.FetchAt(history, j) == ImageRegistry.Config(config);
    assert history[j] in history;
    CacheRuns.FetchAnswersContent(history[j], CacheRuns.State(history[..j]).1, content);
  }

  /** If all requests for the image resolve it alike, it is the config at that one place. */
  lemma OriginalIsContent(c: Container, r: Container, ps: seq<Provider>, history: History,
                          content: CacheRuns.Locator -> ImageConfig, place: CacheRuns.Locator)
    requires RunsOriginal(c, r, ps, history) && CacheRuns.RemoteFixed(history, content)
    requires forall e :: e in history && e.req.image == c.image ==> CacheRuns.Target(e) == place
    ensures Peel(r.args, |ps|) == Some((ReversedNames(ps), KubeArgv(c.command, c.args, content(place))))
  {
    hide Peel, ReversedNames, FetchedFor, CacheRuns.Target, CacheRuns.RemoteFixed;
    var config :| (c.command == [] ==> FetchedFor(history, c.image, config))
                  && Peel(r.args, |ps|) == Some((ReversedNames(ps), KubeArgv(c.command, c.args, config)));
    if c.command == [] {
      FetchedIsContent(history, c.image, config, content);
      var j :| 0 <= j < |history| && history[j].req.image == c.image && config == content(CacheRuns.Target(history[j]));
      assert history[j] in history;
    }
  }
}
