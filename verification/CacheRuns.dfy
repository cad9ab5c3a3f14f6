/** The image cache and the ECR token cache over whole sequences of requests. */
module CacheRuns {
  import opened GoText
  import opened GoCache
  import opened Kube
  import opened ImageRegistry
  import opened Resolution

  /** One call of `GetImageConfig` and the outside world it meets. */
  datatype Event = Event(req: Request, env: Env)

  predicate MayCache(e: Event) {
    Cacheable(e.req.image, e.req.policy)
  }

  /** Both caches after the requests, starting from `NewRegistry`. */
  function State(events: seq<Event>): (Images, Tokens) {
    if events == [] then (map[], map[])
    else
      var n := |events| - 1;
      var (images, tokens) := State(events[..n]);
      var (_, images1, tokens1) := Serve(events[n].req, events[n].env, images, tokens);
      (images1, tokens1)
  }

  function AnswerAt(events: seq<Event>, i: nat): Answer
    requires i < |events|
  {
    var (images, tokens) := State(events[..i]);
    Serve(events[i].req, events[i].env, images, tokens).0
  }

  /** What a fetch past the image cache would have answered at that moment. */
  function FetchAt(events: seq<Event>, i: nat): Answer
    requires i < |events|
  {
    FetchConfig(events[i].req, events[i].env, State(events[..i]).1).0
  }

  /** The same requests without an image cache. */
  function DirectTokens(events: seq<Event>): Tokens {
    if events == [] then map[]
    else
      var n := |events| - 1;
      FetchConfig(events[n].req, events[n].env, DirectTokens(events[..n])).1
  }

  function DirectAnswerAt(events: seq<Event>, i: nat): Answer
    requires i < |events|
  {
    FetchConfig(events[i].req, events[i].env, DirectTokens(events[..i])).0
  }

  // ------------------------------------------------------------------- image cache

  /** Event `j` fetched the config that the cache holds for `image`. */
  predicate FetchedAt(events: seq<Event>, j: int, image: string, config: ImageConfig) {
    0 <= j < |events| && MayCache(events[j]) && events[j].req.image == image && FetchAt(events, j) == Config(config)
  }

  lemma FetchedEarlier(events: seq<Event>, n: nat, j: int, image: string, config: ImageConfig)
    requires n <= |events| && FetchedAt(events[..n], j, image, config)
    ensures FetchedAt(events, j, image, config)
  {
    hide FetchConfig, State, MayCache;
    assert events[..n][..j] == events[..j];
  }

  /** In every reachable state: an entry never expires, is cacheable, and was really fetched. */
  lemma {:induction false} ImagesJustified(events: seq<Event>, image: string)
    requires image in State(events).0
    ensures var item := State(events).0[image];
            && item.deadline.None?
            && ParseImage(image).1 != "latest"
            && exists j :: FetchedAt(events, j, image, item.value)
    decreases |events|
  {
    hide FetchConfig, ParseImage;
    var n := |events| - 1;
    var (images, tokens) := State(events[..n]);
    var e := events[n];
    var item := State(events).0[image];
    if image in images && item == images[image] {
      ImagesJustified(events[..n], image);
      var j :| FetchedAt(events[..n], j, image, item.value);
      FetchedEarlier(events, n, j, image, item.value);
    } else {
      assert image == e.req.image && item == Item(FetchConfig(e.req, e.env, tokens).0.config, None);
      assert FetchedAt(events, n, image, item.value);
    }
  }

  /** Without any premise: each answer is one that a fetch for the same image gave, now or earlier. */
  lemma AnswersWereFetched(events: seq<Event>, i: nat)
    requires i < |events| && AnswerAt(events, i).Config?
    ensures AnswerAt(events, i) == FetchAt(events, i)
            || (MayCache(events[i]) && exists j ::
                  j < i && FetchedAt(events, j, events[i].req.image, AnswerAt(events, i).config))
  {
    hide FetchConfig, ParseImage, Cacheable;
    var e := events[i];
    var (images, tokens) := State(events[..i]);
    if MayCache(e) && Lookup(images, e.req.image, e.env.now).Some? {
      ImagesJustified(events[..i], e.req.image);
      var config := images[e.req.image].value;
      var j :| FetchedAt(events[..i], j, e.req.image, config);
      FetchedEarlier(events, i, j, e.req.image, config);
    }
  }

  /** Requests that may not use the cache neither read it nor change it. */
  lemma UncacheableBypasses(events: seq<Event>, i: nat)
    requires i < |events| && !MayCache(events[i])
    ensures AnswerAt(events, i) == FetchAt(events, i)
    ensures State(events[..i + 1]).0 == State(events[..i]).0
  {
    hide FetchConfig, ParseImage;
    assert events[..i + 1][..i] == events[..i];
  }

  /** The request is answered from the image cache. */
  predicate Hit(events: seq<Event>, i: nat)
    requires i < |events|
  {
    MayCache(events[i]) && events[i].req.image in State(events[..i]).0
  }

  /** A hit answers the recorded config and changes neither cache; anything else is answered by a fetch. */
  lemma HitLeavesStateAlone(events: seq<Event>, i: nat)
    requires i < |events|
    ensures Hit(events, i) ==>
              AnswerAt(events, i) == Config(State(events[..i]).0[events[i].req.image].value)
              && State(events[..i + 1]) == State(events[..i])
    ensures !Hit(events, i) ==> AnswerAt(events, i) == FetchAt(events, i)
  {
    hide FetchConfig, ParseImage;
    if Hit(events, i) { ImagesJustified(events[..i], events[i].req.image); }
    assert events[..i + 1][..i] == events[..i];
  }

  /** Who asks plays no part in a hit: neither the namespace nor the pull secrets, nor anything outside the process. */
  lemma HitIgnoresRequester(events: seq<Event>, i: nat, ns: string, pullSecrets: seq<string>, env: Env)
    requires i < |events| && Hit(events, i)
    ensures var other := Event(events[i].req.(ns := ns, pullSecrets := pullSecrets), env);
            AnswerAt(events[i := other], i) == AnswerAt(events, i)
  {
    hide FetchConfig, ParseImage;
    var changed := events[i := Event(events[i].req.(ns := ns, pullSecrets := pullSecrets), env)];
    assert changed[..i] == events[..i];
    HitLeavesStateAlone(events, i);
    HitLeavesStateAlone(changed, i);
  }

  lemma FetchedIsCached(events: seq<Event>, n: nat)
    requires n < |events| && MayCache(events[n]) && FetchAt(events, n).Config?
    ensures events[n].req.image in State(events[..n + 1]).0
  {
    hide FetchConfig, ParseImage;
    assert events[..n + 1][..n] == events[..n];
  }

  lemma ServeKeepsImages(e: Event, images: Images, tokens: Tokens)
    ensures images.Keys <= Serve(e.req, e.env, images, tokens).1.Keys
  {
    hide FetchConfig, Cacheable;
  }

  lemma {:induction false} CachedStays(events: seq<Event>, n: nat, image: string)
    requires n <= |events| && image in State(events[..n]).0
    ensures image in State(events).0
    decreases |events|
  {
    hide Serve;
    if n < |events| {
      var m := |events| - 1;
      ServeKeepsImages(events[m], State(events[..m]).0, State(events[..m]).1);
      assert events[..m][..n] == events[..n];
      CachedStays(events[..m], n, image);
    } else {
      assert events[..n] == events;
    }
  }

  /** An image is in the cache exactly when some earlier request that may use the cache could have fetched it. */
  lemma CachedIff(events: seq<Event>, image: string)
    ensures image in State(events).0 <==> exists j, config :: FetchedAt(events, j, image, config)
  {
    hide FetchConfig, ParseImage, State, Cacheable;
    if image in State(events).0 {
      ImagesJustified(events, image);
    }
    if j, config :| FetchedAt(events, j, image, config) {
      FetchedIsCached(events, j);
      CachedStays(events, j + 1, image);
    }
  }

  // ---- the caching rule, said of policies and references

  /** A request that always pulls neither reads the image cache nor writes it. */
  lemma AlwaysPullsBypass(events: seq<Event>, i: nat)
    requires i < |events| && events[i].req.policy == Always
    ensures AnswerAt(events, i) == FetchAt(events, i)
    ensures State(events[..i + 1]).0 == State(events[..i]).0
  {
    UncacheableBypasses(events, i);
  }

  /** A reference that pins a version: a tag behind a name without colons, or a digest; neither of them "latest". */
  ghost predicate PinsVersion(image: string) {
    exists name, reference :: PinnedAs(image, name, reference)
  }

  predicate PinnedAs(image: string, name: string, reference: string) {
    && reference != "latest" && '@' !in name
    && ((image == name + ":" + reference && ':' !in name && '@' !in reference) || image == name + "@" + reference)
  }

  lemma PinnedIsCacheable(image: string, policy: PullPolicy)
    requires PinsVersion(image) && policy != Always
    ensures Cacheable(image, policy)
  {
    var name, reference :| PinnedAs(image, name, reference);
    hide ParseImage;
    if image == name + "@" + reference {
      DigestRoundTrip(name, reference);
    } else {
      TaggedRoundTrip(name, reference);
    }
  }

  lemma {:induction false} EntryStays(events: seq<Event>, n: nat, image: string)
    requires n <= |events| && image in State(events[..n]).0
    ensures image in State(events).0 && State(events).0[image] == State(events[..n]).0[image]
    decreases |events|
  {
    hide Serve, FetchedAt, ParseImage;
    if n < |events| {
      var m := |events| - 1;
      assert events[..m][..n] == events[..n];
      EntryStays(events[..m], n, image);
      ImagesJustified(events[..m], image);
      ServeKeepsEntries(events[m], State(events[..m]).0, State(events[..m]).1, image);
    } else {
      assert events[..n] == events;
    }
  }

  lemma ServeKeepsEntries(e: Event, images: Images, tokens: Tokens, image: string)
    requires image in images && images[image].deadline.None?
    requires ParseImage(image).1 != "latest"
    ensures var after := Serve(e.req, e.env, images, tokens).1; image in after && after[image] == images[image]
  {
    hide FetchConfig, ParseImage;
  }

  /**
   * For every other policy: once a request fetches a config for a reference that pins a version, all
   * later requests for it that do not always pull are answered that config, and change nothing.
   */
  lemma PinnedIsServedFromCache(events: seq<Event>, i: nat, k: nat)
    requires i < k < |events| && events[k].req.image == events[i].req.image && PinsVersion(events[i].req.image)
    requires events[i].req.policy != Always && events[k].req.policy != Always
    requires AnswerAt(events, i).Config?
    ensures events[i].req.image in State(events[..i + 1]).0
    ensures AnswerAt(events, k) == AnswerAt(events, i) && State(events[..k + 1]) == State(events[..k])
  {
    hide State, AnswerAt, Cacheable, PinsVersion;
    var image := events[i].req.image;
    PinnedIsCacheable(image, events[i].req.policy);
    PinnedIsCacheable(image, events[k].req.policy);
    AnswerIsStored(events, i);
    assert events[..k][..i + 1] == events[..i + 1];
    EntryStays(events[..k], i + 1, image);
    HitLeavesStateAlone(events, k);
  }

  lemma AnswerIsStored(events: seq<Event>, i: nat)
    requires i < |events| && MayCache(events[i]) && AnswerAt(events, i).Config?
    ensures var images := State(events[..i + 1]).0;
            events[i].req.image in images && images[events[i].req.image].value == AnswerAt(events, i).config
  {
    hide FetchConfig, Cacheable;
    HitLeavesStateAlone(events, i);
    assert events[..i + 1][..i] == events[..i];
  }

  // ---- the request behind a cached entry

  /** The request that put the image into the cache. */
  function FillerOf(events: seq<Event>, image: string): (j: nat)
    requires image in State(events).0
    ensures j < |events|
    decreases |events|
  {
    var n := |events| - 1;
    if image in State(events[..n]).0 then FillerOf(events[..n], image) else n
  }

  /** It missed the cache, and its fetch is what every hit on that image answers. */
  lemma {:induction false} FillerFetched(events: seq<Event>, image: string)
    requires image in State(events).0
    ensures var j := FillerOf(events, image);
            && MayCache(events[j]) && events[j].req.image == image && !Hit(events, j)
            && FetchAt(events, j) == Config(State(events).0[image].value)
    decreases |events|
  {
    hide FetchConfig, ParseImage, Cacheable;
    var n := |events| - 1;
    var j := FillerOf(events, image);
    if image in State(events[..n]).0 {
      FillerFetched(events[..n], image);
      ImagesJustified(events[..n], image);
      assert events[..n][..j] == events[..j];
    } else {
      assert events[..n][..n] == events[..n];
    }
  }

  // ------------------------------------------------------------ with and without the cache

  /** Where the config of an image lives: registry address, image name and reference. */
  type Locator = (string, string, string)

  /** What the image of this request resolves to with the credentials of this request; no token changes it. */
  function Target(e: Event): Locator {
    var (found, _) := SearchAll(FixedInfo(e.req.image), e.req.ns, e.req.pullSecrets, e.env);
    var info := Clean(FallBack(found, e.req.image));
    var (name, reference) := ParseImage(info.image);
    (info.registryAddress, name, reference)
  }

  ghost predicate ServesContent(env: Env, content: Locator -> ImageConfig) {
    forall address, user, password, name, reference ::
      var reply := env.blob(address, user, password, name, reference);
      reply.Some? ==> reply.value == content((address, name, reference))
  }

  /** What the registries hold never changes; whom they serve may. */
  ghost predicate RemoteFixed(events: seq<Event>, content: Locator -> ImageConfig) {
    forall e | e in events :: ServesContent(e.env, content)
  }

  lemma FetchReadsTarget(e: Event, tokens: Tokens)
    ensures var (answer, _) := FetchConfig(e.req, e.env, tokens);
            answer.Config? ==>
              exists user, password ::
                e.env.blob(Target(e).0, user, password, Target(e).1, Target(e).2) == Some(answer.config)
  {
    var (found, s) := SearchAll(FixedInfo(e.req.image), e.req.ns, e.req.pullSecrets, e.env);
    var info := Clean(FallBack(found, e.req.image));
    EcrKeepsImage(info, e.env, tokens);
    hide SearchAll, FixedInfo, Clean, FallBack, EcrLogin, ParseImage;
    var c := Collect(e.req.image, e.req.ns, e.req.pullSecrets, e.env, tokens);
    if c.status.Collected? {
      assert c.info.image == info.image && c.info.registryAddress == info.registryAddress;
      var l := Target(e);
      assert e.env.blob(l.0, c.info.username, c.info.password, l.1, l.2)
          == e.env.blob(c.info.registryAddress, c.info.username, c.info.password, l.1, l.2);
    }
  }

  lemma FetchAnswersContent(e: Event, tokens: Tokens, content: Locator -> ImageConfig)
    requires ServesContent(e.env, content)
    ensures var (answer, _) := FetchConfig(e.req, e.env, tokens);
            answer.Config? ==> answer.config == content(Target(e))
  {
    FetchReadsTarget(e, tokens);
    hide FetchConfig, Target;
    var (answer, _) := FetchConfig(e.req, e.env, tokens);
    if answer.Config? {
      var user, password :| e.env.blob(Target(e).0, user, password, Target(e).1, Target(e).2) == Some(answer.config);
    }
  }

  // ---- what a registry is asked with

  /** The answer of the registry at the target, asked with this login. */
  function AskedWith(e: Event, username: string, password: string): Answer {
    var (address, name, reference) := Target(e);
    match e.env.blob(address, username, password, name, reference)
    case None => NoConfig
    case Some(config) => Config(config)
  }

  function SearchOf(e: Event): (Info, Search) {
    SearchAll(FixedInfo(e.req.image), e.req.ns, e.req.pullSecrets, e.env)
  }

  /** After a match the registry is asked with the login of the entry, and the token cache plays no part. */
  lemma FetchAfterMatch(e: Event, tokens: Tokens)
    requires SearchOf(e).1 == Match
    ensures FetchConfig(e.req, e.env, tokens) == (AskedWith(e, SearchOf(e).0.username, SearchOf(e).0.password), tokens)
  {
    FallBackKeepsLogin(SearchOf(e).0, e.req.image);
    hide SearchAll, FixedInfo, Clean, FallBack, ParseImage;
  }

  lemma FallBackKeepsLogin(info: Info, image: string)
    ensures var r := Clean(FallBack(info, image)); r.username == info.username && r.password == info.password
  {
    hide HTTPS, Cut, TrimPrefix;
  }

  /** A failed search asks no registry. */
  lemma FailedSearchFetchesNothing(e: Event, tokens: Tokens)
    requires SearchOf(e).1.Fail?
    ensures FetchConfig(e.req, e.env, tokens) == (NoConfig, tokens)
  {
    hide SearchAll, FixedInfo, ParseImage;
  }

  /**
   * Without a match the registry is still asked, without a login, unless it is an ECR host that AWS
   * gives a token for.
   */
  lemma FetchWithoutLogin(e: Event, tokens: Tokens)
    requires SearchOf(e).1 == NoMatch
    requires match e.env.ecrHost(Target(e).0)
             case None => true
             case Some((id, region)) => Held(e, tokens).None? && !e.env.ecr(id, region).Token?
    ensures FetchConfig(e.req, e.env, tokens) == (AskedWith(e, "", ""), tokens)
  {
    SearchOutcome(FixedInfo(e.req.image), e.req.ns, e.req.pullSecrets, e.env);
    FixedInfoFields(e.req.image);
    FallBackKeepsLogin(SearchOf(e).0, e.req.image);
    hide SearchAll, FixedInfo, Clean, FallBack, ParseImage, Lookup;
  }

  /** The token such a request uses: the cached one, or a new one. */
  function TokenFor(e: Event, tokens: Tokens): Option<string> {
    match e.env.ecrHost(Target(e).0)
    case None => None
    case Some((id, region)) =>
      if Held(e, tokens).Some? then Held(e, tokens)
      else
        match e.env.ecr(id, region)
        case Token(encoded, _) => e.env.decode(encoded)
        case _ => None
  }

  /** The text before the first colon of the token is the username, everything behind it the password. */
  lemma FetchWithToken(e: Event, tokens: Tokens, username: string, password: string)
    requires SearchOf(e).1 == NoMatch && ':' !in username
    requires TokenFor(e, tokens) == Some(username + ":" + password)
    ensures FetchConfig(e.req, e.env, tokens).0 == AskedWith(e, username, password)
  {
    CutAtFirst(username, ':', password);
    var info := Clean(FallBack(SearchOf(e).0, e.req.image));
    assert Target(e).0 == info.registryAddress by { hide SearchAll, FixedInfo, Clean, FallBack, ParseImage; }
    EcrUsesToken(e, info, tokens, username, password);
    EcrKeepsImage(info, e.env, tokens);
    hide SearchAll, FixedInfo, Clean, FallBack, ParseImage, EcrLogin, Cut, TokenFor;
  }

  /** A new token that is not base64 refuses the request, and a token without a colon crashes it. */
  lemma BadTokens(e: Event, tokens: Tokens)
    requires SearchOf(e).1 == NoMatch && e.env.ecrHost(Target(e).0).Some?
    ensures var (id, region) := e.env.ecrHost(Target(e).0).value;
            var reply := e.env.ecr(id, region);
            Held(e, tokens).None? && reply.Token? && e.env.decode(reply.encoded).None? ==>
              FetchConfig(e.req, e.env, tokens) == (NoConfig, tokens)
    ensures TokenFor(e, tokens).Some? && ':' !in TokenFor(e, tokens).value ==>
              FetchConfig(e.req, e.env, tokens).0 == Crash
  {
    var info := Clean(FallBack(SearchOf(e).0, e.req.image));
    assert Target(e).0 == info.registryAddress by { hide SearchAll, FixedInfo, Clean, FallBack, ParseImage; }
    EcrBadTokens(e, info, tokens);
    hide SearchAll, FixedInfo, Clean, FallBack, ParseImage, EcrLogin, TokenFor, Held;
  }

  lemma EcrBadTokens(e: Event, info: Info, tokens: Tokens)
    requires Target(e).0 == info.registryAddress && e.env.ecrHost(Target(e).0).Some?
    ensures var (id, region) := e.env.ecrHost(Target(e).0).value;
            var reply := e.env.ecr(id, region);
            Held(e, tokens).None? && reply.Token? && e.env.decode(reply.encoded).None? ==>
              EcrLogin(info, e.env, tokens).status.Failed? && EcrLogin(info, e.env, tokens).tokens == tokens
    ensures TokenFor(e, tokens).Some? && ':' !in TokenFor(e, tokens).value ==>
              EcrLogin(info, e.env, tokens).status == Panicked
  {
    hide Target, Cut, Lookup, Lifetime;
  }

  lemma EcrUsesToken(e: Event, info: Info, tokens: Tokens, username: string, password: string)
    requires Target(e).0 == info.registryAddress && TokenFor(e, tokens) == Some(username + ":" + password)
    requires Cut(username + ":" + password, ':') == [username, password]
    ensures var c := EcrLogin(info, e.env, tokens);
            c.status == Collected && c.info.username == username && c.info.password == password
  {
    hide Target, Cut, Lookup, Lifetime;
  }

  /** No pull secret settles the request, and its registry is an ECR host. */
  predicate AsksEcr(e: Event) {
    var (_, s) := SearchAll(FixedInfo(e.req.image), e.req.ns, e.req.pullSecrets, e.env);
    s == NoMatch && e.env.ecrHost(Target(e).0).Some?
  }

  /** The ECR token that a cache holds for this request. */
  function Held(e: Event, tokens: Tokens): Option<string> {
    Lookup(tokens, ECR_KEY + Target(e).0, e.env.now)
  }

  /** A token cache with just this token for this request in it. */
  function JustHeld(e: Event, held: Option<string>): Tokens {
    if held.Some? then map[ECR_KEY + Target(e).0 := Item(held.value, None)] else map[]
  }

  /** What the request's own credentials fetch, given the ECR token that is held for it. */
  function OwnFetch(e: Event, held: Option<string>): Answer {
    FetchConfig(e.req, e.env, JustHeld(e, held)).0
  }

  lemma EcrReadsHeld(info: Info, env: Env, t1: Tokens, t2: Tokens)
    requires Lookup(t1, ECR_KEY + info.registryAddress, env.now) == Lookup(t2, ECR_KEY + info.registryAddress, env.now)
    ensures EcrLogin(info, env, t1).status == EcrLogin(info, env, t2).status
    ensures EcrLogin(info, env, t1).info == EcrLogin(info, env, t2).info
  {
  }

  lemma CollectReadsHeld(e: Event, t1: Tokens, t2: Tokens)
    requires Held(e, t1) == Held(e, t2)
    ensures var c1 := Collect(e.req.image, e.req.ns, e.req.pullSecrets, e.env, t1);
            var c2 := Collect(e.req.image, e.req.ns, e.req.pullSecrets, e.env, t2);
            c1.status == c2.status && c1.info == c2.info
  {
    var (found, s) := SearchAll(FixedInfo(e.req.image), e.req.ns, e.req.pullSecrets, e.env);
    EcrReadsHeld(Clean(FallBack(found, e.req.image)), e.env, t1, t2);
    hide SearchAll, FixedInfo, Clean, FallBack, EcrLogin, ParseImage, Lookup;
  }

  /** A token cache matters to a fetch only through the token it holds for that request. */
  lemma FetchReadsHeld(e: Event, tokens: Tokens)
    ensures FetchConfig(e.req, e.env, tokens).0 == OwnFetch(e, Held(e, tokens))
  {
    hide Collect, ParseImage, Held, JustHeld;
    HeldIsHeld(e, Held(e, tokens));
    CollectReadsHeld(e, tokens, JustHeld(e, Held(e, tokens)));
  }

  lemma HeldIsHeld(e: Event, held: Option<string>)
    ensures Held(e, JustHeld(e, held)) == held
  {
    hide Target, ECR_KEY;
  }

  /** Without ECR the request alone decides. */
  lemma OnlyEcrReadsTokens(e: Event, held: Option<string>)
    requires !AsksEcr(e)
    ensures OwnFetch(e, held) == OwnFetch(e, None)
  {
    var (found, s) := SearchAll(FixedInfo(e.req.image), e.req.ns, e.req.pullSecrets, e.env);
    var info := Clean(FallBack(found, e.req.image));
    assert Target(e).0 == info.registryAddress;
    hide SearchAll, FixedInfo, Clean, FallBack, ParseImage, Target, UseToken;
  }

  /** As long as no hit has skipped an ECR login, both forms hold the same tokens. */
  lemma {:induction false} TokensStayAlike(events: seq<Event>)
    requires forall k :: 0 <= k < |events| && Hit(events, k) ==> !AsksEcr(events[k])
    ensures State(events).1 == DirectTokens(events)
    decreases |events|
  {
    hide FetchConfig, AsksEcr, ParseImage, Cacheable;
    if events != [] {
      var n := |events| - 1;
      forall k | 0 <= k < n && Hit(events[..n], k) ensures !AsksEcr(events[..n][k]) {
        assert events[..n][..k] == events[..k];
        assert Hit(events, k);
      }
      TokensStayAlike(events[..n]);
      if Hit(events, n) {
        ImagesJustified(events[..n], events[n].req.image);
        NoEcrKeepsTokens(events[n], DirectTokens(events[..n]));
      }
    }
  }

  lemma NoEcrKeepsTokens(e: Event, tokens: Tokens)
    requires !AsksEcr(e)
    ensures FetchConfig(e.req, e.env, tokens).1 == tokens
  {
    hide SearchAll, FixedInfo, Clean, FallBack, ParseImage;
  }

  /** Both fetch a config, both fetch none, or both crash. */
  predicate SameKind(a: Answer, b: Answer) {
    a.Config? == b.Config? && a.Crash? == b.Crash?
  }

  /**
   * The cached form only answers what the registries hold where some request for the image resolved
   * it to; if all of them resolve it alike, it never answers another config than the direct form.
   */
  lemma CacheRefinesDirect(events: seq<Event>, i: nat, content: Locator -> ImageConfig)
    requires RemoteFixed(events, content) && i < |events| && AnswerAt(events, i).Config?
    ensures exists j :: 0 <= j <= i && events[j].req.image == events[i].req.image
                        && AnswerAt(events, i).config == content(Target(events[j]))
    ensures DirectAnswerAt(events, i).Config?
            && (forall j :: 0 <= j < i && events[j].req.image == events[i].req.image ==>
                Target(events[j]) == Target(events[i]))
            ==> AnswerAt(events, i) == DirectAnswerAt(events, i)
  {
    hide FetchConfig, ParseImage, Serve, Cacheable, Target;
    HitLeavesStateAlone(events, i);
    var j := i;
    if Hit(events, i) {
      j := FillerOf(events[..i], events[i].req.image);
      FillerFetched(events[..i], events[i].req.image);
      assert events[..i][..j] == events[..j];
    }
    assert events[j] in events && events[i] in events;
    FetchAnswersContent(events[j], State(events[..j]).1, content);
    FetchAnswersContent(events[i], DirectTokens(events[..i]), content);
  }

  /**
   * When the cached form and the direct form agree, over all request sequences with fixed registries:
   * a hit agrees exactly when the request's own credentials fetch the image and resolve it to the same
   * content as those of the request that filled the entry. Any other request agrees exactly when the
   * ECR tokens held in the two forms lead to the same kind of answer.
   */
  lemma AgreesWithDirectIff(events: seq<Event>, i: nat, content: Locator -> ImageConfig)
    requires RemoteFixed(events, content) && i < |events|
    ensures var e := events[i];
            AnswerAt(events, i) == DirectAnswerAt(events, i) <==>
            if Hit(events, i) then
              OwnFetch(e, Held(e, DirectTokens(events[..i]))).Config?
              && content(Target(events[FillerOf(events[..i], e.req.image)])) == content(Target(e))
            else SameKind(OwnFetch(e, Held(e, State(events[..i]).1)), OwnFetch(e, Held(e, DirectTokens(events[..i]))))
    ensures var e := events[i];
            !AsksEcr(e) ==>
              (AnswerAt(events, i) == DirectAnswerAt(events, i) <==>
               (Hit(events, i) ==>
                  OwnFetch(e, None).Config?
                  && content(Target(events[FillerOf(events[..i], e.req.image)])) == content(Target(e))))
  {
    hide FetchConfig, ParseImage, Serve, Cacheable, Target, AsksEcr, OwnFetch, Held;
    var e := events[i];
    var t1, t2 := State(events[..i]).1, DirectTokens(events[..i]);
    HitLeavesStateAlone(events, i);
    FetchReadsHeld(e, t1);
    FetchReadsHeld(e, t2);
    assert e in events;
    FetchAnswersContent(e, t1, content);
    FetchAnswersContent(e, t2, content);
    if Hit(events, i) {
      var j := FillerOf(events[..i], e.req.image);
      FillerFetched(events[..i], e.req.image);
      assert events[..i][..j] == events[..j];
      assert events[j] in events;
      FetchAnswersContent(events[j], State(events[..j]).1, content);
    }
    if !AsksEcr(e) {
      OnlyEcrReadsTokens(e, Held(e, t1));
      OnlyEcrReadsTokens(e, Held(e, t2));
    }
  }

  // ---- the same for every content the registries may hold

  /** The same world, with this content behind every reply. */
  function ServedFrom(env: Env, content: Locator -> ImageConfig): Env {
    env.(blob := (address: string, user: string, password: string, name: string, reference: string) =>
      if env.blob(address, user, password, name, reference).None? then None
      else Some(content((address, name, reference))))
  }

  function Refill(events: seq<Event>, content: Locator -> ImageConfig): (r: seq<Event>)
    ensures |r| == |events|
  {
    seq(|events|, k requires 0 <= k < |events| => Event(events[k].req, ServedFrom(events[k].env, content)))
  }

  lemma {:induction false} SearchIgnoresBlobs(info: Info, ns: string, names: seq<string>, e1: Env, e2: Env)
    requires e2 == e1.(blob := e2.blob)
    ensures SearchSecrets(info, ns, names, e1) == SearchSecrets(info, ns, names, e2)
    decreases |names|
  {
    hide ParseDocker;
    if names != [] {
      SearchIgnoresBlobs(CheckSecret(info, ns, names[0], e1).0, ns, names[1..], e1, e2);
    }
  }

  lemma SearchAllIgnoresBlobs(info: Info, ns: string, names: seq<string>, e1: Env, e2: Env)
    requires e2 == e1.(blob := e2.blob)
    ensures SearchAll(info, ns, names, e1) == SearchAll(info, ns, names, e2)
  {
    SearchIgnoresBlobs(info, ns, names, e1, e2);
    hide ParseDocker, SearchSecrets;
  }

  lemma EcrIgnoresBlobs(info: Info, e1: Env, e2: Env, tokens: Tokens)
    requires e2 == e1.(blob := e2.blob)
    ensures EcrLogin(info, e1, tokens) == EcrLogin(info, e2, tokens)
  {
    hide UseToken, Lookup;
  }

  lemma CollectIgnoresBlobs(e: Event, tokens: Tokens, content: Locator -> ImageConfig)
    ensures var e' := Event(e.req, ServedFrom(e.env, content));
            && Target(e') == Target(e)
            && Collect(e.req.image, e.req.ns, e.req.pullSecrets, e'.env, tokens)
               == Collect(e.req.image, e.req.ns, e.req.pullSecrets, e.env, tokens)
  {
    var e' := Event(e.req, ServedFrom(e.env, content));
    assert e'.env == e.env.(blob := e'.env.blob);
    SearchAllIgnoresBlobs(FixedInfo(e.req.image), e.req.ns, e.req.pullSecrets, e.env, e'.env);
    hide SearchAll, FixedInfo, Clean, FallBack, ParseImage, EcrLogin, ServedFrom;
    var found := SearchAll(FixedInfo(e.req.image), e.req.ns, e.req.pullSecrets, e.env).0;
    EcrIgnoresBlobs(Clean(FallBack(found, e.req.image)), e.env, e'.env, tokens);
  }

  /** Only the config in the answer changes, and every target stays. */
  lemma FetchRefilled(e: Event, tokens: Tokens, content: Locator -> ImageConfig)
    ensures var e' := Event(e.req, ServedFrom(e.env, content));
            var (answer, tokens1) := FetchConfig(e.req, e.env, tokens);
            && Target(e') == Target(e)
            && FetchConfig(e'.req, e'.env, tokens).1 == tokens1
            && SameKind(FetchConfig(e'.req, e'.env, tokens).0, answer)
  {
    CollectIgnoresBlobs(e, tokens, content);
    hide Collect, Target, ParseImage;
    var c := Collect(e.req.image, e.req.ns, e.req.pullSecrets, e.env, tokens);
    if c.status.Collected? {
      var (name, reference) := ParseImage(c.info.image);
      var l := (c.info.registryAddress, name, reference);
      assert ServedFrom(e.env, content).blob(l.0, c.info.username, c.info.password, l.1, l.2)
          == if e.env.blob(l.0, c.info.username, c.info.password, l.1, l.2).Some? then Some(content(l)) else None;
    }
  }

  lemma ServeRefilled(e: Event, images: Images, images': Images, tokens: Tokens, content: Locator -> ImageConfig)
    requires images.Keys == images'.Keys
    requires forall k :: k in images ==> images[k].deadline.None? && images'[k].deadline.None?
    ensures var (_, i1, t1) := Serve(e.req, e.env, images, tokens);
            var (_, i2, t2) := Serve(e.req, ServedFrom(e.env, content), images', tokens);
            && i1.Keys == i2.Keys && t1 == t2
            && forall k :: k in i1 ==> i1[k].deadline.None? && i2[k].deadline.None?
  {
    FetchRefilled(e, tokens, content);
    hide FetchConfig, Cacheable, ServedFrom, Target;
  }

  lemma {:induction false} StateRefilled(events: seq<Event>, content: Locator -> ImageConfig)
    ensures var (images, tokens) := State(events);
            var (images', tokens') := State(Refill(events, content));
            && images'.Keys == images.Keys && tokens' == tokens
            && forall k :: k in images ==> images[k].deadline.None? && images'[k].deadline.None?
    ensures DirectTokens(Refill(events, content)) == DirectTokens(events)
    decreases |events|
  {
    hide Serve, FetchConfig, ServedFrom, Target;
    if events != [] {
      var n := |events| - 1;
      StateRefilled(events[..n], content);
      assert Refill(events, content)[..n] == Refill(events[..n], content);
      FetchRefilled(events[n], DirectTokens(events[..n]), content);
      ServeRefilled(events[n], State(events[..n]).0, State(Refill(events[..n], content)).0, State(events[..n]).1,
          content);
    }
  }

  lemma {:induction false} FillerRefilled(events: seq<Event>, content: Locator -> ImageConfig, image: string)
    requires image in State(events).0
    ensures image in State(Refill(events, content)).0
    ensures FillerOf(Refill(events, content), image) == FillerOf(events, image)
    decreases |events|
  {
    hide Serve, ServedFrom;
    StateRefilled(events, content);
    if events == [] {
      assert false;
    } else {
      var n := |events| - 1;
      StateRefilled(events[..n], content);
      assert Refill(events, content)[..n] == Refill(events[..n], content);
      hide State;
      if image in State(events[..n]).0 { FillerRefilled(events[..n], content, image); }
    }
  }

  lemma RefillIsFixed(events: seq<Event>, content: Locator -> ImageConfig)
    ensures RemoteFixed(Refill(events, content), content)
  {
    forall e | e in Refill(events, content) ensures ServesContent(e.env, content) {
    }
  }

  /** A hit, in the refilled world: who is served, who filled the entry and what everyone resolves to are as before. */
  lemma HitRefilled(events: seq<Event>, i: nat, content: Locator -> ImageConfig)
    requires i < |events| && Hit(events, i)
    ensures var events' := Refill(events, content);
            var j := FillerOf(events[..i], events[i].req.image);
            AnswerAt(events', i) == DirectAnswerAt(events', i) <==>
            DirectAnswerAt(events, i).Config? && content(Target(events[j])) == content(Target(events[i]))
  {
    hide FetchConfig, Serve, ServedFrom, Target, RemoteFixed, OwnFetch, Held, Cacheable;
    var events' := Refill(events, content);
    var e, e' := events[i], events'[i];
    assert events'[..i] == Refill(events[..i], content);
    StateRefilled(events[..i], content);
    FillerRefilled(events[..i], content, e.req.image);
    var j := FillerOf(events[..i], e.req.image);
    RefillIsFixed(events, content);
    AgreesWithDirectIff(events', i, content);
    FetchReadsHeld(e', DirectTokens(events[..i]));
    FetchRefilled(e, DirectTokens(events[..i]), content);
    FetchRefilled(events[j], map[], content);
  }

  /**
   * A hit agrees with the direct form whatever the registries hold, exactly when the request's own
   * lookup succeeds and leads to the very place the filling request's lookup led to.
   */
  lemma AgreesForEveryContentIff(events: seq<Event>, i: nat)
    requires i < |events| && Hit(events, i)
    ensures (forall content :: AnswerAt(Refill(events, content), i) == DirectAnswerAt(Refill(events, content), i))
            <==> DirectAnswerAt(events, i).Config?
                 && Target(events[FillerOf(events[..i], events[i].req.image)]) == Target(events[i])
  {
    hide AnswerAt, DirectAnswerAt, Refill, Target, FillerOf, State;
    var filled := Target(events[FillerOf(events[..i], events[i].req.image)]);
    var own := Target(events[i]);
    forall content: Locator -> ImageConfig
      ensures AnswerAt(Refill(events, content), i) == DirectAnswerAt(Refill(events, content), i)
              <==> DirectAnswerAt(events, i).Config? && content(filled) == content(own)
    {
      HitRefilled(events, i, content);
    }
    var telling := (l: Locator) => if l == own then ImageConfig([], []) else ImageConfig(["other"], []);
    assert filled != own ==> telling(filled) != telling(own);
    assert AnswerAt(Refill(events, telling), i) == DirectAnswerAt(Refill(events, telling), i)
           <==> DirectAnswerAt(events, i).Config? && telling(filled) == telling(own);
  }

  // ---- two runs in which they differ

  /** One namespace has a pull secret for the host; the registry behind it serves named users only. */
  function WorldOf(host: string, serverAddress: string,
                   blob: (string, string, string, string, string) -> Option<ImageConfig>): Env
  {
    var auths := map[host := Auth(serverAddress, "user", "password", "")];
    var reply: SecretReply := Docker(auths, [host]);
    Env((ns: string, name: string) => if ns == "owner" then reply else Unreadable, DefaultSecret("", ""),
        (s: string) => None, (s: string) => None, (id: string, region: string) => NoSession, blob, 0, 0, 0)
  }

  function PrivateWorld(host: string, config: ImageConfig): Env {
    WorldOf(host, "", (address: string, user: string, password: string, name: string, reference: string) =>
      if user == "" then None else Some(config))
  }

  const MIRROR := "https://mirror"

  /** The owner's secret names a mirror, and the mirror holds something else. */
  function MirroredWorld(host: string, original: ImageConfig, mirrored: ImageConfig): Env {
    WorldOf(host, MIRROR, (address: string, user: string, password: string, name: string, reference: string) =>
      Some(if address == MIRROR then mirrored else original))
  }

  function OwnerFirst(image: string, env: Env): seq<Event> {
    [Event(Request(image, IfNotPresent, "owner", ["pull-secret"]), env),
     Event(Request(image, IfNotPresent, "stranger", []), env)]
  }

  lemma HostMatches(host: string, rest: string)
    requires '/' !in host && '.' in host && host != "docker.io"
    ensures Matches(FixedInfo(host + "/" + rest).image, host)
  {
    var image := host + "/" + rest;
    assert HTTPS[6] == '/';
    RegistryKeySpellings(host);
    FixedInfoFields(image);
    HostIsNotScheme(host, rest);
    FixHubKeepsOthers(image);
    FirstSegment(host, rest);
    hide NormalizeRegistry, FixHub, HTTPS, Cut, IndexByte, FixedInfo;
  }

  lemma OwnerFound(info: Info, host: string, serverAddress: string,
                   blob: (string, string, string, string, string) -> Option<ImageConfig>)
    requires Matches(info.image, host)
    ensures var (found, s) := SearchAll(info, "owner", ["pull-secret"], WorldOf(host, serverAddress, blob));
            s == Match && found.username == "user" && (serverAddress != "" ==> found.registryAddress == serverAddress)
  {
    hide NormalizeRegistry, Matches, HTTPS;
    assert ParseDocker(info, map[host := Auth(serverAddress, "user", "password", "")], [host],
        (s: string) => None).1 == Match;
  }

  /** The owner's request is answered by whatever its entry of the pull secret points to. */
  lemma OwnerFetches(host: string, rest: string, serverAddress: string,
                     blob: (string, string, string, string, string) -> Option<ImageConfig>, config: ImageConfig)
    requires '/' !in host && '.' in host && host != "docker.io"
    requires forall address, user, password, name, reference ::
      user != "" && (serverAddress != "" ==> address == serverAddress) ==>
        blob(address, user, password, name, reference) == Some(config)
    ensures var req := Request(host + "/" + rest, IfNotPresent, "owner", ["pull-secret"]);
            FetchConfig(req, WorldOf(host, serverAddress, blob), map[]).0 == Config(config)
  {
    var image := host + "/" + rest;
    HostMatches(host, rest);
    OwnerFound(FixedInfo(image), host, serverAddress, blob);
    SearchAllSetsAddress(FixedInfo(image), "owner", ["pull-secret"], WorldOf(host, serverAddress, blob));
    hide SearchAll, Matches, FixedInfo, ParseImage, HTTPS, Cut, TrimPrefix;
  }

  /** The stranger asks the image's own registry, without a login. */
  lemma StrangerFetches(host: string, rest: string, serverAddress: string,
                        blob: (string, string, string, string, string) -> Option<ImageConfig>, tokens: Tokens)
    requires '/' !in host && '.' in host && host != "docker.io"
    ensures var req := Request(host + "/" + rest, IfNotPresent, "stranger", []);
            var (name, reference) := ParseImage(rest);
            var reply := blob(HTTPS + host, "", "", name, reference);
            FetchConfig(req, WorldOf(host, serverAddress, blob), tokens).0
            == if reply.Some? then Config(reply.value) else NoConfig
  {
    OtherRegistryResolves(host, rest);
    hide FixedInfo, FallBack, Clean, ParseImage, HTTPS, HUB;
  }

  /** Once the owner has fetched it, the stranger is answered what the owner was answered. */
  lemma OwnerAnswersStranger(image: string, env: Env, config: ImageConfig)
    requires Cacheable(image, IfNotPresent)
    requires FetchConfig(Request(image, IfNotPresent, "owner", ["pull-secret"]), env, map[]).0 == Config(config)
    ensures AnswerAt(OwnerFirst(image, env), 1) == Config(config)
  {
    hide FetchConfig, Cacheable, Serve;
    var events := OwnerFirst(image, env);
    assert events[..0] == [] && State([]) == (map[], map[]);
    FetchedIsCached(events, 0);
    HitLeavesStateAlone(events, 1);
    FillerFetched(events[..1], image);
    assert events[..1][..0] == [];
  }

  /**
   * On every cacheable image of a private registry: once the owner's namespace has fetched it, another
   * one without credentials is answered where the direct form refuses.
   */
  lemma CacheOutlivesCredentials(host: string, rest: string, config: ImageConfig)
    requires '/' !in host && '.' in host && host != "docker.io" && Cacheable(host + "/" + rest, IfNotPresent)
    ensures var events := OwnerFirst(host + "/" + rest, PrivateWorld(host, config));
            && RemoteFixed(events, l => config)
            && AnswerAt(events, 1) == Config(config) && DirectAnswerAt(events, 1) == NoConfig
  {
    hide FetchConfig, Cacheable, WorldOf, AnswerAt, HTTPS;
    var image, env := host + "/" + rest, PrivateWorld(host, config);
    var events := OwnerFirst(image, env);
    var blob := (address: string, user: string, password: string, name: string, reference: string) =>
      if user == "" then None else Some(config);
    PrivateServesConfig(host, config);
    assert env == WorldOf(host, "", blob);
    OwnerFetches(host, rest, "", blob, config);
    StrangerFetches(host, rest, "", blob, DirectTokens(events[..1]));
    OwnerAnswersStranger(image, env, config);
  }

  lemma PrivateServesConfig(host: string, config: ImageConfig)
    ensures ServesContent(PrivateWorld(host, config), l => config)
  {
  }

  lemma NoDotInMirror(host: string)
    requires '.' in host
    ensures HTTPS + host != MIRROR && MIRROR != ""
  {
    var k :| 0 <= k < |host| && host[k] == '.';
    assert (HTTPS + host)[|HTTPS| + k] == '.';
    assert '.' !in MIRROR;
  }

  lemma MirrorServesContent(host: string, original: ImageConfig, mirrored: ImageConfig)
    ensures ServesContent(MirroredWorld(host, original, mirrored),
                          (l: Locator) => if l.0 == MIRROR then mirrored else original)
  {
    hide MIRROR;
  }

  /**
   * On every cacheable image of another registry, in one unchanging world: once a namespace whose
   * pull secret names a mirror has fetched it, another one is answered what the mirror holds, although
   * its own lookup succeeds and finds something else.
   */
  lemma CacheCrossesMirrors(host: string, rest: string, original: ImageConfig, mirrored: ImageConfig)
    requires '/' !in host && '.' in host && host != "docker.io" && Cacheable(host + "/" + rest, IfNotPresent)
    ensures var events := OwnerFirst(host + "/" + rest, MirroredWorld(host, original, mirrored));
            && RemoteFixed(events, (l: Locator) => if l.0 == MIRROR then mirrored else original)
            && AnswerAt(events, 1) == Config(mirrored) && DirectAnswerAt(events, 1) == Config(original)
  {
    NoDotInMirror(host);
    hide FetchConfig, Cacheable, WorldOf, AnswerAt, HTTPS, MIRROR;
    var image, env := host + "/" + rest, MirroredWorld(host, original, mirrored);
    var events := OwnerFirst(image, env);
    var blob := (address: string, user: string, password: string, name: string, reference: string) =>
      Some(if address == MIRROR then mirrored else original);
    MirrorServesContent(host, original, mirrored);
    assert env == WorldOf(host, MIRROR, blob);
    OwnerFetches(host, rest, MIRROR, blob, mirrored);
    StrangerFetches(host, rest, MIRROR, blob, DirectTokens(events[..1]));
    OwnerAnswersStranger(image, env, mirrored);
  }

  // ---- which images can ever be cached

  function StillWorld(config: ImageConfig): Env {
    Env((ns: string, name: string) => Unreadable, DefaultSecret("", ""), (s: string) => None, (s: string) => None,
        (id: string, region: string) => NoSession,
        (address: string, user: string, password: string, name: string, reference: string) => Some(config), 0, 0, 0)
  }

  lemma StillWorldFetches(image: string, config: ImageConfig)
    ensures FetchConfig(Request(image, IfNotPresent, "", []), StillWorld(config), map[]).0 == Config(config)
  {
    var env := StillWorld(config);
    assert SearchAll(FixedInfo(image), "", [], env) == (FixedInfo(image), NoMatch);
    hide FixedInfo, FallBack, Clean, ParseImage;
  }

  lemma CachedInStillWorld(image: string, config: ImageConfig)
    requires Cacheable(image, IfNotPresent)
    ensures image in State([Event(Request(image, IfNotPresent, "", []), StillWorld(config))]).0
  {
    var e := Event(Request(image, IfNotPresent, "", []), StillWorld(config));
    StillWorldFetches(image, config);
    hide FetchConfig, Cacheable, StillWorld;
    assert [e][..0] == [];
    assert State([]) == (map[], map[]);
  }

  /**
   * An image without digest that means "latest" enters the cache in some run exactly when a colon,
   * such as that of a registry port, stands before its last path component.
   */
  lemma LatestReachesCacheIff(image: string)
    requires '@' !in image && MeansLatest(image)
    ensures (exists events :: image in State(events).0) <==> ':' in image[..TailStart(image)]
  {
    hide ParseImage, MeansLatest, TailStart, State;
    LatestRefusedIff(image);
    if ':' in image[..TailStart(image)] {
      CachedInStillWorld(image, ImageConfig([], []));
    } else {
      forall events ensures image !in State(events).0 {
        if image in State(events).0 { ImagesJustified(events, image); }
      }
    }
  }

  const PORTED_HOST := "r.io:5"

  /** A registry with a port that serves one image, under the reference "latest" only. */
  function PortedBlob(config: ImageConfig): (string, string, string, string, string) -> Option<ImageConfig> {
    (address: string, user: string, password: string, name: string, reference: string) =>
      if address == HTTPS + PORTED_HOST && name == "app" && reference == "latest" then Some(config) else None
  }

  lemma PortedNames()
    ensures '/' !in PORTED_HOST && '.' in PORTED_HOST && PORTED_HOST != "docker.io"
    ensures PORTED_HOST + "/" + "app" == "r.io:5/app"
    ensures ParseImage("app") == ("app", "latest")
  {
    assert PORTED_HOST[1] == '.';
  }

  /** The untagged image is fetched from there as "latest", and it stays in the cache. */
  lemma PortedLatestIsCached(config: ImageConfig)
    ensures MeansLatest("r.io:5/app")
    ensures var req := Request("r.io:5/app", IfNotPresent, "stranger", []);
            "r.io:5/app" in State([Event(req, WorldOf(PORTED_HOST, "", PortedBlob(config)))]).0
  {
    PortDefeatsLatestRule();
    PortedNames();
    hide FetchConfig, WorldOf, Cacheable, ParseImage, HTTPS, PORTED_HOST, MeansLatest, Serve;
    StrangerFetches(PORTED_HOST, "app", "", PortedBlob(config), map[]);
    var req := Request("r.io:5/app", IfNotPresent, "stranger", []);
    var events := [Event(req, WorldOf(PORTED_HOST, "", PortedBlob(config)))];
    assert events[..0] == [] && events[..1] == events && State([]) == (map[], map[]);
    FetchedIsCached(events, 0);
  }

  // ------------------------------------------------------------------- token cache

  /** A token fetched from AWS and stored. */
  datatype Issue = Issue(key: string, token: string, expiresAt: int, computedAt: int, storedAt: int)

  function Stored(issue: Issue): Item<string> {
    Item(issue.token, Deadline(Lifetime(issue.expiresAt, issue.computedAt), TOKEN_DEFAULT, issue.storedAt))
  }

  function IssueBy(info: Info, env: Env, tokens: Tokens): Option<Issue> {
    match env.ecrHost(info.registryAddress)
    case None => None
    case Some((id, region)) =>
      var key := ECR_KEY + info.registryAddress;
      if Lookup(tokens, key, env.now).Some? then None
      else
        match env.ecr(id, region)
        case Token(encoded, expiresAt) =>
          (match env.decode(encoded)
           case None => None
           case Some(data) => Some(Issue(key, data, expiresAt, env.computedAt, env.storedAt)))
        case _ => None
  }

  /** The cached token that is used instead of a new one. */
  function ReusedBy(info: Info, env: Env, tokens: Tokens): Option<(string, string)> {
    match env.ecrHost(info.registryAddress)
    case None => None
    case Some(_) =>
      var key := ECR_KEY + info.registryAddress;
      match Lookup(tokens, key, env.now)
      case None => None
      case Some(data) => Some((key, data))
  }

  /** What the ECR step of one event starts from, if that event gets there. */
  function EcrInput(e: Event, images: Images): Option<Info> {
    if MayCache(e) && Lookup(images, e.req.image, e.env.now).Some? then None
    else
      var (info, s) := SearchAll(FixedInfo(e.req.image), e.req.ns, e.req.pullSecrets, e.env);
      if s == NoMatch then Some(Clean(FallBack(info, e.req.image))) else None
  }

  function IssuedAt(events: seq<Event>, i: nat): Option<Issue>
    requires i < |events|
  {
    var (images, tokens) := State(events[..i]);
    match EcrInput(events[i], images)
    case None => None
    case Some(info) => IssueBy(info, events[i].env, tokens)
  }

  function ReusedAt(events: seq<Event>, i: nat): Option<(string, string)>
    requires i < |events|
  {
    var (images, tokens) := State(events[..i]);
    match EcrInput(events[i], images)
    case None => None
    case Some(info) => ReusedBy(info, events[i].env, tokens)
  }

  lemma EcrStoresIssue(info: Info, env: Env, tokens: Tokens)
    ensures EcrLogin(info, env, tokens).tokens
         == match IssueBy(info, env, tokens) case None => tokens case Some(issue) => tokens[issue.key := Stored(issue)]
  {
  }

  /** A reused token is what the request then logs in with. */
  lemma ReusedTokenIsUsed(info: Info, env: Env, tokens: Tokens)
    requires ReusedBy(info, env, tokens).Some? && ':' in ReusedBy(info, env, tokens).value.1
    ensures var c := EcrLogin(info, env, tokens);
            c.status == Collected && [c.info.username, c.info.password] == Cut(ReusedBy(info, env, tokens).value.1, ':')
            && c.tokens == tokens
  {
  }

  lemma CollectStores(req: Request, env: Env, tokens: Tokens)
    ensures var (info, s) := SearchAll(FixedInfo(req.image), req.ns, req.pullSecrets, env);
            var issue := if s == NoMatch then IssueBy(Clean(FallBack(info, req.image)), env, tokens) else None;
            FetchConfig(req, env, tokens).1
            == match issue case None => tokens case Some(i) => tokens[i.key := Stored(i)]
  {
    var (info, s) := SearchAll(FixedInfo(req.image), req.ns, req.pullSecrets, env);
    EcrStoresIssue(Clean(FallBack(info, req.image)), env, tokens);
    hide SearchAll, FixedInfo, Clean, FallBack, EcrLogin, IssueBy, Stored, ParseImage;
  }

  lemma ServeStores(e: Event, images: Images, tokens: Tokens)
    ensures Serve(e.req, e.env, images, tokens).2
         == match EcrInput(e, images)
            case None => tokens
            case Some(info) =>
              match IssueBy(info, e.env, tokens)
              case None => tokens
              case Some(issue) => tokens[issue.key := Stored(issue)]
  {
    CollectStores(e.req, e.env, tokens);
    hide SearchAll, FixedInfo, Clean, FallBack, FetchConfig, IssueBy, Stored, Lookup, Cacheable;
  }

  lemma TokensStep(events: seq<Event>)
    requires events != []
    ensures var n := |events| - 1;
            State(events).1
            == match IssuedAt(events, n)
               case None => State(events[..n]).1
               case Some(issue) => State(events[..n]).1[issue.key := Stored(issue)]
  {
    var n := |events| - 1;
    ServeStores(events[n], State(events[..n]).0, State(events[..n]).1);
    hide Serve, EcrInput, IssueBy, Stored;
  }

  predicate WasIssued(events: seq<Event>, j: int, key: string, item: Item<string>) {
    0 <= j < |events| && IssuedAt(events, j).Some? && IssuedAt(events, j).value.key == key
        && Stored(IssuedAt(events, j).value) == item
  }

  lemma IssuedEarlier(events: seq<Event>, n: nat, j: int, key: string, item: Item<string>)
    requires n <= |events| && WasIssued(events[..n], j, key, item)
    ensures WasIssued(events, j, key, item)
  {
    hide State, EcrInput, IssueBy, Stored;
    assert events[..n][..j] == events[..j];
  }

  /** In every reachable state each cached token carries exactly the deadline computed when it was issued. */
  lemma {:induction false} TokensJustified(events: seq<Event>, key: string)
    requires key in State(events).1
    ensures exists j :: WasIssued(events, j, key, State(events).1[key])
    decreases |events|
  {
    var n := |events| - 1;
    TokensStep(events) by { assert events != []; }
    hide State, EcrInput, IssueBy, Stored;
    var item := State(events).1[key];
    if IssuedAt(events, n).Some? && IssuedAt(events, n).value.key == key {
      assert WasIssued(events, n, key, item);
    } else {
      TokensJustified(events[..n], key);
      var j :| WasIssued(events[..n], j, key, item);
      IssuedEarlier(events, n, j, key, item);
    }
  }

  /** Tokens come with more than five minutes left, and are stored within `delta` of computing their lifetime. */
  ghost predicate FreshIssues(events: seq<Event>, delta: int) {
    forall j :: 0 <= j < |events| && IssuedAt(events, j).Some? ==>
      var issue := IssuedAt(events, j).value;
      issue.expiresAt - issue.computedAt > 5 * MINUTE && issue.storedAt - issue.computedAt <= delta
  }

  /**
   * Every token served from the cache in any run is served no later than five minutes before it expires,
   * give or take delta.
   */
  lemma TokenLifetimeBound(events: seq<Event>, i: nat, delta: int)
    requires i < |events| && FreshIssues(events, delta) && ReusedAt(events, i).Some?
    ensures exists j :: 0 <= j < i && IssuedAt(events, j).Some? &&
              var issue := IssuedAt(events, j).value;
              ReusedAt(events, i) == Some((issue.key, issue.token))
              && events[i].env.now <= issue.expiresAt - 5 * MINUTE + delta
  {
    var (key, token) := ReusedAt(events, i).value;
    var tokens := State(events[..i]).1;
    assert Lookup(tokens, key, events[i].env.now) == Some(token) by { hide State, EcrInput; }
    TokensJustified(events[..i], key);
    hide State, EcrInput, IssueBy;
    var j :| WasIssued(events[..i], j, key, tokens[key]);
    IssuedEarlier(events, i, j, key, tokens[key]);
  }

  /**
   * For one stored token the bound holds at all later times exactly when it was issued with more
   * than five minutes left: with five minutes the default lifetime applies, with less it never expires.
   */
  lemma TokenBoundIff(issue: Issue, delta: int)
    requires 0 <= issue.storedAt - issue.computedAt <= delta < TOKEN_DEFAULT
    ensures (forall t :: Lookup(map[issue.key := Stored(issue)], issue.key, t).Some? ==>
        t <= issue.expiresAt - 5 * MINUTE + delta)
            <==> issue.expiresAt - issue.computedAt > 5 * MINUTE
  {
    var items := map[issue.key := Stored(issue)];
    var late := if issue.expiresAt - issue.computedAt == 5 * MINUTE then issue.storedAt + TOKEN_DEFAULT
                else issue.expiresAt + delta;
    if issue.expiresAt - issue.computedAt <= 5 * MINUTE {
      assert Lookup(items, issue.key, late).Some?;
    }
  }

  /** Such a token, issued with five minutes left to the nanosecond, is served for twelve hours. */
  lemma DefaultTokenLife(issue: Issue, t: int)
    requires issue.expiresAt - issue.computedAt == 5 * MINUTE
    ensures Lookup(map[issue.key := Stored(issue)], issue.key, t)
         == if t <= issue.storedAt + 12 * HOUR then Some(issue.token) else None
  {
  }

  // ------------------------------------------------------------------- spellings again

  /** An image and its normalised form fetch the same config. */
  lemma SpellingsFetchAlike(req: Request, env: Env, tokens: Tokens)
    ensures FetchConfig(req, env, tokens) == FetchConfig(req.(image := FixHub(req.image)), env, tokens)
  {
    SpellingsResolveAlike(req.image, req.ns, req.pullSecrets, env, tokens);
    hide Collect, FixHub, ParseImage;
  }

  /**
   * Nor does the order in which the registries of a consistent secret are visited show in the config or
   * in the tokens.
   */
  lemma OrderFetchesAlike(req: Request, e1: Env, e2: Env, tokens: Tokens)
    requires SameButOrder(e1, e2) && DecidedConsistently(FixedInfo(req.image), req.ns, req.pullSecrets, e1)
    ensures FetchConfig(req, e1, tokens) == FetchConfig(req, e2, tokens)
  {
    ConsistentSearchesAlike(FixedInfo(req.image), req.ns, req.pullSecrets, e1, e2);
    CollectShowsSearch(req.image, req.ns, req.pullSecrets, e1, e2, tokens);
    hide Collect, FixedInfo, ParseImage, SearchAll, DecidedConsistently;
  }
}
