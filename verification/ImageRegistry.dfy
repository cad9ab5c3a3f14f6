/** Image references, registry credentials, and the cached image-config lookup. */
module ImageRegistry {
  import opened GoText
  import opened GoCache
  import opened Kube

  const HTTPS := "https://"
  const HUB := "index.docker.io"
  const ECR_KEY := "AWS_ECR_CREDENTIALS"

  // -------------------------------------------------------------- image references

  /** `parseContainerImage`: image name and reference. */
  function ParseImage(image: string): (string, string) {
    var parts := if '@' in image then Cut(image, '@') else Cut(image, ':');
    (parts[0], if |parts| > 1 then parts[1] else "latest")
  }

  function Cacheable(image: string, policy: PullPolicy): bool {
    policy != Always && ParseImage(image).1 != "latest"
  }

  lemma TaggedRoundTrip(name: string, tag: string)
    requires ':' !in name && '@' !in name && '@' !in tag
    ensures ParseImage(name + ":" + tag) == (name, tag)
  {
    CutAtFirst(name, ':', tag);
    assert '@' !in ":";
  }

  lemma DigestRoundTrip(name: string, digest: string)
    requires '@' !in name
    ensures ParseImage(name + "@" + digest) == (name, digest)
  {
    CutAtFirst(name, '@', digest);
    assert (name + "@" + digest)[|name|] == '@';
  }

  /** Reassembling what was parsed gives the reference back, unless the tag was left out. */
  lemma ReferenceReassembles(image: string)
    ensures var (name, reference) := ParseImage(image);
            if '@' in image then image == name + "@" + reference
            else if ':' in image then image == name + ":" + reference
            else (name, reference) == (image, "latest")
  {
    var c := if '@' in image then '@' else ':';
    if c in image {
      var m := IndexByte(image, c);
      assert image == image[..m] + [c] + image[m + 1..];
    }
  }

  /** Where the last path component starts. */
  function TailStart(s: string): (l: nat)
    ensures l <= |s|
    ensures forall k :: l <= k < |s| ==> s[k] != '/'
    ensures l > 0 ==> s[l - 1] == '/'
  {
    if s == "" then 0
    else if s[|s| - 1] == '/' then |s|
    else TailStart(s[..|s| - 1])
  }

  /** Docker's reading of a reference without a digest: only the last path component can carry a tag. */
  predicate MeansLatest(image: string) {
    var parts := Cut(image[TailStart(image)..], ':');
    |parts| == 1 || parts[1] == "latest"
  }

  lemma SplitIndex(head: string, tail: string, c: char)
    ensures IndexByte(head + tail, c)
         == if c in head then IndexByte(head, c)
            else if c in tail then |head| + IndexByte(tail, c) else -1
  {
    var s := head + tail;
    assert forall i :: 0 <= i < |head| ==> s[i] == head[i];
    assert forall i :: 0 <= i < |tail| ==> s[|head| + i] == tail[i];
    if c !in head && c in tail {
      var k := |head| + IndexByte(tail, c);
      assert s[k] == c;
    }
  }

  lemma ReferenceAfterColon(image: string)
    requires '@' !in image
    ensures ParseImage(image).1
         == var m := IndexByte(image, ':'); if m < 0 then "latest" else image[m + 1..]
  {
  }

  lemma PortInReference(head: string, tail: string)
    requires '@' !in head + tail && ':' in head && head[|head| - 1] == '/'
    ensures ParseImage(head + tail).1 != "latest"
  {
    ReferenceAfterColon(head + tail);
    SplitIndex(head, tail, ':');
    hide ParseImage;
    var m := IndexByte(head, ':');
    hide IndexByte;
    var reference := (head + tail)[m + 1..];
    assert reference[|head| - 2 - m] == '/';
    assert forall i :: 0 <= i < |"latest"| ==> "latest"[i] != '/';
  }

  lemma TagOfTail(head: string, tail: string)
    requires '@' !in head + tail && ':' !in head
    ensures ParseImage(head + tail).1 == if ':' in tail then Cut(tail, ':')[1] else "latest"
  {
    ReferenceAfterColon(head + tail);
    SplitIndex(head, tail, ':');
    hide ParseImage;
    if ':' in tail {
      var k := IndexByte(tail, ':');
      assert Cut(tail, ':')[1] == tail[k + 1..];
      hide IndexByte, Cut;
      assert (head + tail)[|head| + k + 1..] == tail[k + 1..];
    }
  }

  /**
   * The rule "latest is never cached" holds for a reference exactly when no colon, such as that of a
   * registry port, stands before the last path component.
   */
  lemma LatestRefusedIff(image: string)
    requires '@' !in image
    ensures !Cacheable(image, IfNotPresent) <==> MeansLatest(image) && ':' !in image[..TailStart(image)]
  {
    hide ParseImage, IndexByte;
    var l := TailStart(image);
    var head, tail := image[..l], image[l..];
    assert image == head + tail;
    hide TailStart;
    if ':' in head {
      PortInReference(head, tail);
    } else {
      TagOfTail(head, tail);
    }
  }

  /** A registry port is taken for a tag, so an untagged image of such a registry is cacheable after all. */
  lemma PortDefeatsLatestRule()
    ensures MeansLatest("r.io:5/app") && Cacheable("r.io:5/app", IfNotPresent)
  {
    var image := "r.io:5/app";
    assert image[6] == '/' && image[7] == 'a' && image[8] == 'p' && image[9] == 'p' && image[4] == ':';
    assert TailStart(image) == 7;
    assert image[..7][4] == ':';
    LatestRefusedIff(image);
  }

  // -------------------------------------------------------------------- credentials

  datatype Auth = Auth(serverAddress: string, username: string, password: string, auth: string)

  /** The fields of `ContainerInfo` that the search fills in. */
  datatype Info = Info(registryAddress: string, registryName: string, username: string, password: string, image: string)

  datatype Reason = SecretUnreadable | SecretMalformed | AuthUndecodable | AuthNotAPair | NoUsername | NoPassword
                  | NoCredentials | TokenUndecodable

  datatype Reply = Unreadable | Malformed | Docker(auths: map<string, Auth>, order: seq<string>)

  /** Reading one pull secret; `order` is how the runtime ranges over its registries. */
  type SecretReply = r: Reply | r.Docker? ==> IsEnumeration(r.order, r.auths.Keys) witness Unreadable

  datatype EcrReply = NoSession | NoToken | Token(encoded: string, expiresAt: int)

  datatype DefaultSecret = DefaultSecret(ns: string, name: string)

  /** Everything outside the process that one request depends on, including the clock readings it takes. */
  datatype Env = Env(
    secret: (string, string) -> SecretReply,
    defaultSecret: DefaultSecret,
    decode: string -> Option<string>,
    ecrHost: string -> Option<(string, string)>,
    ecr: (string, string) -> EcrReply,
    blob: (string, string, string, string, string) -> Option<ImageConfig>,
    now: int, computedAt: int, storedAt: int)

  /** Raw registry key to the host (and path) it stands for. */
  function NormalizeRegistry(key: string): string {
    var a := TrimPrefix(key, HTTPS);
    var b := if HasSuffix(a, "/v1/") then TrimSuffix(a, "/v1/")
             else if HasSuffix(a, "/v2/") then TrimSuffix(a, "/v2/")
             else a;
    TrimSuffix(b, "/")
  }

  function Login(a: Auth, decode: string -> Option<string>): Result<(string, string), Reason> {
    if a.username != "" && a.password != "" then Ok((a.username, a.password))
    else if a.auth != "" then
      match decode(a.auth)
      case None => Err(AuthUndecodable)
      case Some(text) =>
        var parts := SplitByte(text, ':');
        if |parts| != 2 then Err(AuthNotAPair)
        else if parts[0] == "" then Err(NoUsername)
        else if parts[1] == "" then Err(NoPassword)
        else Ok((parts[0], parts[1]))
    else Err(NoCredentials)
  }

  /** Outcome of a search: nothing matched, a match with usable credentials, or an error. */
  datatype Search = NoMatch | Match | Fail(reason: Reason)

  /** The entry that matched decides; registry name and address are set even when the credentials are unusable. */
  function Entry(info: Info, key: string, a: Auth, decode: string -> Option<string>): (Info, Search) {
    var name := NormalizeRegistry(key);
    var info1 := info.(registryName := name,
                       registryAddress := if a.serverAddress != "" then a.serverAddress else HTTPS + name);
    match Login(a, decode)
    case Ok((u, p)) => (info1.(username := u, password := p), Match)
    case Err(e) => (info1, Fail(e))
  }

  predicate Matches(image: string, key: string) {
    NormalizeRegistry(key) <= image
  }

  function ParseDocker(info: Info, auths: map<string, Auth>, order: seq<string>,
                       decode: string -> Option<string>): (Info, Search)
    requires forall k :: k in order ==> k in auths
    decreases |order|
  {
    if order == [] then (info, NoMatch)
    else if Matches(info.image, order[0]) then Entry(info, order[0], auths[order[0]], decode)
    else ParseDocker(info, auths, order[1..], decode)
  }

  function CheckSecret(info: Info, ns: string, name: string, env: Env): (Info, Search) {
    match env.secret(ns, name)
    case Unreadable => (info, Fail(SecretUnreadable))
    case Malformed => (info, Fail(SecretMalformed))
    case Docker(auths, order) => ParseDocker(info, auths, order, env.decode)
  }

  /** The pull secrets of the pod, in list order. */
  function SearchSecrets(info: Info, ns: string, names: seq<string>, env: Env): (Info, Search)
    decreases |names|
  {
    if names == [] then (info, NoMatch)
    else
      var (info1, s) := CheckSecret(info, ns, names[0], env);
      if s == NoMatch then SearchSecrets(info1, ns, names[1..], env) else (info1, s)
  }

  /** Then the default secret, if one is configured. */
  function SearchAll(info: Info, ns: string, names: seq<string>, env: Env): (Info, Search) {
    var (info1, s) := SearchSecrets(info, ns, names, env);
    if s == NoMatch && env.defaultSecret.name != "" && env.defaultSecret.ns != ""
    then CheckSecret(info1, env.defaultSecret.ns, env.defaultSecret.name, env)
    else (info1, s)
  }

  // --------------------------------------------------------------- image normalisation

  function FixHub(image: string): string {
    var slash := IndexByte(image, '/');
    if slash < 0 then HUB + "/library/" + image
    else if '.' !in image[..slash] then HUB + "/" + image
    else if "docker.io/" <= image then "index." + image
    else image
  }

  predicate IsHubShorthand(image: string) {
    var slash := IndexByte(image, '/');
    slash < 0 || '.' !in image[..slash] || "docker.io/" <= image
  }

  const BLANK_INFO := Info("", "", "", "", "")

  function FixedInfo(image: string): Info {
    if IsHubShorthand(image)
    then BLANK_INFO.(registryAddress := HTTPS + HUB, registryName := HUB, image := FixHub(image))
    else BLANK_INFO.(image := image)
  }

  function FallBack(info: Info, image: string): Info {
    if info.registryName == "" && info.registryAddress == "" then
      var name := Cut(TrimPrefix(image, HTTPS), '/')[0];
      info.(registryName := name, registryAddress := HTTPS + name)
    else info
  }

  function Clean(info: Info): Info {
    info.(image := TrimPrefix(info.image, info.registryName + "/"))
  }

  // --------------------------------------------------------------------- ECR tokens

  datatype Status = Collected | Failed(reason: Reason) | Panicked

  type Tokens = map<string, Item<string>>

  datatype Collection = Collection(status: Status, info: Info, tokens: Tokens)

  /** `strings.SplitN(data, ":", 2)` followed by indexing both halves. */
  function UseToken(info: Info, data: string, tokens: Tokens): Collection {
    var parts := Cut(data, ':');
    if |parts| < 2 then Collection(Panicked, info.(username := parts[0]), tokens)
    else Collection(Collected, info.(username := parts[0], password := parts[1]), tokens)
  }

  function Lifetime(expiresAt: int, computedAt: int): int {
    expiresAt - (computedAt + 5 * MINUTE)
  }

  const TOKEN_DEFAULT: int := 12 * HOUR

  function EcrLogin(info: Info, env: Env, tokens: Tokens): Collection {
    match env.ecrHost(info.registryAddress)
    case None => Collection(Collected, info, tokens)
    case Some((id, region)) =>
      var key := ECR_KEY + info.registryAddress;
      match Lookup(tokens, key, env.now)
      case Some(data) => UseToken(info, data, tokens)
      case None =>
        match env.ecr(id, region)
        case NoSession => Collection(Collected, info, tokens)
        case NoToken => Collection(Collected, info, tokens)
        case Token(encoded, expiresAt) =>
          match env.decode(encoded)
          case None => Collection(Failed(TokenUndecodable), info, tokens)
          case Some(data) =>
            var lifetime := Lifetime(expiresAt, env.computedAt);
            UseToken(info, data, tokens[key := Item(data, Deadline(lifetime, TOKEN_DEFAULT, env.storedAt))])
  }

  function Collect(image: string, ns: string, pullSecrets: seq<string>, env: Env, tokens: Tokens): Collection {
    var (info, s) := SearchAll(FixedInfo(image), ns, pullSecrets, env);
    match s
    case Fail(reason) => Collection(Failed(reason), info, tokens)
    case Match => Collection(Collected, Clean(FallBack(info, image)), tokens)
    case NoMatch => EcrLogin(Clean(FallBack(info, image)), env, tokens)
  }

  // ------------------------------------------------------------------ the Go code

  class ContainerInfo {
    var registryAddress: string
    var registryName: string
    var username: string
    var password: string
    var image: string
    const ns: string

    ghost function View(): Info
      reads this
    {
      Info(registryAddress, registryName, username, password, image)
    }

    constructor (ns: string)
      ensures this.ns == ns && View() == BLANK_INFO
    {
      this.ns := ns;
      registryAddress, registryName, username, password, image := "", "", "", "", "";
    }

    method FixDockerHubImage(name: string) returns (r: string)
      modifies this
      ensures r == FixHub(name)
      ensures View() == if IsHubShorthand(name)
                        then old(View()).(registryAddress := HTTPS + HUB, registryName := HUB)
                        else old(View())
    {
      r := name;
      var slash := IndexByte(r, '/');
      if slash == -1 {
        r := HUB + "/library/" + r;
      } else if '.' !in r[..slash] {
        r := HUB + "/" + r;
      } else if "docker.io/" <= r {
        r := "index." + r;
      } else {
        return;
      }
      registryAddress := HTTPS + HUB;
      registryName := HUB;
    }

    method ParseDockerConfig(auths: map<string, Auth>, order: seq<string>, decode: string -> Option<string>)
      returns (found: Search)
      requires forall k :: k in order ==> k in auths
      modifies this
      ensures (View(), found) == ParseDocker(old(View()), auths, order, decode)
    {
      hide NormalizeRegistry;
      ghost var was := View();
      for i := 0 to |order|
        invariant View() == was
        invariant ParseDocker(was, auths, order[i..], decode) == ParseDocker(was, auths, order, decode)
      {
        assert order[i..][0] == order[i] && order[i..][1..] == order[i + 1..];
        var name := NormalizeRegistry(order[i]);
        var a := auths[order[i]];
        if name <= image {
          registryName := name;
          if a.serverAddress != "" {
            registryAddress := a.serverAddress;
          } else {
            registryAddress := HTTPS + name;
          }
          var login := Login(a, decode);
          if login.Err? {
            return Fail(login.error);
          }
          username, password := login.value.0, login.value.1;
          return Match;
        }
      }
      return NoMatch;
    }

    method CheckImagePullSecret(secretNs: string, secretName: string, env: Env) returns (found: Search)
      modifies this
      ensures (View(), found) == CheckSecret(old(View()), secretNs, secretName, env)
    {
      hide ParseDocker;
      match env.secret(secretNs, secretName)
      case Unreadable => return Fail(SecretUnreadable);
      case Malformed => return Fail(SecretMalformed);
      case Docker(auths, order) => found := ParseDockerConfig(auths, order, env.decode);
    }

    /** The two searches at the start of `Collect`. */
    method FindCredentials(pullSecrets: seq<string>, env: Env) returns (found: Search)
      modifies this
      ensures (View(), found) == SearchAll(old(View()), ns, pullSecrets, env)
    {
      hide CheckSecret;
      found := NoMatch;
      ghost var was := View();
      var i := 0;
      while i < |pullSecrets| && found == NoMatch
        invariant 0 <= i <= |pullSecrets|
        invariant SearchSecrets(was, ns, pullSecrets, env)
               == if found == NoMatch then SearchSecrets(View(), ns, pullSecrets[i..], env) else (View(), found)
        decreases |pullSecrets| - i
      {
        assert pullSecrets[i..][1..] == pullSecrets[i + 1..];
        found := CheckImagePullSecret(ns, pullSecrets[i], env);
        if found.Fail? {
          return;
        }
        i := i + 1;
      }
      if found == NoMatch {
        if |env.defaultSecret.name| > 0 && |env.defaultSecret.ns| > 0 {
          found := CheckImagePullSecret(env.defaultSecret.ns, env.defaultSecret.name, env);
        }
      }
    }

    /** The ECR part at the end of `Collect`. */
    method LoginToEcr(credentials: Cache<string>, env: Env) returns (status: Status)
      requires credentials.defaultExpiration == TOKEN_DEFAULT
      modifies this, credentials
      ensures Collection(status, View(), credentials.items) == EcrLogin(old(View()), env, old(credentials.items))
    {
      var host := env.ecrHost(registryAddress);
      if host.None? {
        return Collected;
      }
      var data: string;
      var key := ECR_KEY + registryAddress;
      var cached := credentials.Fetch(key, env.now);
      if cached.Some? {
        data := cached.value;
      } else {
        var reply := env.ecr(host.value.0, host.value.1);
        if !reply.Token? {
          return Collected;
        }
        var decoded := env.decode(reply.encoded);
        if decoded.None? {
          return Failed(TokenUndecodable);
        }
        data := decoded.value;
        var expiration := reply.expiresAt - (env.computedAt + 5 * MINUTE);
        credentials.Set(key, data, expiration, env.storedAt);
      }
      var token := Cut(data, ':');
      username := token[0];
      if |token| < 2 {
        return Panicked;
      }
      password := token[1];
      return Collected;
    }

    method CollectFor(container: Container, pullSecrets: seq<string>, credentials: Cache<string>, env: Env)
      returns (status: Status)
      requires View() == BLANK_INFO && credentials.defaultExpiration == TOKEN_DEFAULT
      modifies this, credentials
      ensures Collection(status, View(), credentials.items)
           == Collect(container.image, ns, pullSecrets, env, old(credentials.items))
    {
      hide FixHub, SearchAll, EcrLogin, HUB;
      var fixed := FixDockerHubImage(container.image);
      image := fixed;
      assert View() == FixedInfo(container.image) by { FixHubKeepsOthers(container.image); }
      var found := FindCredentials(pullSecrets, env);
      if found.Fail? {
        return Failed(found.reason);
      }
      if registryName == "" && registryAddress == "" {
        var name := Cut(TrimPrefix(container.image, HTTPS), '/')[0];
        registryName := name;
        registryAddress := HTTPS + name;
      }
      image := TrimPrefix(image, registryName + "/");
      if found == NoMatch {
        status := LoginToEcr(credentials, env);
      } else {
        status := Collected;
      }
    }
  }

  lemma FixHubKeepsOthers(image: string)
    ensures !IsHubShorthand(image) ==> FixHub(image) == image
  {
  }

  // ------------------------------------------------------------------ GetImageConfig

  datatype Request = Request(image: string, policy: PullPolicy, ns: string, pullSecrets: seq<string>)

  datatype Answer = Config(config: ImageConfig) | NoConfig | Crash

  type Images = map<string, Item<ImageConfig>>

  /** A fetch that goes past the image cache; the token cache still takes part. */
  function FetchConfig(req: Request, env: Env, tokens: Tokens): (Answer, Tokens) {
    var c := Collect(req.image, req.ns, req.pullSecrets, env, tokens);
    match c.status
    case Failed(_) => (NoConfig, c.tokens)
    case Panicked => (Crash, c.tokens)
    case Collected =>
      var (name, reference) := ParseImage(c.info.image);
      match env.blob(c.info.registryAddress, c.info.username, c.info.password, name, reference)
      case None => (NoConfig, c.tokens)
      case Some(config) => (Config(config), c.tokens)
  }

  function Serve(req: Request, env: Env, images: Images, tokens: Tokens): (Answer, Images, Tokens) {
    var allowed := Cacheable(req.image, req.policy);
    var hit := Lookup(images, req.image, env.now);
    if allowed && hit.Some? then (Config(hit.value), images, tokens)
    else
      var (answer, tokens1) := FetchConfig(req, env, tokens);
      if answer.Config? && allowed
      then (answer, images[req.image := Item(answer.config, None)], tokens1)
      else (answer, images, tokens1)
  }

  class Registry {
    const imageCache: Cache<ImageConfig>
    const credentialsCache: Cache<string>

    ghost predicate Valid() {
      imageCache.defaultExpiration == NO_EXPIRATION && credentialsCache.defaultExpiration == TOKEN_DEFAULT
    }

    constructor ()
      ensures Valid() && fresh(imageCache) && fresh(credentialsCache)
      ensures imageCache.items == map[] && credentialsCache.items == map[]
    {
      imageCache := new Cache<ImageConfig>(NO_EXPIRATION);
      credentialsCache := new Cache<string>(12 * HOUR);
    }

    method GetImageConfig(container: Container, ns: string, pullSecrets: seq<string>, env: Env) returns (answer: Answer)
      requires Valid()
      modifies imageCache, credentialsCache
      ensures (answer, imageCache.items, credentialsCache.items)
           == Serve(Request(container.image, container.pullPolicy, ns, pullSecrets), env,
                    old(imageCache.items), old(credentialsCache.items))
    {
      hide Collect, ParseImage;
      var allowToCache := Cacheable(container.image, container.pullPolicy);
      if allowToCache {
        var hit := imageCache.Fetch(container.image, env.now);
        if hit.Some? {
          return Config(hit.value);
        }
      }
      var containerInfo := new ContainerInfo(ns);
      var status := containerInfo.CollectFor(container, pullSecrets, credentialsCache, env);
      if status.Failed? {
        return NoConfig;
      }
      if status.Panicked? {
        return Crash;
      }
      var (name, reference) := ParseImage(containerInfo.image);
      var blob := env.blob(containerInfo.registryAddress, containerInfo.username, containerInfo.password, name,
          reference);
      if blob.None? {
        return NoConfig;
      }
      if allowToCache {
        imageCache.Set(container.image, blob.value, DEFAULT_EXPIRATION, env.storedAt);
      }
      return Config(blob.value);
    }
  }
}
