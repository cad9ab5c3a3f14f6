/** Which registry, image and credentials a reference resolves to. */
module Resolution {
  import opened GoText
  import opened GoCache
  import opened ImageRegistry

  // ------------------------------------------------------------------ spellings

  lemma HubLiterals()
    ensures "index." + "docker.io/" == HUB + "/"
    ensures "/library/" == "/" + "library/"
    ensures '/' !in HUB && '.' in HUB && HUB != ""
  {
    assert HUB[5] == '.';
  }

  lemma NotShorthandPrefixes(rest: string)
    ensures !("docker.io/" <= HUB + rest) && !(HTTPS <= HUB + rest)
  {
    assert (HUB + rest)[0] == HUB[0] == 'i';
    assert "docker.io/"[0] == 'd' && HTTPS[0] == 'h';
  }

  lemma Assoc(a: string, b: string, c: string)
    ensures a + b + c == a + (b + c)
  {
  }

  lemma FirstSegment(head: string, rest: string)
    requires '/' !in head
    ensures IndexByte(head + "/" + rest, '/') == |head|
    ensures (head + "/" + rest)[..|head|] == head
    ensures Cut(head + "/" + rest, '/')[0] == head
  {
    CutAtFirst(head, '/', rest);
    var s := head + "/" + rest;
    assert s == head + ['/'] + rest;
    assert s[|head|] == '/' && forall i :: 0 <= i < |head| ==> s[i] == head[i];
  }

  /** A shorthand for Docker Hub becomes a path under the hub's own host name. */
  lemma FixedShape(image: string) returns (rest: string)
    requires IsHubShorthand(image)
    ensures FixHub(image) == HUB + "/" + rest
  {
    HubLiterals();
    hide HUB;
    var slash := IndexByte(image, '/');
    if slash < 0 {
      rest := "library/" + image;
      Assoc(HUB, "/", "library/");
      Assoc(HUB + "/", "library/", image);
    } else if '.' !in image[..slash] {
      rest := image;
    } else {
      rest := image[|"docker.io/"|..];
      assert image == "docker.io/" + rest;
      Assoc("index.", "docker.io/", rest);
    }
  }

  lemma HubIsFixed(rest: string)
    ensures FixHub(HUB + "/" + rest) == HUB + "/" + rest && !IsHubShorthand(HUB + "/" + rest)
    ensures Cut(HUB + "/" + rest, '/')[0] == HUB && !(HTTPS <= HUB + "/" + rest)
  {
    HubLiterals();
    NotShorthandPrefixes("/" + rest);
    FirstSegment(HUB, rest);
    Assoc(HUB, "/", rest);
    hide HUB, HTTPS, IndexByte;
  }

  /** Normalising a reference twice changes nothing more. */
  lemma FixHubIdempotent(image: string)
    ensures FixHub(FixHub(image)) == FixHub(image)
    ensures !IsHubShorthand(FixHub(image))
  {
    if IsHubShorthand(image) {
      var rest := FixedShape(image);
      HubIsFixed(rest);
    } else {
      FixHubKeepsOthers(image);
    }
    hide FixHub, IsHubShorthand, HUB;
  }

  /** The four ways of naming an official image normalise to one string. */
  lemma OfficialImageSpellings(name: string)
    requires '/' !in name
    ensures FixHub(name) == HUB + "/library/" + name
    ensures FixHub("library/" + name) == HUB + "/library/" + name
    ensures FixHub("docker.io/library/" + name) == HUB + "/library/" + name
    ensures FixHub(HUB + "/library/" + name) == HUB + "/library/" + name
  {
    assert FixHub(name) == HUB + "/library/" + name by { hide HUB; }
    LibrarySpelling(name);
    DockerIoSpelling(name);
    HubIsFixed("library/" + name);
    LibraryPath(name);
    hide FixHub, HUB;
  }

  lemma LibraryPath(name: string)
    ensures HUB + "/" + ("library/" + name) == HUB + "/library/" + name
  {
    HubLiterals();
    hide HUB;
    Assoc(HUB, "/", "library/");
    Assoc(HUB + "/", "library/", name);
  }

  lemma LibrarySpelling(name: string)
    ensures FixHub("library/" + name) == HUB + "/library/" + name
  {
    LibraryPath(name);
    hide HUB;
    assert "library" + "/" == "library/";
    assert forall i :: 0 <= i < |"library"| ==> "library"[i] != '/' && "library"[i] != '.';
    FirstSegment("library", name);
    hide IndexByte;
  }

  lemma DockerIoSpelling(name: string)
    ensures FixHub("docker.io/library/" + name) == HUB + "/library/" + name
  {
    HubLiterals();
    LibraryPath(name);
    hide HUB;
    var rest := "library/" + name;
    assert "docker.io/library/" == "docker.io/" + "library/";
    Assoc("docker.io/", "library/", name);
    Assoc("index.", "docker.io/", rest);
    assert "docker.io" + "/" == "docker.io/";
    assert forall i :: 0 <= i < |"docker.io"| ==> "docker.io"[i] != '/';
    assert "docker.io"[6] == '.';
    FirstSegment("docker.io", rest);
    hide IndexByte;
  }

  // ------------------------------------------------------------- the search, step by step

  /** Without a match nothing changes, and the outcome depends on the image alone. */
  lemma {:induction false} ParseDockerLocal(i1: Info, i2: Info, auths: map<string, Auth>, order: seq<string>,
                                            decode: string -> Option<string>)
    requires forall k :: k in order ==> k in auths
    requires i1.image == i2.image && i1.username == i2.username && i1.password == i2.password
    ensures var (r1, s1) := ParseDocker(i1, auths, order, decode);
            var (r2, s2) := ParseDocker(i2, auths, order, decode);
            && s1 == s2
            && r1.image == i1.image
            && (s1 == NoMatch ==> r1 == i1 && r2 == i2)
            && (s1 != NoMatch ==> r1 == r2)
            && (s1 == Match ==> r1.username != "" && r1.password != "" && r1.registryName <= i1.image)
    decreases |order|
  {
    hide NormalizeRegistry;
    if order != [] && !Matches(i1.image, order[0]) {
      ParseDockerLocal(i1, i2, auths, order[1..], decode);
    }
  }

  ghost predicate Agree(i1: Info, i2: Info, o1: (Info, Search), o2: (Info, Search)) {
    && o1.1 == o2.1
    && o1.0.image == i1.image
    && (o1.1 == NoMatch ==> o1.0 == i1 && o2.0 == i2)
    && (o1.1 == Match ==> o1.0 == o2.0 && o1.0.username != "" && o1.0.password != "" && o1.0.registryName <= i1.image)
  }

  lemma CheckSecretLocal(i1: Info, i2: Info, ns: string, name: string, env: Env)
    requires i1.image == i2.image && i1.username == i2.username && i1.password == i2.password
    ensures Agree(i1, i2, CheckSecret(i1, ns, name, env), CheckSecret(i2, ns, name, env))
  {
    match env.secret(ns, name)
    case Docker(auths, order) => ParseDockerLocal(i1, i2, auths, order, env.decode);
    case _ =>
  }

  lemma {:induction false} SearchSecretsLocal(i1: Info, i2: Info, ns: string, names: seq<string>, env: Env)
    requires i1.image == i2.image && i1.username == i2.username && i1.password == i2.password
    ensures Agree(i1, i2, SearchSecrets(i1, ns, names, env), SearchSecrets(i2, ns, names, env))
    decreases |names|
  {
    hide CheckSecret;
    if names != [] {
      CheckSecretLocal(i1, i2, ns, names[0], env);
      SearchSecretsLocal(i1, i2, ns, names[1..], env);
    }
  }

  lemma SearchAllLocal(i1: Info, i2: Info, ns: string, names: seq<string>, env: Env)
    requires i1.image == i2.image && i1.username == i2.username && i1.password == i2.password
    ensures Agree(i1, i2, SearchAll(i1, ns, names, env), SearchAll(i2, ns, names, env))
  {
    hide CheckSecret, SearchSecrets;
    SearchSecretsLocal(i1, i2, ns, names, env);
    CheckSecretLocal(i1, i2, env.defaultSecret.ns, env.defaultSecret.name, env);
  }

  /**
   * A successful search yields usable credentials for a registry that prefixes the image; a fruitless
   * one changes nothing.
   */
  lemma SearchOutcome(info: Info, ns: string, names: seq<string>, env: Env)
    ensures var (r, s) := SearchAll(info, ns, names, env);
            && r.image == info.image
            && (s == NoMatch ==> r == info)
            && (s == Match ==> r.username != "" && r.password != "" && r.registryName <= info.image)
  {
    SearchAllLocal(info, info, ns, names, env);
  }

  /** The first secret in list order that holds a match, or fails, decides. */
  lemma {:induction false} FirstDecides(info: Info, ns: string, names: seq<string>, env: Env, i: nat)
    requires i <= |names|
    requires forall k :: 0 <= k < i ==> CheckSecret(info, ns, names[k], env).1 == NoMatch
    requires i < |names| ==> CheckSecret(info, ns, names[i], env).1 != NoMatch
    ensures SearchSecrets(info, ns, names, env)
         == if i < |names| then CheckSecret(info, ns, names[i], env) else (info, NoMatch)
    decreases |names|
  {
    hide CheckSecret;
    if i > 0 {
      CheckSecretLocal(info, info, ns, names[0], env);
      FirstDecides(info, ns, names[1..], env, i - 1);
    }
  }

  // --------------------------------------------------------- resolution of spellings

  /** Two collections a caller cannot tell apart: a failed one carries no usable fields. */
  ghost predicate SameOutcome(c1: Collection, c2: Collection) {
    && c1.status == c2.status
    && c1.tokens == c2.tokens
    && (!c1.status.Failed? ==> c1.info == c2.info)
  }

  lemma FallBackToHub(image: string)
    requires IsHubShorthand(image)
    ensures FallBack(FixedInfo(image), image) == FixedInfo(image)
    ensures FallBack(FixedInfo(FixHub(image)), FixHub(image)) == FixedInfo(image)
  {
    var rest := FixedShape(image);
    HubIsFixed(rest);
    HubLiterals();
    hide HUB, HTTPS, FixHub, IsHubShorthand;
  }

  lemma FallBackKeepsMatch(info: Info, image: string)
    requires info.registryAddress != ""
    ensures FallBack(info, image) == info
  {
  }

  lemma {:induction false} MatchSetsAddress(info: Info, auths: map<string, Auth>, order: seq<string>,
                                            decode: string -> Option<string>)
    requires forall k :: k in order ==> k in auths
    ensures ParseDocker(info, auths, order, decode).1 == Match ==>
        ParseDocker(info, auths, order, decode).0.registryAddress != ""
    decreases |order|
  {
    hide NormalizeRegistry;
    if order != [] {
      if Matches(info.image, order[0]) {
        assert |HTTPS| > 0;
      } else {
        MatchSetsAddress(info, auths, order[1..], decode);
      }
    }
  }

  lemma {:induction false} SearchSetsAddress(info: Info, ns: string, names: seq<string>, env: Env)
    ensures SearchSecrets(info, ns, names, env).1 == Match ==>
        SearchSecrets(info, ns, names, env).0.registryAddress != ""
    decreases |names|
  {
    if names != [] {
      CheckSetsAddress(info, ns, names[0], env);
      SearchSetsAddress(CheckSecret(info, ns, names[0], env).0, ns, names[1..], env);
      hide CheckSecret;
    }
  }

  lemma CheckSetsAddress(info: Info, ns: string, name: string, env: Env)
    ensures CheckSecret(info, ns, name, env).1 == Match ==> CheckSecret(info, ns, name, env).0.registryAddress != ""
  {
    match env.secret(ns, name)
    case Docker(auths, order) => MatchSetsAddress(info, auths, order, env.decode);
    case _ =>
  }

  lemma SearchAllSetsAddress(info: Info, ns: string, names: seq<string>, env: Env)
    ensures SearchAll(info, ns, names, env).1 == Match ==> SearchAll(info, ns, names, env).0.registryAddress != ""
  {
    SearchSetsAddress(info, ns, names, env);
    CheckSetsAddress(SearchSecrets(info, ns, names, env).0, env.defaultSecret.ns, env.defaultSecret.name, env);
    hide CheckSecret, SearchSecrets;
  }

  lemma FixedInfoFields(image: string)
    ensures FixedInfo(image).image == FixHub(image) && FixedInfo(image).username == FixedInfo(image).password == ""
  {
    FixHubKeepsOthers(image);
  }

  lemma AlikeFrom(image: string, fixed: string, ns: string, pullSecrets: seq<string>, env: Env, tokens: Tokens)
    requires FixedInfo(image).image == FixedInfo(fixed).image
    requires FixedInfo(image).username == FixedInfo(fixed).username
        && FixedInfo(image).password == FixedInfo(fixed).password
    requires FallBack(FixedInfo(image), image) == FallBack(FixedInfo(fixed), fixed)
    ensures SameOutcome(Collect(image, ns, pullSecrets, env, tokens), Collect(fixed, ns, pullSecrets, env, tokens))
  {
    hide FixedInfo, SearchAll, FallBack, Clean, EcrLogin;
    SearchAllLocal(FixedInfo(image), FixedInfo(fixed), ns, pullSecrets, env);
    SearchAllSetsAddress(FixedInfo(image), ns, pullSecrets, env);
    var (i1, s1) := SearchAll(FixedInfo(image), ns, pullSecrets, env);
    if s1 == Match {
      FallBackKeepsMatch(i1, image);
      FallBackKeepsMatch(i1, fixed);
    }
  }

  /**
   * An image and its normalised form resolve alike, credentials and token cache included, whatever
   * the pull secrets hold.
   */
  lemma SpellingsResolveAlike(image: string, ns: string, pullSecrets: seq<string>, env: Env, tokens: Tokens)
    ensures SameOutcome(Collect(image, ns, pullSecrets, env, tokens),
                        Collect(FixHub(image), ns, pullSecrets, env, tokens))
  {
    FixHubIdempotent(image);
    FixedInfoFields(image);
    FixedInfoFields(FixHub(image));
    if IsHubShorthand(image) {
      FallBackToHub(image);
      hide FixHub, FixedInfo, IsHubShorthand, FallBack, Collect;
      AlikeFrom(image, FixHub(image), ns, pullSecrets, env, tokens);
    } else {
      FixHubKeepsOthers(image);
      hide Collect, FixHub;
    }
  }

  /**
   * Resolution loses nothing: registry name and remaining image reassemble to the normalised
   * reference, or the reference was kept whole because the registry name is not one of its path prefixes.
   */
  lemma ResolutionLosesNothing(image: string, ns: string, pullSecrets: seq<string>, env: Env, tokens: Tokens)
    requires !SearchAll(FixedInfo(image), ns, pullSecrets, env).1.Fail?
    ensures var info := Collect(image, ns, pullSecrets, env, tokens).info;
            info.registryName + "/" + info.image == FixHub(image)
            || (info.image == FixHub(image) && !(info.registryName + "/" <= FixHub(image)))
  {
    SearchOutcome(FixedInfo(image), ns, pullSecrets, env);
    FixedInfoFields(image);
    hide SearchAll, FixHub, FixedInfo, HUB, HTTPS, FallBack, EcrLogin;
    var (info, s) := SearchAll(FixedInfo(image), ns, pullSecrets, env);
    FallBackKeepsImage(info, image);
    var cleaned := Clean(FallBack(info, image));
    EcrKeepsImage(cleaned, env, tokens);
    var p := cleaned.registryName + "/";
    if p <= FixHub(image) {
      assert FixHub(image) == p + FixHub(image)[|p|..];
    }
  }

  lemma FallBackKeepsImage(info: Info, image: string)
    ensures FallBack(info, image).image == info.image
  {
  }

  lemma EcrKeepsImage(info: Info, env: Env, tokens: Tokens)
    ensures var r := EcrLogin(info, env, tokens).info;
            r.image == info.image && r.registryName == info.registryName && r.registryAddress == info.registryAddress
  {
  }

  // ------------------------------------------------- independence of the registries' order

  lemma {:induction false} FirstMatchWins(info: Info, auths: map<string, Auth>, order: seq<string>,
                                          decode: string -> Option<string>, i: nat)
    requires forall k :: k in order ==> k in auths
    requires i <= |order| && forall j :: 0 <= j < i ==> !Matches(info.image, order[j])
    requires i < |order| ==> Matches(info.image, order[i])
    ensures ParseDocker(info, auths, order, decode)
         == if i < |order| then Entry(info, order[i], auths[order[i]], decode) else (info, NoMatch)
    decreases |order|
  {
    hide Matches, Entry;
    if i > 0 {
      FirstMatchWins(info, auths, order[1..], decode, i - 1);
    }
  }

  function FirstMatch(image: string, order: seq<string>): (i: nat)
    ensures i <= |order|
    ensures forall j :: 0 <= j < i ==> !Matches(image, order[j])
    ensures i < |order| ==> Matches(image, order[i])
  {
    if order == [] || Matches(image, order[0]) then 0
    else
      var i := 1 + FirstMatch(image, order[1..]);
      assert forall j :: 1 <= j < |order| ==> order[j] == order[1..][j - 1];
      i
  }

  /** Any entry that matches can be the one that decides. */
  lemma AnyMatchCanDecide(info: Info, auths: map<string, Auth>, decode: string -> Option<string>, k: string)
    returns (order: seq<string>)
    requires k in auths && Matches(info.image, k)
    ensures IsEnumeration(order, auths.Keys)
    ensures ParseDocker(info, auths, order, decode) == Entry(info, k, auths[k], decode)
  {
    var rest := EnumerationOf(auths.Keys - {k});
    order := [k] + rest;
    FirstMatchWins(info, auths, order, decode, 0);
  }

  /**
   * The credentials found are a function of the secret, and not of the order in which its registries
   * happen to be visited, exactly when all entries that match the image resolve to the same thing.
   */
  lemma SearchDeterministicIff(info: Info, auths: map<string, Auth>, decode: string -> Option<string>)
    ensures (forall o1, o2 | IsEnumeration(o1, auths.Keys) && IsEnumeration(o2, auths.Keys) ::
               ParseDocker(info, auths, o1, decode) == ParseDocker(info, auths, o2, decode))
            <==>
            (forall k1, k2 | k1 in auths && k2 in auths && Matches(info.image, k1) && Matches(info.image, k2) ::
               Entry(info, k1, auths[k1], decode) == Entry(info, k2, auths[k2], decode))
  {
    hide Matches, Entry, ParseDocker;
    if k1, k2 :| k1 in auths && k2 in auths && Matches(info.image, k1) && Matches(info.image, k2)
                 && Entry(info, k1, auths[k1], decode) != Entry(info, k2, auths[k2], decode)
    {
      var o1 := AnyMatchCanDecide(info, auths, decode, k1);
      var o2 := AnyMatchCanDecide(info, auths, decode, k2);
    } else {
      forall o1, o2 | IsEnumeration(o1, auths.Keys) && IsEnumeration(o2, auths.Keys)
        ensures ParseDocker(info, auths, o1, decode) == ParseDocker(info, auths, o2, decode)
      {
        var i1, i2 := FirstMatch(info.image, o1), FirstMatch(info.image, o2);
        FirstMatchWins(info, auths, o1, decode, i1);
        FirstMatchWins(info, auths, o2, decode, i2);
        if i1 < |o1| { assert o1[i1] in o2; }
        if i2 < |o2| { assert o2[i2] in o1; }
      }
    }
  }

  /** In particular when at most one registry key, once normalised, prefixes the image. */
  lemma SingleMatchDeterministic(info: Info, auths: map<string, Auth>, decode: string -> Option<string>,
                                 o1: seq<string>, o2: seq<string>)
    requires forall k1, k2 | k1 in auths && k2 in auths && Matches(info.image, k1) && Matches(info.image, k2) ::
               k1 == k2
    requires IsEnumeration(o1, auths.Keys) && IsEnumeration(o2, auths.Keys)
    ensures ParseDocker(info, auths, o1, decode) == ParseDocker(info, auths, o2, decode)
  {
    SearchDeterministicIff(info, auths, decode);
  }

  /** Two matching keys with different normalised names always make the outcome depend on the order. */
  lemma NestedRegistriesAmbiguous(info: Info, auths: map<string, Auth>, decode: string -> Option<string>, k1: string,
                                  k2: string)
    returns (o1: seq<string>, o2: seq<string>)
    requires k1 in auths && k2 in auths && Matches(info.image, k1) && Matches(info.image, k2)
    requires NormalizeRegistry(k1) != NormalizeRegistry(k2)
    ensures IsEnumeration(o1, auths.Keys) && IsEnumeration(o2, auths.Keys)
    ensures ParseDocker(info, auths, o1, decode).0.registryName != ParseDocker(info, auths, o2, decode).0.registryName
  {
    o1 := AnyMatchCanDecide(info, auths, decode, k1);
    o2 := AnyMatchCanDecide(info, auths, decode, k2);
  }

  // ---- the same for a whole collection

  ghost predicate SameSecret(r1: SecretReply, r2: SecretReply) {
    r1 == r2 || (r1.Docker? && r2.Docker? && r1.auths == r2.auths)
  }

  /** Two worlds that differ at most in the order in which the registries of a secret are visited. */
  ghost predicate SameButOrder(e1: Env, e2: Env) {
    && e2 == e1.(secret := e2.secret)
    && forall ns, name :: SameSecret(e1.secret(ns, name), e2.secret(ns, name))
  }

  /** All entries of the secret that match the image resolve to the same thing. */
  ghost predicate Consistent(info: Info, reply: SecretReply, decode: string -> Option<string>) {
    reply.Docker? ==>
      forall k1, k2 | k1 in reply.auths && k2 in reply.auths && Matches(info.image, k1) && Matches(info.image, k2) ::
        Entry(info, k1, reply.auths[k1], decode) == Entry(info, k2, reply.auths[k2], decode)
  }

  /** The search ends with this secret: it cannot be used, or it has an entry for the image. */
  ghost predicate Settles(image: string, reply: SecretReply) {
    reply.Docker? ==> exists k :: k in reply.auths && Matches(image, k)
  }

  /** The secret that decides, if any, is consistent; those behind it do not matter. */
  ghost predicate DecidedConsistently(info: Info, ns: string, names: seq<string>, env: Env) {
    if names == [] then
      env.defaultSecret.name != "" && env.defaultSecret.ns != "" ==>
        Consistent(info, env.secret(env.defaultSecret.ns, env.defaultSecret.name), env.decode)
    else if Settles(info.image, env.secret(ns, names[0])) then Consistent(info, env.secret(ns, names[0]), env.decode)
    else DecidedConsistently(info, ns, names[1..], env)
  }

  lemma UnsettledIsNoMatch(info: Info, ns: string, name: string, env: Env)
    ensures !Settles(info.image, env.secret(ns, name)) ==> CheckSecret(info, ns, name, env) == (info, NoMatch)
    ensures Settles(info.image, env.secret(ns, name)) ==> CheckSecret(info, ns, name, env).1 != NoMatch
  {
    hide Matches;
    match env.secret(ns, name)
    case Docker(auths, order) =>
      var i := FirstMatch(info.image, order);
      FirstMatchWins(info, auths, order, env.decode, i);
      if i < |order| { assert order[i] in auths; }
      if k :| k in auths && Matches(info.image, k) { assert k in order; }
    case _ =>
  }

  lemma SearchAllStep(info: Info, ns: string, names: seq<string>, env: Env)
    requires names != []
    ensures SearchAll(info, ns, names, env)
         == var r := CheckSecret(info, ns, names[0], env);
            if r.1 == NoMatch then SearchAll(info, ns, names[1..], env) else r
  {
    CheckSecretLocal(info, info, ns, names[0], env);
    hide CheckSecret;
  }

  lemma ConsistentChecksAlike(info: Info, ns: string, name: string, e1: Env, e2: Env)
    requires SameButOrder(e1, e2) && Consistent(info, e1.secret(ns, name), e1.decode)
    ensures CheckSecret(info, ns, name, e1) == CheckSecret(info, ns, name, e2)
  {
    hide Matches, Entry;
    assert SameSecret(e1.secret(ns, name), e2.secret(ns, name));
    if e1.secret(ns, name).Docker? {
      SearchDeterministicIff(info, e1.secret(ns, name).auths, e1.decode);
    }
  }

  lemma {:induction false} ConsistentSearchesAlike(info: Info, ns: string, names: seq<string>, e1: Env, e2: Env)
    requires SameButOrder(e1, e2) && DecidedConsistently(info, ns, names, e1)
    ensures SearchAll(info, ns, names, e1) == SearchAll(info, ns, names, e2)
    decreases |names|
  {
    if names == [] {
      hide CheckSecret, Consistent;
      var d := e1.defaultSecret;
      if d.name != "" && d.ns != "" { ConsistentChecksAlike(info, d.ns, d.name, e1, e2); }
    } else {
      SearchAllStep(info, ns, names, e1);
      SearchAllStep(info, ns, names, e2);
      UnsettledIsNoMatch(info, ns, names[0], e1);
      assert SameSecret(e1.secret(ns, names[0]), e2.secret(ns, names[0]));
      assert Consistent(info, e1.secret(ns, names[0]), e1.decode);
      ConsistentChecksAlike(info, ns, names[0], e1, e2);
      hide CheckSecret, Consistent, Settles, SameButOrder, SearchAll;
      if !Settles(info.image, e1.secret(ns, names[0])) {
        ConsistentSearchesAlike(info, ns, names[1..], e1, e2);
      }
    }
  }

  function ReplyWith(env: Env, ns: string, name: string, reply: SecretReply, n: string, m: string): SecretReply {
    if n == ns && m == name then reply else env.secret(n, m)
  }

  /** The world with one reply exchanged. */
  function Reordered(env: Env, ns: string, name: string, reply: SecretReply): Env {
    env.(secret := (n: string, m: string) => ReplyWith(env, ns, name, reply, n, m))
  }

  lemma ReorderedKeepsRest(env: Env, ns: string, name: string, reply: SecretReply)
    requires SameSecret(env.secret(ns, name), reply)
    ensures SameButOrder(env, Reordered(env, ns, name, reply))
  {
  }

  lemma ReorderedChecks(info: Info, ns: string, name: string, env: Env, auths: map<string, Auth>, order: seq<string>)
    requires IsEnumeration(order, auths.Keys)
    ensures CheckSecret(info, ns, name, Reordered(env, ns, name, Docker(auths, order)))
         == ParseDocker(info, auths, order, env.decode)
  {
    hide ParseDocker;
  }

  lemma EntryIsNoMiss(info: Info, key: string, a: Auth, decode: string -> Option<string>)
    ensures Entry(info, key, a, decode).1 != NoMatch
  {
    hide NormalizeRegistry, Login, HTTPS;
  }

  /** Two orders that make one inconsistent secret decide differently. */
  lemma InconsistentChecksDiffer(info: Info, ns: string, name: string, env: Env) returns (e1: Env, e2: Env)
    requires !Consistent(info, env.secret(ns, name), env.decode)
    ensures SameButOrder(env, e1) && SameButOrder(env, e2)
    ensures CheckSecret(info, ns, name, e1) != CheckSecret(info, ns, name, e2)
    ensures CheckSecret(info, ns, name, e1).1 != NoMatch && CheckSecret(info, ns, name, e2).1 != NoMatch
  {
    hide Matches;
    var auths := env.secret(ns, name).auths;
    var k1, k2 :| k1 in auths && k2 in auths && Matches(info.image, k1) && Matches(info.image, k2)
                  && Entry(info, k1, auths[k1], env.decode) != Entry(info, k2, auths[k2], env.decode);
    var o1 := AnyMatchCanDecide(info, auths, env.decode, k1);
    var o2 := AnyMatchCanDecide(info, auths, env.decode, k2);
    e1, e2 := Reordered(env, ns, name, Docker(auths, o1)), Reordered(env, ns, name, Docker(auths, o2));
    ReorderedKeepsRest(env, ns, name, Docker(auths, o1));
    ReorderedKeepsRest(env, ns, name, Docker(auths, o2));
    ReorderedChecks(info, ns, name, env, auths, o1);
    ReorderedChecks(info, ns, name, env, auths, o2);
    EntryIsNoMiss(info, k1, auths[k1], env.decode);
    EntryIsNoMiss(info, k2, auths[k2], env.decode);
    hide ParseDocker, Entry, SameButOrder, CheckSecret, Reordered;
  }

  lemma {:induction false} InconsistentSearchesDiffer(info: Info, ns: string, names: seq<string>, env: Env)
    returns (e1: Env, e2: Env)
    requires !DecidedConsistently(info, ns, names, env)
    ensures SameButOrder(env, e1) && SameButOrder(env, e2)
    ensures SearchAll(info, ns, names, e1) != SearchAll(info, ns, names, e2)
    ensures SearchAll(info, ns, names, e1).1 != NoMatch && SearchAll(info, ns, names, e2).1 != NoMatch
    decreases |names|
  {
    if names == [] {
      e1, e2 := InconsistentChecksDiffer(info, env.defaultSecret.ns, env.defaultSecret.name, env);
      hide CheckSecret;
    } else if Settles(info.image, env.secret(ns, names[0])) {
      e1, e2 := InconsistentChecksDiffer(info, ns, names[0], env);
      hide CheckSecret, SearchAll;
      SearchAllStep(info, ns, names, e1);
      SearchAllStep(info, ns, names, e2);
    } else {
      e1, e2 := InconsistentSearchesDiffer(info, ns, names[1..], env);
      hide CheckSecret, SearchAll;
      assert SameSecret(env.secret(ns, names[0]), e1.secret(ns, names[0]));
      assert SameSecret(env.secret(ns, names[0]), e2.secret(ns, names[0]));
      SearchAllStep(info, ns, names, e1);
      SearchAllStep(info, ns, names, e2);
      UnsettledIsNoMatch(info, ns, names[0], e1);
      UnsettledIsNoMatch(info, ns, names[0], e2);
    }
  }

  /** Everything a match or an error leaves in the fields survives the end of the collection. */
  lemma CollectShowsSearch(image: string, ns: string, pullSecrets: seq<string>, e1: Env, e2: Env, tokens: Tokens)
    requires e2 == e1.(secret := e2.secret)
    ensures var r1 := SearchAll(FixedInfo(image), ns, pullSecrets, e1);
            var r2 := SearchAll(FixedInfo(image), ns, pullSecrets, e2);
            && (r1 == r2 ==> Collect(image, ns, pullSecrets, e1, tokens) == Collect(image, ns, pullSecrets, e2, tokens))
            && (r1 != r2 && r1.1 != NoMatch && r2.1 != NoMatch ==>
                  Collect(image, ns, pullSecrets, e1, tokens) != Collect(image, ns, pullSecrets, e2, tokens))
  {
    SearchOutcome(FixedInfo(image), ns, pullSecrets, e1);
    SearchOutcome(FixedInfo(image), ns, pullSecrets, e2);
    SearchAllSetsAddress(FixedInfo(image), ns, pullSecrets, e1);
    SearchAllSetsAddress(FixedInfo(image), ns, pullSecrets, e2);
    hide SearchAll, FixedInfo, TrimPrefix, Cut, HTTPS;
  }

  /**
   * What a whole collection finds does not depend on the order in which any secret's registries are
   * visited, exactly when the secret that decides is consistent about the image.
   */
  lemma CollectDeterministicIff(image: string, ns: string, pullSecrets: seq<string>, env: Env, tokens: Tokens)
    ensures (forall e1, e2 | SameButOrder(env, e1) && SameButOrder(env, e2) ::
               Collect(image, ns, pullSecrets, e1, tokens) == Collect(image, ns, pullSecrets, e2, tokens))
            <==> DecidedConsistently(FixedInfo(image), ns, pullSecrets, env)
  {
    hide Collect, SearchAll, FixedInfo, DecidedConsistently;
    if DecidedConsistently(FixedInfo(image), ns, pullSecrets, env) {
      forall e1, e2 | SameButOrder(env, e1) && SameButOrder(env, e2)
        ensures Collect(image, ns, pullSecrets, e1, tokens) == Collect(image, ns, pullSecrets, e2, tokens)
      {
        ConsistentSearchesAlike(FixedInfo(image), ns, pullSecrets, env, e1);
        ConsistentSearchesAlike(FixedInfo(image), ns, pullSecrets, env, e2);
        CollectShowsSearch(image, ns, pullSecrets, e1, e2, tokens);
      }
    } else {
      var e1, e2 := InconsistentSearchesDiffer(FixedInfo(image), ns, pullSecrets, env);
      CollectShowsSearch(image, ns, pullSecrets, e1, e2, tokens);
    }
  }

  // ------------------------------------------------------------- keys and logins of a secret

  lemma SuffixTrimmed(h: string, t: string)
    ensures HasSuffix(h + t, t) && TrimSuffix(h + t, t) == h
  {
    assert (h + t)[|h|..] == t;
    assert (h + t)[..|h|] == h;
  }

  lemma PrefixTrimmed(h: string)
    ensures TrimPrefix(HTTPS + h, HTTPS) == h
  {
    hide HTTPS;
  }

  lemma NoVersionSuffix(h: string)
    requires h != "" && h[|h| - 1] != '/'
    ensures !HasSuffix(h, "/v1/") && !HasSuffix(h, "/v2/") && !HasSuffix(h, "/")
  {
    assert "/v1/"[3] == '/' && "/v2/"[3] == '/';
    if |h| >= 4 { assert h[|h| - 4..][3] == h[|h| - 1]; }
    assert h[|h| - 1..][0] == h[|h| - 1];
  }

  /**
   * All the keys tools write for one registry normalise to its host: bare, with a scheme, with a
   * trailing slash, and with either API version behind it.
   */
  lemma RegistryKeySpellings(h: string)
    requires h != "" && h[|h| - 1] != '/' && !(HTTPS <= h)
    ensures NormalizeRegistry(h) == h && NormalizeRegistry(HTTPS + h) == h
    ensures NormalizeRegistry(HTTPS + h + "/v1/") == h && NormalizeRegistry(HTTPS + h + "/v2/") == h
    ensures !HasSuffix(h + "/", "/v1/") && !HasSuffix(h + "/", "/v2/") ==> NormalizeRegistry(HTTPS + h + "/") == h
  {
    NoVersionSuffix(h);
    PrefixTrimmed(h);
    Assoc(HTTPS, h, "/v1/");
    Assoc(HTTPS, h, "/v2/");
    Assoc(HTTPS, h, "/");
    PrefixTrimmed(h + "/v1/");
    PrefixTrimmed(h + "/v2/");
    PrefixTrimmed(h + "/");
    SuffixTrimmed(h, "/v1/");
    SuffixTrimmed(h, "/v2/");
    SuffixTrimmed(h, "/");
    NotAlsoVersionOne(h);
    hide HTTPS, HasSuffix, TrimSuffix, TrimPrefix;
    assert TrimSuffix(h, "/") == h by { NoTrim(h, "/"); }
  }

  lemma NoTrim(h: string, t: string)
    requires !HasSuffix(h, t)
    ensures TrimSuffix(h, t) == h
  {
  }

  lemma NotAlsoVersionOne(h: string)
    ensures !HasSuffix(h + "/v2/", "/v1/")
  {
    var s := h + "/v2/";
    assert s[|s| - 4..][2] == s[|s| - 2] == "/v2/"[2] == '2';
    assert "/v1/"[2] == '1';
  }

  /**
   * When username and password are not both given, the encoded field yields a login exactly when it
   * decodes to two non-empty halves around a single colon; a colon in the password is an error.
   */
  lemma EncodedLoginIff(a: Auth, decode: string -> Option<string>, u: string, p: string)
    requires a.username == "" || a.password == ""
    ensures Login(a, decode) == Ok((u, p)) <==>
            a.auth != "" && decode(a.auth) == Some(u + ":" + p) && u != "" && p != "" && ':' !in u && ':' !in p
  {
    assert |u + ":" + p| > 0;
    if a.auth != "" && decode(a.auth).Some? {
      var text := decode(a.auth).value;
      PairIff(text, u, p);
      var parts := SplitByte(text, ':');
      assert |parts| == 2 ==> parts == [parts[0], parts[1]];
      assert [u, p][0] == u && [u, p][1] == p;
      hide SplitByte;
    }
  }

  /** The login an entry grants: its own fields if both are set, else what its encoded field holds. */
  predicate Grants(a: Auth, decode: string -> Option<string>, u: string, p: string) {
    if a.username != "" && a.password != "" then u == a.username && p == a.password
    else a.auth != "" && decode(a.auth) == Some(u + ":" + p) && u != "" && p != "" && ':' !in u && ':' !in p
  }

  lemma LoginIff(a: Auth, decode: string -> Option<string>, u: string, p: string)
    ensures Login(a, decode) == Ok((u, p)) <==> Grants(a, decode, u, p)
  {
    if a.username == "" || a.password == "" { EncodedLoginIff(a, decode, u, p); }
    hide SplitByte;
  }

  /** Secret number `i` of a search: those of the pod in list order, then the default one. */
  function SecretAt(ns: string, names: seq<string>, env: Env, i: nat): SecretReply
    requires i <= |names|
  {
    if i < |names| then env.secret(ns, names[i]) else env.secret(env.defaultSecret.ns, env.defaultSecret.name)
  }

  /**
   * All secrets before number `i` can be read and hold no entry for the image; a default one is
   * configured if it comes to it.
   */
  ghost predicate SearchReaches(image: string, ns: string, names: seq<string>, env: Env, i: nat) {
    && i <= |names|
    && (i == |names| ==> env.defaultSecret.name != "" && env.defaultSecret.ns != "")
    && forall k :: 0 <= k < i ==> !Settles(image, env.secret(ns, names[k]))
  }

  function CheckAt(info: Info, ns: string, names: seq<string>, env: Env, i: nat): (Info, Search)
    requires i <= |names|
  {
    if i < |names| then CheckSecret(info, ns, names[i], env)
    else CheckSecret(info, env.defaultSecret.ns, env.defaultSecret.name, env)
  }

  lemma {:induction false} SearchAsks(info: Info, ns: string, names: seq<string>, env: Env, i: nat)
    requires SearchReaches(info.image, ns, names, env, i) && Settles(info.image, SecretAt(ns, names, env, i))
    ensures SearchAll(info, ns, names, env) == CheckAt(info, ns, names, env, i)
    decreases |names|
  {
    hide CheckSecret, Settles;
    if names != [] {
      SearchAllStep(info, ns, names, env);
      UnsettledIsNoMatch(info, ns, names[0], env);
      if i > 0 {
        assert !Settles(info.image, env.secret(ns, names[0]));
        forall k | 0 <= k < i - 1 ensures !Settles(info.image, env.secret(ns, names[1..][k])) {
          assert names[1..][k] == names[k + 1];
        }
        SearchAsks(info, ns, names[1..], env, i - 1);
      }
    }
  }

  /**
   * A search that no secret settles finds nothing, and the default secret is not asked unless both its
   * parts are set.
   */
  lemma {:induction false} NothingFound(info: Info, ns: string, names: seq<string>, env: Env)
    requires forall k :: 0 <= k < |names| ==> !Settles(info.image, env.secret(ns, names[k]))
    requires env.defaultSecret.name != "" && env.defaultSecret.ns != "" ==>
               !Settles(info.image, env.secret(env.defaultSecret.ns, env.defaultSecret.name))
    ensures SearchAll(info, ns, names, env) == (info, NoMatch)
    decreases |names|
  {
    UnsettledIsNoMatch(info, env.defaultSecret.ns, env.defaultSecret.name, env);
    hide CheckSecret, Settles;
    if names != [] {
      SearchAllStep(info, ns, names, env);
      UnsettledIsNoMatch(info, ns, names[0], env);
      assert !Settles(info.image, env.secret(ns, names[0]));
      assert forall k :: 0 <= k < |names| - 1 ==> names[1..][k] == names[k + 1];
      NothingFound(info, ns, names[1..], env);
    }
  }

  /** A secret that cannot be used ends the search with that very reason. */
  lemma UnusableSecretFails(info: Info, ns: string, names: seq<string>, env: Env, i: nat)
    requires SearchReaches(info.image, ns, names, env, i) && !SecretAt(ns, names, env, i).Docker?
    ensures SearchAll(info, ns, names, env)
         == (info, Fail(if SecretAt(ns, names, env, i).Unreadable? then SecretUnreadable else SecretMalformed))
  {
    SearchAsks(info, ns, names, env, i);
    hide SearchAll, SearchReaches;
  }

  /**
   * What the deciding entry does: the first entry for the image, in the first secret that has one, sets
   * registry name and address, its login is the one it grants, and without such a login the search fails.
   */
  lemma CredentialsIff(info: Info, ns: string, names: seq<string>, env: Env, i: nat, j: nat, u: string, p: string)
    requires SearchReaches(info.image, ns, names, env, i) && SecretAt(ns, names, env, i).Docker?
    requires var order := SecretAt(ns, names, env, i).order;
             && j < |order| && NormalizeRegistry(order[j]) <= info.image
             && forall l :: 0 <= l < j ==> !(NormalizeRegistry(order[l]) <= info.image)
    ensures var reply := SecretAt(ns, names, env, i);
            var key := reply.order[j];
            var entry := reply.auths[key];
            var (found, s) := SearchAll(info, ns, names, env);
            && found.image == info.image && found.registryName == NormalizeRegistry(key)
            && found.registryAddress == (if entry.serverAddress != "" then entry.serverAddress
                                         else "https://" + NormalizeRegistry(key))
            && (s == Match && found.username == u && found.password == p <==> Grants(entry, env.decode, u, p))
            && (s == Match || (s.Fail? && !Grants(entry, env.decode, u, p)))
  {
    var reply := SecretAt(ns, names, env, i);
    var key := reply.order[j];
    assert Matches(info.image, key) && key in reply.auths;
    SearchAsks(info, ns, names, env, i);
    FirstMatchWins(info, reply.auths, reply.order, env.decode, j);
    LoginIff(reply.auths[key], env.decode, u, p);
    hide SearchAll, SearchReaches, NormalizeRegistry, Login, ParseDocker, Grants, Settles;
  }

  /** The fields a match leaves are those after the collection, with the registry name taken off the image. */
  lemma CollectKeepsMatch(image: string, ns: string, pullSecrets: seq<string>, env: Env, tokens: Tokens)
    requires SearchAll(FixedInfo(image), ns, pullSecrets, env).1 == Match
    ensures var found := SearchAll(FixedInfo(image), ns, pullSecrets, env).0;
            Collect(image, ns, pullSecrets, env, tokens)
            == Collection(Collected, found.(image := TrimPrefix(FixHub(image), found.registryName + "/")), tokens)
  {
    SearchAllSetsAddress(FixedInfo(image), ns, pullSecrets, env);
    SearchOutcome(FixedInfo(image), ns, pullSecrets, env);
    FixedInfoFields(image);
    hide SearchAll, FixedInfo, FixHub, TrimPrefix, HTTPS;
  }

  lemma PairIff(text: string, u: string, p: string)
    ensures SplitByte(text, ':') == [u, p] <==> text == u + ":" + p && ':' !in u && ':' !in p
  {
    var m := IndexByte(text, ':');
    if m >= 0 {
      var head, tail := text[..m], text[m + 1..];
      assert text == head + ":" + tail;
      assert SplitByte(text, ':') == [head] + SplitByte(tail, ':');
      assert ':' !in head;
      var more := SplitByte(tail, ':');
      assert if ':' in tail then |more| >= 2 else more == [tail];
      assert SplitByte(text, ':')[0] == head && SplitByte(text, ':')[1] == more[0];
      assert [u, p][0] == u && [u, p][1] == p;
      if text == u + ":" + p && ':' !in u {
        CutAtFirst(u, ':', p);
        assert text == u + [':'] + p;
        assert Cut(text, ':')[0] == head && Cut(text, ':')[1] == tail;
      }
    } else {
      assert (u + ":" + p)[|u|] == ':';
    }
  }

  lemma ShorthandResolves(image: string, rest: string)
    requires IsHubShorthand(image) && FixHub(image) == HUB + "/" + rest
    ensures Clean(FallBack(FixedInfo(image), image)) == Info(HTTPS + HUB, HUB, "", "", rest)
  {
    HubLiterals();
    PrefixOff(rest);
    hide FixHub, IsHubShorthand, HUB, TrimPrefix, Cut;
    assert HTTPS + HUB != "";
  }

  lemma AccountShorthand(account: string, name: string)
    requires '/' !in account && '.' !in account
    ensures IsHubShorthand(account + "/" + name) && FixHub(account + "/" + name) == HUB + "/" + (account + "/" + name)
  {
    FirstSegment(account, name);
    hide IndexByte, HUB;
  }

  lemma OfficialShorthand(name: string)
    requires '/' !in name
    ensures IsHubShorthand(name) && FixHub(name) == HUB + "/" + ("library/" + name)
  {
    LibraryPath(name);
    hide HUB;
  }

  /** Without credentials an official image, and one of a hub account, is looked for under the hub's own host. */
  lemma HubResolves(account: string, name: string)
    requires '/' !in account && '.' !in account && '/' !in name
    ensures Clean(FallBack(FixedInfo(name), name))
         == Info("https://index.docker.io", "index.docker.io", "", "", "library/" + name)
    ensures Clean(FallBack(FixedInfo(account + "/" + name), account + "/" + name))
         == Info("https://index.docker.io", "index.docker.io", "", "", account + "/" + name)
  {
    assert HTTPS + HUB == "https://index.docker.io";
    hide FixHub, IsHubShorthand, Clean, FallBack, FixedInfo;
    OfficialShorthand(name);
    ShorthandResolves(name, "library/" + name);
    AccountShorthand(account, name);
    ShorthandResolves(account + "/" + name, account + "/" + name);
  }

  lemma PrefixOff(rest: string)
    ensures TrimPrefix(HUB + "/" + rest, HUB + "/") == rest
  {
    hide HUB;
  }

  lemma FirstSegmentUnique(head: string, host: string, rest: string)
    requires '/' !in head && '/' !in host && head + "/" <= host + "/" + rest
    ensures head == host
  {
    var image := host + "/" + rest;
    var tail := image[|head| + 1..];
    assert image == head + "/" + tail;
    FirstSegment(head, tail);
    FirstSegment(host, rest);
  }

  lemma HostIsNotScheme(host: string, rest: string)
    requires '/' !in host && '.' in host && host != "docker.io"
    ensures !(HTTPS <= host + "/" + rest) && !("docker.io/" <= host + "/" + rest)
  {
    assert HTTPS == "https:" + "/" + "/" && "docker.io/" == "docker.io" + "/";
    assert '.' !in "https:" && '/' !in "https:" && '/' !in "docker.io";
    if HTTPS <= host + "/" + rest {
      FirstSegmentUnique("https:", host, rest);
    } else if "docker.io/" <= host + "/" + rest {
      FirstSegmentUnique("docker.io", host, rest);
    }
  }

  /**
   * A reference to any other registry, without credentials: the first component is the registry, the
   * rest the image.
   */
  lemma OtherRegistryResolves(host: string, rest: string)
    requires '/' !in host && '.' in host && host != "docker.io"
    ensures var image := host + "/" + rest;
            Clean(FallBack(FixedInfo(image), image)) == Info(HTTPS + host, host, "", "", rest)
  {
    HostIsNotScheme(host, rest);
    FirstSegment(host, rest);
    hide HTTPS, HUB, IndexByte;
    assert (host + "/" + rest)[|host + "/"|..] == rest;
  }
}
