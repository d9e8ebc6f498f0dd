/**
 * The Cloud Foundry run target of the Boot Dashboard: a client slot, caches
 * of what the client fetched, and the small rules it applies to the
 * target's URL and to the buildpacks the target offers. Every call into the
 * Cloud Foundry client is an input: what the call returned, or the
 * exception it raised.
 */
module CloudFoundryRunTarget {
  import opened Wrappers
  import opened Strings

  /** What a Java call hands back: a value, null, or an exception with its message. */
  datatype Fetch<T> = Value(v: T) | Null | Raised(message: string)

  /** The run states of a Boot Dashboard element. */
  datatype RunState = Inactive | Starting | Running | Debugging | Paused | Crashed | Flapping | Unknown

  /** The Boot Dashboard columns this target shows. */
  datatype BootDashColumn = RunStateIcn | App | Project | Instances | Host | DefaultPath | Tags

  /** A domain, a space and a buildpack of the target, as far as the rules here look into them. */
  datatype CloudDomain = CloudDomain(name: string)
  datatype CloudSpace = CloudSpace(name: string, organization: string)
  datatype Buildpack = Buildpack(name: string)

  /** A connected Cloud Foundry client. */
  datatype Client = Client(cloudControllerUrl: string)

  /** The static description of how the target is configured, built from the client and the credentials. */
  datatype CloudInfoV2 = CloudInfoV2(username: string, password: string, cloudControllerUrl: string, selfSigned: bool)

  /** The remote calls the target makes, in the order it makes them. */
  datatype RemoteCall = CreateClient | Logout | FetchDomains | FetchSpaces | FetchBuildpacks

  /** The API endpoint of Pivotal Web Services. */
  const PwsUrl: string := "https://api.run.pivotal.io"

  /** The marker a Java buildpack's name contains. */
  const JavaBuildpackMarker: string := "java_buildpack"

  // ---------------------------------------------------------------------------
  // Constant tables
  // ---------------------------------------------------------------------------

  /** `supportedGoalStates`: the states a user may ask an application on this target to reach. */
  function SupportedGoalStates(): (r: set<RunState>)
    ensures forall s :: s in r <==> s.Inactive? || s.Starting? || s.Running? || s.Debugging?
  {
    {Inactive, Starting, Running, Debugging}
  }

  /** `getDefaultColumns`. */
  function DefaultColumns(): (r: seq<BootDashColumn>)
    ensures Host !in r
  {
    [RunStateIcn, App, Project, Instances, DefaultPath, Tags]
  }

  /** `getAllColumns`: the default columns with the host column added right after the instances column. */
  function AllColumns(): (r: seq<BootDashColumn>)
    ensures r == DefaultColumns()[..4] + [Host] + DefaultColumns()[4..]
    ensures DefaultColumns()[3] == Instances
    ensures forall c :: c in r <==> c in DefaultColumns() || c == Host
  {
    [RunStateIcn, App, Project, Instances, Host, DefaultPath, Tags]
  }

  // ---------------------------------------------------------------------------
  // URL rules
  // ---------------------------------------------------------------------------

  /** The configured URL with every trailing `'/'` removed. */
  function NormalizedUrl(url: string): (r: string)
    ensures !HasSuffix(r, "/")
    ensures |r| <= |url| && url[..|r|] == r
    ensures forall i :: |r| <= i < |url| ==> url[i] == '/'
  {
    if |url| > 0 && url[|url| - 1] == '/' then NormalizedUrl(url[..|url| - 1]) else url
  }

  /** `isPWS`: the URL, once normalised, is the Pivotal Web Services endpoint. */
  predicate IsPwsUrl(url: string) {
    NormalizedUrl(url) == PwsUrl
  }

  /** Any number of trailing slashes, and nothing else, still names Pivotal Web Services. */
  lemma IsPwsUrlExactly(url: string)
    ensures IsPwsUrl(url) <==>
      |PwsUrl| <= |url| && url[..|PwsUrl|] == PwsUrl && forall i :: |PwsUrl| <= i < |url| ==> url[i] == '/'
  {
    if |PwsUrl| <= |url| && url[..|PwsUrl|] == PwsUrl && forall i :: |PwsUrl| <= i < |url| ==> url[i] == '/' {
      var r := NormalizedUrl(url);
      assert PwsUrl[|PwsUrl| - 1] == 'o';
      assert url[|PwsUrl| - 1] == 'o';
      assert |PwsUrl| <= |r|;
      assert |r| == |PwsUrl|;
    }
  }

  // ---------------------------------------------------------------------------
  // Buildpack selection
  // ---------------------------------------------------------------------------

  predicate IsJavaBuildpack(bp: Buildpack) {
    Contains(bp.name, JavaBuildpackMarker)
  }

  /** The names of the Java buildpacks, in list order. */
  function JavaBuildpackNames(bps: seq<Buildpack>): (r: seq<string>)
    ensures forall n :: n in r <==> exists i :: 0 <= i < |bps| && IsJavaBuildpack(bps[i]) && bps[i].name == n
    ensures |r| <= |bps|
  {
    if bps == [] then []
    else
      var last := bps[|bps| - 1];
      var init := bps[..|bps| - 1];
      var r := JavaBuildpackNames(init) + (if IsJavaBuildpack(last) then [last.name] else []);
      assert forall i :: 0 <= i < |init| ==> init[i] == bps[i];
      r
  }

  lemma {:induction false} JavaBuildpackNamesAppend(a: seq<Buildpack>, b: seq<Buildpack>)
    ensures JavaBuildpackNames(a + b) == JavaBuildpackNames(a) + JavaBuildpackNames(b)
    decreases |b|
  {
    if b == [] {
      assert a + b == a;
    } else {
      var b' := b[..|b| - 1];
      assert (a + b)[..|a + b| - 1] == a + b';
      JavaBuildpackNamesAppend(a, b');
    }
  }

  /** The indices of the Java buildpacks. */
  function JavaIndices(bps: seq<Buildpack>): set<int> {
    set i | 0 <= i < |bps| && IsJavaBuildpack(bps[i])
  }

  /** The indices of the Java buildpacks, one buildpack at a time. */
  lemma JavaIndicesSnoc(bps: seq<Buildpack>)
    requires bps != []
    ensures var n := |bps| - 1;
      && JavaIndices(bps) == JavaIndices(bps[..n]) + (if IsJavaBuildpack(bps[n]) then {n} else {})
      && n !in JavaIndices(bps[..n])
  {
    var n := |bps| - 1;
    forall i ensures i in JavaIndices(bps) <==> i in JavaIndices(bps[..n]) + (if IsJavaBuildpack(bps[n]) then {n} else {}) {
      if 0 <= i < n {
        assert bps[..n][i] == bps[i];
      }
    }
  }

  /** One name per Java buildpack: a repeated name is counted each time. */
  lemma {:induction false} JavaBuildpackCount(bps: seq<Buildpack>)
    ensures |JavaBuildpackNames(bps)| == |JavaIndices(bps)|
    decreases |bps|
  {
    if bps != [] {
      var n := |bps| - 1;
      var init := bps[..n];
      JavaBuildpackCount(init);
      assert forall i :: 0 <= i < n ==> init[i] == bps[i];
      var extra: set<int> := if IsJavaBuildpack(bps[n]) then {n} else {};
      JavaIndicesSnoc(bps);
      assert |JavaIndices(bps)| == |JavaIndices(init)| + |extra|;
      assert |JavaBuildpackNames(bps)| == |JavaBuildpackNames(init)| + |extra|;
    }
  }

  /**
   * The buildpack `getBuildpack` picks: the one Java buildpack when there is
   * exactly one, otherwise None, so that Cloud Foundry's own detection decides.
   */
  method SelectJavaBuildpack(bps: seq<Buildpack>) returns (javaBuildpack: Option<string>)
    ensures javaBuildpack.Some? <==> |JavaBuildpackNames(bps)| == 1
    ensures javaBuildpack.Some? ==> javaBuildpack.value == JavaBuildpackNames(bps)[0]
    ensures javaBuildpack.Some? <==> |JavaIndices(bps)| == 1
  {
    javaBuildpack := None;
    var i := 0;
    while i < |bps|
      invariant 0 <= i <= |bps|
      invariant |JavaBuildpackNames(bps[..i])| <= 1
      invariant javaBuildpack.Some? <==> |JavaBuildpackNames(bps[..i])| == 1
      invariant javaBuildpack.Some? ==> javaBuildpack.value == JavaBuildpackNames(bps[..i])[0]
    {
      var bp := bps[i];
      JavaBuildpackNamesStep(bps, i);
      if Contains(bp.name, JavaBuildpackMarker) {
        if javaBuildpack.None? {
          javaBuildpack := Some(bp.name);
        } else {
          javaBuildpack := None;
          JavaBuildpackNamesPrefix(bps, i + 1);
          break;
        }
      }
      i := i + 1;
    }
    if i == |bps| {
      assert bps[..i] == bps;
    }
    JavaBuildpackCount(bps);
  }

  /** The Java buildpack names of a prefix, one buildpack longer. */
  lemma JavaBuildpackNamesStep(bps: seq<Buildpack>, i: nat)
    requires i < |bps|
    ensures JavaBuildpackNames(bps[..i + 1])
      == JavaBuildpackNames(bps[..i]) + (if IsJavaBuildpack(bps[i]) then [bps[i].name] else [])
  {
    assert bps[..i + 1][..i] == bps[..i];
  }

  /** A prefix has no more Java buildpack names than the whole list. */
  lemma JavaBuildpackNamesPrefix(bps: seq<Buildpack>, k: nat)
    requires k <= |bps|
    ensures |JavaBuildpackNames(bps[..k])| <= |JavaBuildpackNames(bps)|
  {
    JavaBuildpackNamesAppend(bps[..k], bps[k..]);
    assert bps[..k] + bps[k..] == bps;
  }

  /** The buildpack picked is a Java buildpack of the list, and the only one. */
  lemma JavaBuildpackUnique(bps: seq<Buildpack>, i: nat)
    requires |JavaBuildpackNames(bps)| == 1
    requires i < |bps| && IsJavaBuildpack(bps[i])
    ensures bps[i].name == JavaBuildpackNames(bps)[0]
  {
    assert bps[i].name in JavaBuildpackNames(bps);
  }

  // ---------------------------------------------------------------------------
  // The run target
  // ---------------------------------------------------------------------------

  /** A Cloud Foundry run target: its configuration, its client and its caches (None stands for null). */
  class RunTarget {
    const url: string
    const username: string
    const password: string
    const selfSigned: bool

    var domains: Option<seq<CloudDomain>>
    var spaces: Option<seq<CloudSpace>>
    var buildpacks: Option<seq<Buildpack>>
    var cachedCloudInfo: Option<CloudInfoV2>
    var client: Option<Client>

    /** Every remote call made so far. */
    ghost var calls: seq<RemoteCall>

    /** True iff no cache holds anything. */
    predicate CachesCleared()
      reads this
    {
      domains.None? && spaces.None? && buildpacks.None? && cachedCloudInfo.None?
    }

    constructor (url: string, username: string, password: string, selfSigned: bool)
      ensures this.url == url && this.username == username && this.password == password && this.selfSigned == selfSigned
      ensures CachesCleared() && client.None? && calls == []
    {
      this.url := url;
      this.username := username;
      this.password := password;
      this.selfSigned := selfSigned;
      domains, spaces, buildpacks, cachedCloudInfo := None, None, None, None;
      client := None;
      calls := [];
    }

    /**
     * `connect`: empties the caches, then creates a client. When creation
     * fails the client slot is emptied and the exception passed on.
     */
    method Connect(created: Fetch<Client>) returns (error: Option<string>)
      modifies this
      ensures CachesCleared()
      ensures client == if created.Value? then Some(created.v) else None
      ensures error == if created.Raised? then Some(created.message) else None
      ensures calls == old(calls) + [CreateClient]
    {
      cachedCloudInfo := None;
      domains := None;
      spaces := None;
      buildpacks := None;
      calls := calls + [CreateClient];
      match created
      case Value(c) =>
        client := Some(c);
        error := None;
      case Null =>
        client := None;
        error := None;
      case Raised(message) =>
        client := None;
        error := Some(message);
    }

    /** `disconnect`: empties the caches and the client slot, logging out a client that was there. */
    method Disconnect()
      modifies this
      ensures CachesCleared() && client.None?
      ensures calls == old(calls) + if old(client).Some? then [Logout] else []
    {
      cachedCloudInfo := None;
      domains := None;
      spaces := None;
      buildpacks := None;
      if client.Some? {
        calls := calls + [Logout];
        client := None;
      }
    }

    /** `refresh`: a disconnect followed by a connect, so fresh credentials are checked. */
    method Refresh(created: Fetch<Client>) returns (error: Option<string>)
      modifies this
      ensures CachesCleared()
      ensures client == if created.Value? then Some(created.v) else None
      ensures error == if created.Raised? then Some(created.message) else None
      ensures calls == old(calls) + (if old(client).Some? then [Logout] else []) + [CreateClient]
    {
      Disconnect();
      error := Connect(created);
    }

    /**
     * `getDomains`: fetches only while the cache is empty; otherwise hands
     * back the cached list without a remote call.
     */
    method GetDomains(fetched: Fetch<seq<CloudDomain>>) returns (r: Fetch<seq<CloudDomain>>)
      modifies this
      ensures old(domains).Some? ==> r == Value(old(domains).value) && domains == old(domains) && calls == old(calls)
      ensures old(domains).None? ==> r == fetched && calls == old(calls) + [FetchDomains]
      ensures old(domains).None? ==> domains == if fetched.Value? then Some(fetched.v) else None
      ensures spaces == old(spaces) && buildpacks == old(buildpacks)
      ensures cachedCloudInfo == old(cachedCloudInfo) && client == old(client)
    {
      if domains.None? {
        calls := calls + [FetchDomains];
        if fetched.Value? {
          domains := Some(fetched.v);
        }
        r := fetched;
      } else {
        r := Value(domains.value);
      }
    }

    /** `getSpaces`: the same lazy rule for the list of spaces. */
    method GetSpaces(fetched: Fetch<seq<CloudSpace>>) returns (r: Fetch<seq<CloudSpace>>)
      modifies this
      ensures old(spaces).Some? ==> r == Value(old(spaces).value) && spaces == old(spaces) && calls == old(calls)
      ensures old(spaces).None? ==> r == fetched && calls == old(calls) + [FetchSpaces]
      ensures old(spaces).None? ==> spaces == if fetched.Value? then Some(fetched.v) else None
      ensures domains == old(domains) && buildpacks == old(buildpacks)
      ensures cachedCloudInfo == old(cachedCloudInfo) && client == old(client)
    {
      if spaces.None? {
        calls := calls + [FetchSpaces];
        if fetched.Value? {
          spaces := Some(fetched.v);
        }
        r := fetched;
      } else {
        r := Value(spaces.value);
      }
    }

    /**
     * `getCloudInfoV2`: built once from the credentials and the client's
     * cloud controller URL, then cached; without a client the call fails
     * (a null dereference in Spring IDE's code) and nothing is cached.
     */
    method GetCloudInfoV2() returns (r: Result<CloudInfoV2, string>)
      modifies this
      ensures old(cachedCloudInfo).Some? ==> r == Success(old(cachedCloudInfo).value) && cachedCloudInfo == old(cachedCloudInfo)
      ensures old(cachedCloudInfo).None? && client.None? ==> r.Failure? && cachedCloudInfo.None?
      ensures old(cachedCloudInfo).None? && client.Some? ==>
        r == Success(CloudInfoV2(username, password, client.value.cloudControllerUrl, selfSigned))
        && cachedCloudInfo == Some(r.value)
      ensures domains == old(domains) && spaces == old(spaces) && buildpacks == old(buildpacks)
      ensures client == old(client) && calls == old(calls)
    {
      if cachedCloudInfo.None? {
        if client.None? {
          return Failure("NullPointerException");
        }
        cachedCloudInfo := Some(CloudInfoV2(username, password, client.value.cloudControllerUrl, selfSigned));
      }
      r := Success(cachedCloudInfo.value);
    }

    /**
     * `getBuildpack`: for a project (a Java project in Spring IDE's code), fetches
     * the buildpacks once and caches them, then picks the single Java
     * buildpack. A failed or null fetch gives None and caches nothing.
     */
    method GetBuildpack(project: Option<string>, fetched: Fetch<seq<Buildpack>>) returns (r: Option<string>)
      modifies this
      ensures project.None? ==> r.None? && buildpacks == old(buildpacks) && calls == old(calls)
      ensures project.Some? && old(buildpacks).Some? ==> buildpacks == old(buildpacks) && calls == old(calls)
      ensures project.Some? && old(buildpacks).None? ==>
        calls == old(calls) + [FetchBuildpacks]
        && buildpacks == if fetched.Value? then Some(fetched.v) else None
      ensures project.Some? && buildpacks.Some? ==>
        (r.Some? <==> |JavaBuildpackNames(buildpacks.value)| == 1)
        && (r.Some? ==> r.value == JavaBuildpackNames(buildpacks.value)[0])
      ensures buildpacks.None? ==> r.None?
      ensures domains == old(domains) && spaces == old(spaces)
      ensures cachedCloudInfo == old(cachedCloudInfo) && client == old(client)
    {
      r := None;
      if project.Some? {
        if buildpacks.None? {
          calls := calls + [FetchBuildpacks];
          if fetched.Raised? {
            return None;
          }
          if fetched.Value? {
            buildpacks := Some(fetched.v);
          }
        }
        if buildpacks.Some? {
          r := SelectJavaBuildpack(buildpacks.value);
        }
      }
    }

    /** `getUrl`: the configured URL with its trailing slashes stripped one by one. */
    method GetUrl() returns (r: string)
      ensures r == NormalizedUrl(url)
    {
      r := url;
      while HasSuffix(r, "/")
        invariant NormalizedUrl(r) == NormalizedUrl(url)
        decreases |r|
      {
        r := r[..|r| - 1];
      }
    }

    /** `isPWS`: the configured URL is the Pivotal Web Services endpoint, up to trailing slashes. */
    predicate IsPWS(): (r: bool)
      ensures r <==> |PwsUrl| <= |url| && url[..|PwsUrl|] == PwsUrl && forall i :: |PwsUrl| <= i < |url| ==> url[i] == '/'
    {
      IsPwsUrlExactly(url);
      IsPwsUrl(url)
    }
  }

  /**
   * Asking twice for the domains fetches once: the second call hands back
   * what the first one cached, whatever the client would now return.
   */
  method DomainsFetchedOnce(t: RunTarget, first: Fetch<seq<CloudDomain>>, second: Fetch<seq<CloudDomain>>)
    returns (r1: Fetch<seq<CloudDomain>>, r2: Fetch<seq<CloudDomain>>)
    modifies t
    ensures first.Value? && old(t.domains).None? ==> r1 == first && r2 == first
    ensures old(t.domains).Some? || first.Value? ==> |t.calls| <= |old(t.calls)| + 1
  {
    r1 := t.GetDomains(first);
    r2 := t.GetDomains(second);
  }
}
