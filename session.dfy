/**
 * The authentication provider (src/hooks/use-auth.hook.tsx): the network
 * flags read from the build environment, the identity-provider URL, and the
 * provider's session state — login flag, auth client, asset manager and
 * identity — as `updateClient`, `login` and `logout` change it.
 */
module Session {
  import opened Wrappers
  import opened JsText

  // ---------------------------------------------------------------------------
  // configuration
  // ---------------------------------------------------------------------------

  /** The build environment (`process.env`) and the page's `window.location.port`. */
  datatype Env = Env(dfxNetwork: Option<string>, canisterId: Option<string>, iiCanisterId: Option<string>, port: string)

  /** `process.env.DFX_NETWORK !== "ic"`: an unset network counts as local. */
  predicate IsLocal(env: Env) {
    env.dfxNetwork != Some("ic")
  }

  /** `process.env.CANISTER_ID || ""`. */
  function CanisterId(env: Env): string {
    OrEmpty(env.canisterId)
  }

  /** The `host` handed to the HTTP agent. */
  function AgentHost(isLocal: bool, port: string): string {
    if isLocal then "http://127.0.0.1:" + port else "https://ic0.app"
  }

  /** The production host is used exactly when the network is "ic"; otherwise the local replica on the page's port. */
  lemma HostFollowsNetwork(env: Env)
    ensures AgentHost(IsLocal(env), env.port) == "https://ic0.app" <==> env.dfxNetwork == Some("ic")
    ensures IsLocal(env) ==> StartsWith(AgentHost(IsLocal(env), env.port), "http://127.0.0.1:")
  {
    if IsLocal(env) {
      var host := AgentHost(IsLocal(env), env.port);
      assert host[4] == ':' && "https://ic0.app"[4] == 's';
    }
  }

  /**
   * The identity provider `login` redirects to: the production Internet
   * Identity when not local; locally, a query parameter for Safari and a
   * subdomain otherwise.
   */
  function IdentityProvider(isLocal: bool, isSafari: bool, ii: string): (url: string)
    ensures url == "https://identity.ic0.app" <==> !isLocal
    ensures isLocal ==> StartsWith(url, "http://") && Includes(url, ii)
    ensures isLocal && isSafari ==> url == "http://localhost:4943/?canisterId=" + ii
    ensures isLocal && !isSafari ==> url == "http://" + ii + ".localhost:4943"
  {
    if isLocal then
      if isSafari then
        var url := "http://localhost:4943/?canisterId=" + ii;
        assert url[4] == ':' && ii <= url[|url| - |ii|..];
        url
      else
        var url := "http://" + ii + ".localhost:4943";
        assert url[4] == ':' && ii <= url[7..];
        url
    else "https://identity.ic0.app"
  }

  // ---------------------------------------------------------------------------
  // session values
  // ---------------------------------------------------------------------------

  /** An identity, known by its principal's text form. */
  datatype Identity = Identity(principal: string)

  /** An auth client handle, as `AuthClient.create()` resolved it. */
  datatype AuthClient = AuthClient(handle: nat)

  /** What the auth client reports: `isAuthenticated()` and `getIdentity()`. */
  datatype Probe = Probe(authenticated: bool, identity: Identity)

  /** An HTTP agent: its host, its identity, and whether its root key has been fetched. */
  datatype Agent = Agent(host: string, identity: Identity, rootKeyFetched: bool)

  /** An asset manager, bound to a canister and an agent. */
  datatype AssetManager = AssetManager(canisterId: string, agent: Agent)

  /** The agent in the state the code hands on: root key fetched exactly when local. */
  function TrustedAgent(env: Env, identity: Identity): (agent: Agent)
    ensures agent.rootKeyFetched <==> IsLocal(env)
    ensures agent.host == AgentHost(IsLocal(env), env.port) && agent.identity == identity
  {
    Agent(AgentHost(IsLocal(env), env.port), identity, IsLocal(env))
  }

  /** The asset manager `updateClient` builds for an identity. */
  function ManagerFor(env: Env, identity: Identity): AssetManager {
    AssetManager(CanisterId(env), TrustedAgent(env, identity))
  }

  /** The principal text of an optional identity (`identity?.getPrincipal().toString()`). */
  function PrincipalOf(identity: Option<Identity>): (p: Option<string>)
    ensures p.Some? <==> identity.Some?
    ensures identity.Some? ==> p.value == identity.value.principal
  {
    match identity case Some(id) => Some(id.principal) case None => None
  }

  /** The context value the provider publishes (its `login`/`logout` members are the methods below). */
  datatype AuthValues = AuthValues(isLogin: bool, assetManager: Option<AssetManager>, identity: Option<Identity>)

  /** The message `useAuth` throws outside the provider. */
  const MissingProvider := "useAuthContext hook must be used inside AuthContext provider"

  /** `useAuth()`: the context value, or an error when there is none. */
  function UseAuth(context: Option<AuthValues>): (r: Result<AuthValues>)
    ensures r.Failure? <==> context.None?
    ensures r.Failure? ==> r.message == MissingProvider
    ensures r.Success? ==> r.value == context.value
  {
    match context
    case None => Failure(MissingProvider)
    case Some(values) => Success(values)
  }

  // ---------------------------------------------------------------------------
  // the provider's state
  // ---------------------------------------------------------------------------

  class AuthProvider {
    const env: Env
    var isLogin: bool
    var authClient: Option<AuthClient>
    var assetManager: Option<AssetManager>
    var identity: Option<Identity>

    /**
     * Every asset manager the provider holds was built from a trusted agent
     * for the configured canister; while logged in there is one, bound to the
     * current identity.
     */
    ghost predicate Valid()
      reads this
    {
      && (assetManager.Some? ==> assetManager.value == ManagerFor(env, assetManager.value.agent.identity))
      && (isLogin ==> authClient.Some? && identity.Some? && assetManager == Some(ManagerFor(env, identity.value)))
    }

    constructor (env: Env)
      ensures this.env == env && Valid()
      ensures !isLogin && authClient == None && assetManager == None && identity == None
    {
      this.env := env;
      isLogin := false;
      authClient := None;
      assetManager := None;
      identity := None;
    }

    /** The context value: `{ isLogin, identity, assetManager }`. */
    function Values(): AuthValues
      reads this
    {
      AuthValues(isLogin, assetManager, identity)
    }

    /** While logged in, the published context value holds an identity and that identity's asset manager. */
    lemma ValuesWhileLoggedIn()
      requires Valid()
      ensures Values().isLogin ==> Values().identity.Some? && Values().assetManager == Some(ManagerFor(env, Values().identity.value))
    {
    }

    /** `updateClient` runs to completion unless the local root-key fetch rejects. */
    predicate UpdateCompletes(probe: Probe, rootKeyFetch: Completion) {
      !(probe.authenticated && IsLocal(env) && rootKeyFetch.Failed?)
    }

    /** The state a completed `updateClient(client)` leaves, given the asset manager held before. */
    ghost predicate UpdatedFrom(client: AuthClient, probe: Probe, previous: Option<AssetManager>)
      reads this
    {
      && isLogin == probe.authenticated
      && identity == Some(probe.identity)
      && authClient == Some(client)
      && assetManager == if probe.authenticated then Some(ManagerFor(env, probe.identity)) else previous
    }

    /**
     * `updateClient(client)`: when authenticated, creates an agent, fetches
     * its root key first when local, and only then installs a new asset
     * manager; when not authenticated the old asset manager stays. Then
     * records the client, the identity and the login flag. A rejected
     * root-key fetch rejects the call before anything is set.
     */
    method UpdateClient(client: AuthClient, probe: Probe, rootKeyFetch: Completion) returns (completed: bool)
      modifies this
      ensures completed <==> UpdateCompletes(probe, rootKeyFetch)
      ensures completed ==> UpdatedFrom(client, probe, old(assetManager))
      ensures !completed ==> unchanged(this)
      ensures old(Valid()) ==> Valid()
    {
      if probe.authenticated {
        var agent := Agent(AgentHost(IsLocal(env), env.port), probe.identity, false);
        if IsLocal(env) {
          if rootKeyFetch.Failed? {
            return false;
          }
          agent := agent.(rootKeyFetched := true);
        }
        assetManager := Some(AssetManager(CanisterId(env), agent));
      }
      authClient := Some(client);
      identity := Some(probe.identity);
      isLogin := probe.authenticated;
      completed := true;
    }

    /**
     * `login()`: nothing without an auth client. Otherwise asks the auth
     * client to log in at the selected identity provider, returned here; a
     * successful sign-in (`onSuccess`) runs `updateClient` with what the
     * client then reports.
     */
    method Login(isSafari: bool, signIn: Option<Probe>, rootKeyFetch: Completion) returns (provider: Option<string>)
      modifies this
      ensures old(authClient).None? ==> provider.None? && unchanged(this)
      ensures old(authClient).Some? ==>
        provider == Some(IdentityProvider(IsLocal(env), isSafari, TemplateText(env.iiCanisterId)))
      ensures old(authClient).Some? && signIn.Some? && UpdateCompletes(signIn.value, rootKeyFetch) ==>
        UpdatedFrom(old(authClient.value), signIn.value, old(assetManager))
      ensures old(authClient).Some? && !(signIn.Some? && UpdateCompletes(signIn.value, rootKeyFetch)) ==> unchanged(this)
      ensures old(Valid()) ==> Valid()
    {
      if authClient.None? {
        return None;
      }
      var client := authClient.value;
      provider := Some(IdentityProvider(IsLocal(env), isSafari, TemplateText(env.iiCanisterId)));
      if signIn.Some? {
        var _ := UpdateClient(client, signIn.value, rootKeyFetch);
      }
    }

    /**
     * `logout()`: nothing without an auth client. Otherwise logs the client
     * out and, once that completes, runs `updateClient` with what the client
     * reports afterwards; a rejected `authClient.logout()` skips it.
     */
    method Logout(loggedOut: Completion, afterLogout: Probe, rootKeyFetch: Completion)
      modifies this
      ensures old(authClient).None? ==> unchanged(this)
      ensures loggedOut.Failed? ==> unchanged(this)
      ensures old(authClient).Some? && loggedOut.Completed? && UpdateCompletes(afterLogout, rootKeyFetch) ==>
        UpdatedFrom(old(authClient.value), afterLogout, old(assetManager))
      ensures old(authClient).Some? && !UpdateCompletes(afterLogout, rootKeyFetch) ==> unchanged(this)
      ensures old(Valid()) ==> Valid()
    {
      if authClient.Some? {
        if loggedOut.Failed? {
          return;
        }
        var _ := UpdateClient(authClient.value, afterLogout, rootKeyFetch);
      }
    }
  }

}
