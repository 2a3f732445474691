/**
 * The authorization-flow orchestrator of Thomaswelton\LaravelOauth\OAuth.
 *
 * The framework facades become explicit values. Config::get reads a
 * configuration map, Input::get reads the callback's query parameters, and
 * Session is a map field of the class OAuth. The client library's service
 * classes become a registry of provider names. Its network calls
 * (requestRequestToken, requestAccessToken) and its token storage
 * (retrieveAccessToken) become parameters: their answers are inputs to
 * the model.
 */
module LaravelOauth {
  import opened Wrappers
  import PhpStrings
  import opened StateCodec

  // ---------------------------------------------------------------------------
  // Provider classification

  datatype Protocol = OAuth1 | OAuth2

  /** The providers that have an OAuth1 or an OAuth2 service class in the client library. */
  datatype Registry = Registry(oauth1: set<string>, oauth2: set<string>)

  /** OAuth::isOAuth2. */
  predicate IsOAuth2(registry: Registry, provider: string) {
    provider in registry.oauth2
  }

  /** OAuth::isOAuth1. */
  predicate IsOAuth1(registry: Registry, provider: string) {
    provider in registry.oauth1
  }

  /** OAuth::serviceExists: the provider has a service class of either kind. */
  predicate ServiceExists(registry: Registry, provider: string): (b: bool)
    ensures b <==> ProtocolOf(registry, provider).Some?
  {
    IsOAuth2(registry, provider) || IsOAuth1(registry, provider)
  }

  /**
   * The protocol that every branch of the orchestrator selects. Each branch
   * asks isOAuth2 first, so a provider with both kinds of class is OAuth2.
   */
  function ProtocolOf(registry: Registry, provider: string): (p: Option<Protocol>)
    ensures p.Some? <==> IsOAuth1(registry, provider) || IsOAuth2(registry, provider)
    ensures p == Some(OAuth2) <==> IsOAuth2(registry, provider)
    ensures p == Some(OAuth1) <==> IsOAuth1(registry, provider) && !IsOAuth2(registry, provider)
  {
    if IsOAuth2(registry, provider) then Some(OAuth2)
    else if IsOAuth1(registry, provider) then Some(OAuth1)
    else None
  }

  // ---------------------------------------------------------------------------
  // Configuration, credentials and scopes

  /** The laravel-oauth::{provider}.key, .secret and .scope entries; a missing entry reads as null. */
  datatype ProviderConfig = ProviderConfig(key: Option<string>, secret: Option<string>, scope: Option<string>)

  type Config = map<string, ProviderConfig>

  function ConfigOf(config: Config, provider: string): ProviderConfig {
    if provider in config then config[provider] else ProviderConfig(None, None, None)
  }

  /** The consumer credentials; the callback is the application URL of the path oauth/{provider}. */
  datatype Credentials = Credentials(key: Option<string>, secret: Option<string>, callbackPath: string)

  /** OAuth::getCredentials: the configured key and secret, null where not configured, and the callback path. */
  function GetCredentials(config: Config, provider: string): (c: Credentials)
    ensures provider in config ==> c.key == config[provider].key && c.secret == config[provider].secret
    ensures provider !in config ==> c.key.None? && c.secret.None?
    ensures c.callbackPath == "oauth/" + provider
  {
    Credentials(ConfigOf(config, provider).key, ConfigOf(config, provider).secret, "oauth/" + provider)
  }

  /**
   * array_map("trim", explode(',', s)): one scope per comma-separated piece,
   * in order, each with its surrounding whitespace trimmed.
   */
  function ScopeList(s: string): (scopes: seq<string>)
    ensures |scopes| == |PhpStrings.Explode(s)| == multiset(s)[','] + 1
    ensures forall i :: 0 <= i < |scopes| ==> scopes[i] == PhpStrings.Trim(PhpStrings.Explode(s)[i])
    ensures forall i :: 0 <= i < |scopes| ==> PhpStrings.IsTrimmed(scopes[i])
  {
    var pieces := PhpStrings.Explode(s);
    PhpStrings.ExplodeCount(s);
    seq(|pieces|, i requires 0 <= i < |pieces| => PhpStrings.Trim(pieces[i]))
  }

  /** OAuth::getScopes: the configured scope string as a list; a missing entry reads as "". */
  function GetScopes(config: Config, provider: string): (scopes: seq<string>)
    ensures |scopes| >= 1
    ensures ConfigOf(config, provider).scope.Some? ==> scopes == ScopeList(ConfigOf(config, provider).scope.value)
    ensures ConfigOf(config, provider).scope.None? ==> scopes == [""]
  {
    match ConfigOf(config, provider).scope
    case Some(s) => ScopeList(s)
    case None => ScopeList("")
  }

  /** The scopes getServiceFactory computes: the override string when one is given, the configured scopes otherwise. */
  function ResolveScopes(config: Config, provider: string, scope: Option<string>): (scopes: seq<string>)
    ensures scope.Some? ==> scopes == ScopeList(scope.value)
    ensures scope.None? ==> scopes == GetScopes(config, provider)
  {
    match scope
    case Some(s) => ScopeList(s)
    case None => GetScopes(config, provider)
  }

  /** A scope string written as comma-joined pieces lists exactly those pieces, trimmed. */
  lemma {:induction false} ScopeListOfJoined(pieces: seq<string>)
    requires |pieces| > 0
    requires forall i :: 0 <= i < |pieces| ==> ',' !in pieces[i]
    ensures |ScopeList(PhpStrings.Implode(pieces))| == |pieces|
    ensures forall i :: 0 <= i < |pieces| ==> ScopeList(PhpStrings.Implode(pieces))[i] == PhpStrings.Trim(pieces[i])
  {
    PhpStrings.ExplodeImplode(pieces);
  }

  // ---------------------------------------------------------------------------
  // Failures

  /** The exceptions the orchestrator raises or lets through. */
  datatype Failure =
    | ServiceNotSupported(provider: string)  // ServiceNotSupportedException
    | UserDenied(message: string)            // UserDeniedException
    | Exception(message: string)             // Exception
    | TokenNotFound(namespace: string)       // the token storage has nothing under this namespace
    | TokenResponse(message: string)         // TokenResponseException of a request-token fetch, not caught

  // ---------------------------------------------------------------------------
  // Services

  /** The service object createService builds: its provider, protocol, credentials and scopes. */
  datatype Service = Service(provider: string, protocol: Protocol, credentials: Credentials, scopes: seq<string>)

  /**
   * OAuth::getServiceFactory. An unknown provider fails before anything else
   * is looked at. An OAuth2 service gets the resolved scopes; an OAuth1
   * service is created without scopes.
   */
  function GetServiceFactory(registry: Registry, config: Config, provider: string, scope: Option<string>): (r: Result<Service, Failure>)
    ensures r.Err? <==> !ServiceExists(registry, provider)
    ensures r.Err? ==> r.error == ServiceNotSupported(provider)
    ensures r.Ok? ==> r.value.provider == provider && ProtocolOf(registry, provider) == Some(r.value.protocol)
    ensures r.Ok? ==> r.value.credentials == GetCredentials(config, provider)
    ensures r.Ok? && r.value.protocol == OAuth2 ==> r.value.scopes == ResolveScopes(config, provider, scope)
    ensures r.Ok? && r.value.protocol == OAuth1 ==> r.value.scopes == []
  {
    if !ServiceExists(registry, provider) then Err(ServiceNotSupported(provider))
    else
      var credentials := GetCredentials(config, provider);
      var scopes := ResolveScopes(config, provider, scope);
      if IsOAuth2(registry, provider) then Ok(Service(provider, OAuth2, credentials, scopes))
      else Ok(Service(provider, OAuth1, credentials, []))
  }

  /** The class name get_class reports for a service: OAuth\OAuth1\Service\{provider} or OAuth\OAuth2\Service\{provider}. */
  function ServiceClassName(service: Service): string {
    "OAuth\\" + (if service.protocol == OAuth2 then "OAuth2" else "OAuth1") + "\\Service\\" + service.provider
  }

  /**
   * OAuth::getStorageNamespace: the service's class name without its
   * namespace, which for a provider name free of backslashes and newlines is
   * the provider name itself.
   */
  function GetStorageNamespace(service: Service): (namespace: string)
    ensures '\\' !in service.provider && '\n' !in service.provider ==> namespace == service.provider
  {
    var name := ServiceClassName(service);
    NamespaceOfClassName(service);
    PhpStrings.StripThroughLastBackslash(name)
  }

  lemma {:induction false} NamespaceOfClassName(service: Service)
    ensures '\\' !in service.provider && '\n' !in service.provider ==>
      PhpStrings.StripThroughLastBackslash(ServiceClassName(service)) == service.provider
  {
    var p := service.provider;
    if '\\' !in p && '\n' !in p {
      var prefix := "OAuth\\" + (if service.protocol == OAuth2 then "OAuth2" else "OAuth1") + "\\Service\\";
      var name := prefix + p;
      assert name == ServiceClassName(service);
      assert '\n' !in prefix;
      assert name[|prefix| - 1] == '\\';
      var r := PhpStrings.StripThroughLastBackslash(name);
      assert r == name[|name| - |r|..];
      assert name[|prefix|..] == p;
    }
  }

  // ---------------------------------------------------------------------------
  // Callback checks

  /** The callback's query parameters; Input::get gives null for one that is absent. */
  type Query = map<string, string>

  function Param(query: Query, name: string): Option<string> {
    if name in query then Some(query[name]) else None
  }

  /** Input::get('state'), where a missing parameter reaches base64_decode as the empty string. */
  function StateParam(query: Query): string {
    match Param(query, "state")
    case Some(s) => s
    case None => ""
  }

  /** PHP truthiness of a request parameter: null, "" and "0" are false. */
  predicate Truthy(v: Option<string>) {
    v.Some? && v.value != "" && v.value != "0"
  }

  /**
   * The OAuth2 callback check of requestAccessToken, following the error
   * response of section 4.1.2.1 of RFC 6749: a truthy `error` fails with
   * `error_description` when that is truthy and with `error` otherwise,
   * as UserDenied for access_denied and as Exception for anything else.
   * Without a truthy `error` the `code` parameter goes to the exchange.
   */
  function CheckOAuth2Callback(query: Query): (r: Result<Option<string>, Failure>)
    ensures r.Ok? <==> !Truthy(Param(query, "error"))
    ensures r.Ok? ==> r.value == Param(query, "code")
    ensures r.Err? ==> (r.error.UserDenied? <==> Param(query, "error") == Some("access_denied"))
    ensures r.Err? ==> (r.error.Exception? <==> Param(query, "error") != Some("access_denied"))
    ensures r.Err? && (r.error.UserDenied? || r.error.Exception?) ==>
      && Truthy(Some(r.error.message))
      && (Truthy(Param(query, "error_description")) ==> Some(r.error.message) == Param(query, "error_description"))
      && (!Truthy(Param(query, "error_description")) ==> Some(r.error.message) == Param(query, "error"))
  {
    var error := Param(query, "error");
    if Truthy(error) then
      var description := Param(query, "error_description");
      var message := if Truthy(description) then description.value else error.value;
      if error.value == "access_denied" then Err(UserDenied(message)) else Err(Exception(message))
    else Ok(Param(query, "code"))
  }

  /** The message of the UserDeniedException an OAuth1 denial raises. */
  const DeniedMessage: string := "User Denied OAuth Permissions"
  /** The message of the Exception a missing OAuth1 token raises. */
  const TokenNotFoundMessage: string := "OAuth token not found"

  /**
   * The OAuth1 callback check of requestAccessToken. A truthy `denied`, or an
   * `oauth_token` of "denied", is a denial and is checked first. Otherwise the
   * `oauth_token` of section 2.3 of RFC 5849 must be truthy, and it goes to the
   * exchange with the `oauth_verifier` parameter.
   */
  function CheckOAuth1Callback(query: Query): (r: Result<(string, Option<string>), Failure>)
    ensures Truthy(Param(query, "denied")) || Param(query, "oauth_token") == Some("denied") ==>
      r == Err(UserDenied(DeniedMessage))
    ensures !Truthy(Param(query, "denied")) && Param(query, "oauth_token") != Some("denied") && !Truthy(Param(query, "oauth_token")) ==>
      r == Err(Exception(TokenNotFoundMessage))
    ensures r.Ok? <==> !Truthy(Param(query, "denied")) && Param(query, "oauth_token") != Some("denied") && Truthy(Param(query, "oauth_token"))
    ensures r.Ok? ==> Some(r.value.0) == Param(query, "oauth_token") && r.value.1 == Param(query, "oauth_verifier")
  {
    var token := Param(query, "oauth_token");
    if Truthy(Param(query, "denied")) || token == Some("denied") then Err(UserDenied(DeniedMessage))
    else if !Truthy(token) then Err(Exception(TokenNotFoundMessage))
    else Ok((token.value, Param(query, "oauth_verifier")))
  }

  // ---------------------------------------------------------------------------
  // Tokens, exchanges and the session

  /** The access token object the client library returns; the orchestrator only stores and returns it. */
  datatype AccessToken = AccessToken(accessToken: string, secret: Option<string>)

  /** The OAuth1 temporary credentials of section 2.1 of RFC 5849: the request token and its secret. */
  datatype RequestToken = RequestToken(token: string, secret: string)

  /** What the orchestrator asks the library's requestAccessToken to exchange. */
  datatype ExchangeRequest =
    | OAuth2Code(code: Option<string>)
    | OAuth1Verifier(token: string, verifier: Option<string>, requestTokenSecret: string)

  /**
   * The library's answer to an exchange: the access token, or the message of
   * the TokenResponseException it throws.
   */
  type Exchange = ExchangeRequest -> Result<AccessToken, string>

  /** The catch around the exchange: a TokenResponseException is re-thrown as Exception with the same message. */
  function RethrowTokenResponse(reply: Result<AccessToken, string>): (r: Result<AccessToken, Failure>)
    ensures reply.Ok? ==> r == Ok(reply.value)
    ensures reply.Err? ==> r == Err(Exception(reply.error))
  {
    match reply
    case Ok(token) => Ok(token)
    case Err(message) => Err(Exception(message))
  }

  /** A session entry: an access token, or an encoded flow state. */
  datatype SessionValue = StoredToken(token: AccessToken) | StoredState(state: string)

  /** The session key of a provider's access token. */
  function TokenKey(provider: string): string {
    "oauth_token_" + provider
  }

  /** The session key of the flow state of a pending OAuth1 authorization. */
  function StateKey(requestToken: string): string {
    requestToken + "_state"
  }

  /** The query parameters handed to the library's getAuthorizationUri, and the service that builds the URL. */
  datatype AuthorizationRequest = AuthorizationRequest(service: Service, params: map<string, string>)

  // ---------------------------------------------------------------------------
  // The orchestrator

  class OAuth {
    const registry: Registry
    const config: Config
    /** The framework session, the one piece of state the orchestrator changes. */
    var session: map<string, SessionValue>

    constructor (registry: Registry, config: Config, session: map<string, SessionValue>)
      ensures this.registry == registry && this.config == config && this.session == session
    {
      this.registry := registry;
      this.config := config;
      this.session := session;
    }

    /** OAuth::token: the session entry under the provider's token key, or null. */
    function Token(provider: string): (t: Option<SessionValue>)
      reads this
      ensures t.Some? <==> TokenKey(provider) in session
      ensures t.Some? ==> t.value == session[TokenKey(provider)]
    {
      if TokenKey(provider) in session then Some(session[TokenKey(provider)]) else None
    }

    /** OAuth::hasToken: whether token(provider) gives a token. */
    predicate HasToken(provider: string): (b: bool)
      reads this
      ensures b <==> Token(provider).Some?
    {
      TokenKey(provider) in session
    }

    /** OAuth::getOAuth1State: the session entry under the request token's state key, or null. */
    function GetOAuth1State(requestToken: string): (s: Option<SessionValue>)
      reads this
      ensures s.Some? <==> StateKey(requestToken) in session
      ensures s.Some? ==> s.value == session[StateKey(requestToken)]
    {
      if StateKey(requestToken) in session then Some(session[StateKey(requestToken)]) else None
    }

    /** OAuth::setOAuth1State: stores the state under the request token's state key and changes nothing else. */
    method SetOAuth1State(requestToken: string, state: string)
      modifies this
      ensures session == old(session)[StateKey(requestToken) := StoredState(state)]
      ensures GetOAuth1State(requestToken) == Some(StoredState(state))
    {
      session := session[StateKey(requestToken) := StoredState(state)];
    }

    /**
     * OAuth::getAuthorizationUri. The redirect travels in the encoded flow
     * state: in the `state` parameter of section 4.1.1 of RFC 6749 for OAuth2;
     * for OAuth1, stored in the session under the fetched request token,
     * which becomes the `oauth_token` parameter.
     * `requestTokenReply` is the answer of the library's requestRequestToken.
     */
    method GetAuthorizationUri(provider: string, redirect: Option<string>, scope: Option<string>,
                               requestTokenReply: Result<RequestToken, string>)
      returns (r: Result<AuthorizationRequest, Failure>)
      modifies this
      ensures !ServiceExists(registry, provider) ==> r == Err(ServiceNotSupported(provider)) && session == old(session)
      ensures r.Ok? ==> GetServiceFactory(registry, config, provider, scope) == Ok(r.value.service)
      ensures ProtocolOf(registry, provider) == Some(OAuth2) ==>
        && session == old(session)
        && r.Ok? && r.value.params == map["state" := EncodeState(FlowState(redirect))]
      ensures ProtocolOf(registry, provider) == Some(OAuth1) && requestTokenReply.Err? ==>
        r == Err(TokenResponse(requestTokenReply.error)) && session == old(session)
      ensures ProtocolOf(registry, provider) == Some(OAuth1) && requestTokenReply.Ok? ==>
        var requestToken := requestTokenReply.value.token;
        && r.Ok? && r.value.params == map["oauth_token" := requestToken]
        && session == old(session)[StateKey(requestToken) := StoredState(EncodeState(FlowState(redirect)))]
        && GetOAuth1State(requestToken) == Some(StoredState(EncodeState(FlowState(redirect))))
    {
      var factory := GetServiceFactory(registry, config, provider, scope);
      if factory.Err? {
        return Err(factory.error);
      }
      var state := EncodeState(FlowState(redirect));
      var params: map<string, string>;
      if IsOAuth2(registry, provider) {
        params := map["state" := state];
      } else {
        if requestTokenReply.Err? {
          return Err(TokenResponse(requestTokenReply.error));
        }
        var requestToken := requestTokenReply.value.token;
        SetOAuth1State(requestToken, state);
        params := map["oauth_token" := requestToken];
      }
      r := Ok(AuthorizationRequest(factory.value, params));
    }

    /**
     * OAuth::requestAccessToken, called on the provider's callback.
     * `storage` is the library's token storage, keyed by storage namespace;
     * `exchange` is the library's requestAccessToken.
     * Only a successful exchange changes the session, and then only under
     * the provider's token key.
     */
    method RequestAccessToken(provider: string, query: Query, storage: map<string, RequestToken>, exchange: Exchange)
      returns (r: Result<AccessToken, Failure>)
      modifies this
      ensures r.Ok? ==> session == old(session)[TokenKey(provider) := StoredToken(r.value)]
      ensures r.Ok? ==> Token(provider) == Some(StoredToken(r.value)) && HasToken(provider)
      ensures r.Err? ==> session == old(session)
      ensures !ServiceExists(registry, provider) ==> r == Err(ServiceNotSupported(provider))
      ensures ProtocolOf(registry, provider) == Some(OAuth2) && CheckOAuth2Callback(query).Err? ==>
        r == Err(CheckOAuth2Callback(query).error)
      ensures ProtocolOf(registry, provider) == Some(OAuth2) && CheckOAuth2Callback(query).Ok? ==>
        r == RethrowTokenResponse(exchange(OAuth2Code(Param(query, "code"))))
      ensures ProtocolOf(registry, provider) == Some(OAuth1) && CheckOAuth1Callback(query).Err? ==>
        r == Err(CheckOAuth1Callback(query).error)
      ensures ProtocolOf(registry, provider) == Some(OAuth1) && CheckOAuth1Callback(query).Ok? ==>
        var namespace := GetStorageNamespace(GetServiceFactory(registry, config, provider, None).value);
        var (token, verifier) := CheckOAuth1Callback(query).value;
        && (namespace !in storage ==> r == Err(TokenNotFound(namespace)))
        && (namespace in storage ==>
              r == RethrowTokenResponse(exchange(OAuth1Verifier(token, verifier, storage[namespace].secret))))
    {
      var factory := GetServiceFactory(registry, config, provider, None);
      if factory.Err? {
        return Err(factory.error);
      }
      var service := factory.value;
      var reply: Result<AccessToken, string>;
      if IsOAuth2(registry, provider) {
        var check := CheckOAuth2Callback(query);
        if check.Err? {
          return Err(check.error);
        }
        reply := exchange(OAuth2Code(check.value));
      } else {
        var check := CheckOAuth1Callback(query);
        if check.Err? {
          return Err(check.error);
        }
        var namespace := GetStorageNamespace(service);
        if namespace !in storage {
          return Err(TokenNotFound(namespace));
        }
        reply := exchange(OAuth1Verifier(check.value.0, check.value.1, storage[namespace].secret));
      }
      if reply.Err? {
        return Err(Exception(reply.error));
      }
      session := session[TokenKey(provider) := StoredToken(reply.value)];
      r := Ok(reply.value);
    }

    /**
     * OAuth::getRedirectFromState. For OAuth2 the state comes from the `state`
     * query parameter; for OAuth1 from the session, under the request token
     * the library's storage holds for the service. A state that is missing
     * or cannot be decoded gives no redirect.
     */
    function GetRedirectFromState(provider: string, query: Query, storage: map<string, RequestToken>): (r: Result<Option<string>, Failure>)
      reads this
      ensures !ServiceExists(registry, provider) ==> r == Err(ServiceNotSupported(provider))
      ensures ProtocolOf(registry, provider) == Some(OAuth2) ==>
        var decoded := DecodeState(StateParam(query));
        && (decoded.None? ==> r == Ok(None))
        && (decoded.Some? ==> r == Ok(decoded.value.redirect))
      ensures ProtocolOf(registry, provider) == Some(OAuth1) ==>
        var namespace := GetStorageNamespace(GetServiceFactory(registry, config, provider, None).value);
        (r.Err? <==> namespace !in storage) && (r.Err? ==> r.error == TokenNotFound(namespace))
      ensures ProtocolOf(registry, provider) == Some(OAuth1) ==>
        var namespace := GetStorageNamespace(GetServiceFactory(registry, config, provider, None).value);
        namespace in storage ==>
          var stored := GetOAuth1State(storage[namespace].token);
          && (!(stored.Some? && stored.value.StoredState?) ==> r == Ok(None))
          && (stored.Some? && stored.value.StoredState? ==>
                var decoded := DecodeState(stored.value.state);
                && (decoded.None? ==> r == Ok(None))
                && (decoded.Some? ==> r == Ok(decoded.value.redirect)))
    {
      if IsOAuth2(registry, provider) then
        Ok(RedirectOf(DecodeState(StateParam(query))))
      else
        match GetServiceFactory(registry, config, provider, None)
        case Err(failure) => Err(failure)
        case Ok(service) =>
          var namespace := GetStorageNamespace(service);
          if namespace !in storage then Err(TokenNotFound(namespace))
          else
            match GetOAuth1State(storage[namespace].token)
            case Some(StoredState(state)) => Ok(RedirectOf(DecodeState(state)))
            case _ => Ok(None)
    }

    /** OAuth2: the redirect getAuthorizationUri put in the `state` parameter comes back from the callback. */
    lemma {:induction false} OAuth2RedirectRecovered(provider: string, redirect: Option<string>, query: Query, storage: map<string, RequestToken>)
      requires IsOAuth2(registry, provider)
      requires Param(query, "state") == Some(EncodeState(FlowState(redirect)))
      ensures GetRedirectFromState(provider, query, storage) == Ok(redirect)
    {
      RedirectRoundTrip(redirect);
    }

    /**
     * OAuth1: once the state for `redirect` is stored under a request token,
     * and the library's storage holds that request token for the service,
     * the redirect comes back.
     */
    lemma {:induction false} OAuth1RedirectRecovered(provider: string, redirect: Option<string>, requestToken: RequestToken,
                                  query: Query, storage: map<string, RequestToken>)
      requires ProtocolOf(registry, provider) == Some(OAuth1)
      requires GetOAuth1State(requestToken.token) == Some(StoredState(EncodeState(FlowState(redirect))))
      requires var service := GetServiceFactory(registry, config, provider, None).value;
        GetStorageNamespace(service) in storage && storage[GetStorageNamespace(service)] == requestToken
      ensures GetRedirectFromState(provider, query, storage) == Ok(redirect)
    {
      RedirectRoundTrip(redirect);
    }
  }
}
