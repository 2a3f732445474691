# laravel-oauth authorization-flow orchestrator in Dafny

This project models `Thomaswelton\LaravelOauth\OAuth`. That class sits between
a Laravel application and an external OAuth1/OAuth2 client library. It does
the following:

- It decides whether a provider is OAuth1 or OAuth2. OAuth2 wins when both apply.
- It builds the service with credentials and scopes from the configuration.
- It carries the post-login redirect across the trip to the provider. For
  OAuth2 the redirect travels in the `state` parameter. For OAuth1 it is kept
  in the session under the request token.
- On the callback it checks the provider's error and denial parameters. It
  then exchanges the grant for an access token and stores that token in the
  session under `oauth_token_{provider}`.

The Laravel facades become explicit values. `Config::get` reads a map of
provider configurations, and `Input::get` reads a map of query parameters. The
session is the `session` map field of the class `LaravelOauth.OAuth`. It is
changed by `SetOAuth1State`, by `GetAuthorizationUri` (through `SetOAuth1State`,
on the OAuth1 path) and by `RequestAccessToken`. The library's service classes
become a `Registry` of provider names, and the service `createService` would
build becomes a `Service` record that `GetServiceFactory` builds itself. The
library's network calls and token storage become parameters, so their answers
are inputs to the model:

- `requestTokenReply` is the reply of `requestRequestToken`.
- `exchange` is the service's `requestAccessToken`.
- `storage` is what `retrieveAccessToken` reads.

The state codec is concrete, and its round trip is proved rather than assumed.
It is `json_encode` of `{"redirect": r}` (string escaping with PHP's default
flags), followed by `base64_encode`, which uses the alphabet and padding of
section 4 of RFC 4648. Decoding is the non-strict `base64_decode` of PHP 7.0
and later, then reading that JSON text back.

Files:

- `wrappers.dfy`: `Option` and `Result`.
- `base64.dfy`: PHP's `base64_encode` and the non-strict `base64_decode` of PHP 7.0 and later.
- `json.dfy`: PHP's JSON string escaping and string-literal parsing.
- `state_codec.dfy`: `encodeState`, `decodeState` and the flow state.
- `php_strings.dfy`: `explode(',')`, `trim` and the namespace-stripping `preg_replace`.
- `oauth.dfy`: everything else in `OAuth.php`.

## Model

| member | source | states |
|---|---|---|
| `LaravelOauth.ProtocolOf` | src/Thomaswelton/LaravelOauth/OAuth.php:105-119 | isOAuth2 and isOAuth1 decide the protocol every branch takes: a provider has one iff it is in the OAuth1 or the OAuth2 registry; it is OAuth2 iff it is in the OAuth2 registry and OAuth1 only when it is not, so a provider in both takes the OAuth2 path |
| `LaravelOauth.ServiceExists` | src/Thomaswelton/LaravelOauth/OAuth.php:100-103 | serviceExists holds exactly when the provider has a protocol, i.e. when either kind of service class exists for it |
| `LaravelOauth.GetCredentials` | src/Thomaswelton/LaravelOauth/OAuth.php:79-86 | the credentials carry the configured key and secret of the provider (null for a provider with no configuration) and the callback path `oauth/{provider}` |
| `LaravelOauth.GetServiceFactory` | src/Thomaswelton/LaravelOauth/OAuth.php:61-86 | fails with ServiceNotSupported exactly when the provider is in neither registry; otherwise the service has the classified protocol, the configured key and secret and the callback path `oauth/{provider}`, the resolved scopes for OAuth2 and no scopes for OAuth1 |
| `LaravelOauth.ScopeList` | src/Thomaswelton/LaravelOauth/OAuth.php:68 | a scope string gives (number of commas + 1) scopes; scope i is comma piece i trimmed, so no scope starts or ends with whitespace |
| `LaravelOauth.GetScopes` | src/Thomaswelton/LaravelOauth/OAuth.php:88-92 | the configured scopes are the trimmed comma pieces of the configured scope string, never an empty list; a missing scope entry reads as "" and gives exactly one empty scope |
| `LaravelOauth.ResolveScopes` | src/Thomaswelton/LaravelOauth/OAuth.php:68 | a non-null override string replaces the configured scopes; without one the configured scopes are used |
| `LaravelOauth.ScopeListOfJoined` | src/Thomaswelton/LaravelOauth/OAuth.php:88-92 | a scope string made of comma-joined pieces lists exactly those pieces, in order, each trimmed |
| `PhpStrings.Explode` | src/Thomaswelton/LaravelOauth/OAuth.php:90 | explode(',') never gives an empty list, and no piece holds a comma |
| `PhpStrings.ExplodeCount` | src/Thomaswelton/LaravelOauth/OAuth.php:90 | explode(',') gives one more piece than there are commas, so "" gives one piece |
| `PhpStrings.ImplodeExplode` | src/Thomaswelton/LaravelOauth/OAuth.php:90 | joining the pieces of explode(',') with commas gives the input back |
| `PhpStrings.ExplodeImplode` | src/Thomaswelton/LaravelOauth/OAuth.php:90 | explode(',') of comma-joined comma-free pieces gives the pieces back |
| `PhpStrings.Trim` | src/Thomaswelton/LaravelOauth/OAuth.php:91 | trim's result is a slice of its input, everything cut off is whitespace trim strips, and the result neither starts nor ends with such whitespace |
| `PhpStrings.TrimPadded` | src/Thomaswelton/LaravelOauth/OAuth.php:91 | trim of a trimmed text with whitespace around it gives exactly that text |
| `PhpStrings.TrimIdempotent` | src/Thomaswelton/LaravelOauth/OAuth.php:91 | trimming twice is trimming once |
| `PhpStrings.StripThroughLastBackslash` | src/Thomaswelton/LaravelOauth/OAuth.php:166-171 | the result of the namespace-stripping replacement is a suffix of the input; for a one-line input it holds no backslash and starts right after the last backslash; an input without a backslash is returned unchanged |
| `LaravelOauth.GetStorageNamespace` | src/Thomaswelton/LaravelOauth/OAuth.php:166-171 | the storage namespace of a service is its provider name whenever that name has no backslash or newline |
| `LaravelOauth.CheckOAuth2Callback` | src/Thomaswelton/LaravelOauth/OAuth.php:177-193 | the exchange goes ahead with the `code` parameter iff `error` is not truthy; otherwise the failure is UserDenied iff `error` is `access_denied` and Exception iff it is not, carrying a truthy message that is `error_description` when truthy and `error` otherwise |
| `LaravelOauth.CheckOAuth1Callback` | src/Thomaswelton/LaravelOauth/OAuth.php:201-213 | a truthy `denied` or an `oauth_token` of "denied" gives UserDenied("User Denied OAuth Permissions"), checked first; otherwise a non-truthy `oauth_token` gives Exception("OAuth token not found"); the exchange goes ahead, with `oauth_token` and `oauth_verifier`, exactly in the remaining case |
| `LaravelOauth.RethrowTokenResponse` | src/Thomaswelton/LaravelOauth/OAuth.php:192-199 | a token from the exchange is returned unchanged; a TokenResponseException becomes an Exception with the same message |
| `LaravelOauth.OAuth.Token` | src/Thomaswelton/LaravelOauth/OAuth.php:25-28 | token(p) is present iff the session has the key `oauth_token_` + p, and then it is the entry under that key |
| `LaravelOauth.OAuth.HasToken` | src/Thomaswelton/LaravelOauth/OAuth.php:30-33 | hasToken(p) holds exactly when token(p) gives a token |
| `LaravelOauth.OAuth.GetOAuth1State` | src/Thomaswelton/LaravelOauth/OAuth.php:161-164 | the OAuth1 state of a request token is the session entry under the token + `_state`, or null when there is none |
| `LaravelOauth.OAuth.SetOAuth1State` | src/Thomaswelton/LaravelOauth/OAuth.php:156-159 | stores the state under the token + `_state` and leaves every other session key unchanged; getOAuth1State then returns exactly that state |
| `LaravelOauth.OAuth.GetAuthorizationUri` | src/Thomaswelton/LaravelOauth/OAuth.php:35-59 | an unknown provider fails with ServiceNotSupported and leaves the session alone. OAuth2 passes `{state: encodeState({redirect})}` and leaves the session unchanged. OAuth1 lets a failed request-token fetch through with the session unchanged. Otherwise OAuth1 passes `{oauth_token: requestToken}` and stores the encoded state under the request token's state key, changing nothing else |
| `LaravelOauth.OAuth.RequestAccessToken` | src/Thomaswelton/LaravelOauth/OAuth.php:173-221 | an unknown provider fails with ServiceNotSupported before any parameter is read. A failed callback check or a failed exchange leaves the session unchanged, and exchange failures come back as Exception with the library's message. A missing stored request token gives TokenNotFound. A successful exchange stores the token under `oauth_token_` + provider, changes no other key, and afterwards token(provider) returns it and hasToken(provider) holds |
| `LaravelOauth.OAuth.GetRedirectFromState` | src/Thomaswelton/LaravelOauth/OAuth.php:131-154 | an unknown provider fails with ServiceNotSupported. For OAuth2 the result is the redirect of the state decoded from the `state` parameter, and null when that does not decode (a missing parameter included). For OAuth1 it fails with TokenNotFound exactly when the library's storage has no request token for the service's namespace; otherwise it is the redirect of the state stored under that request token, and null when none is stored or it does not decode |
| `LaravelOauth.OAuth.OAuth2RedirectRecovered` | src/Thomaswelton/LaravelOauth/OAuth.php:39-44 | for OAuth2, a `state` parameter that getAuthorizationUri built for a redirect gives that redirect back |
| `LaravelOauth.OAuth.OAuth1RedirectRecovered` | src/Thomaswelton/LaravelOauth/OAuth.php:138-153 | for OAuth1, a state stored by getAuthorizationUri under a request token gives its redirect back once the storage holds that request token for the service |
| `StateCodec.EncodeState` | src/Thomaswelton/LaravelOauth/OAuth.php:121-124 | an encoded state is padded Base64 text: only alphabet characters and `=`, four for every started group of three bytes of the JSON text |
| `StateCodec.DecodeState` | src/Thomaswelton/LaravelOauth/OAuth.php:126-129 | text with fewer than two Base64 characters, such as the empty text of a missing state, decodes to null; that decoding inverts encodeState is `StateCodec.DecodeEncodeState` |
| `StateCodec.StateJson` | src/Thomaswelton/LaravelOauth/OAuth.php:39-41 | the JSON text of a state is ASCII, is framed as the object `{"redirect": ...}`, and the JSON reader gives exactly that state back from it |
| `StateCodec.DecodeEncodeState` | src/Thomaswelton/LaravelOauth/OAuth.php:121-129 | decodeState(encodeState(s)) == s for every state |
| `StateCodec.EncodeStateInjective` | src/Thomaswelton/LaravelOauth/OAuth.php:121-124 | two different states never share an encoding |
| `StateCodec.RedirectRoundTrip` | src/Thomaswelton/LaravelOauth/OAuth.php:151-153 | the redirect read back from an encoded state is the redirect written into it, null included |
| `StateCodec.RedirectOf` | src/Thomaswelton/LaravelOauth/OAuth.php:151-153 | a decoded state's redirect is returned, null included, and a redirect is returned only when the state decoded and holds it |
| `Base64.DecodeEncode` | src/Thomaswelton/LaravelOauth/OAuth.php:123-128 | base64_decode(base64_encode(b)) == b for every byte string |
| `Base64.EncodeShape` | src/Thomaswelton/LaravelOauth/OAuth.php:123 | base64_encode gives 4 characters per started group of 3 bytes, each an alphabet character or `=` |
| `Json.ParseEscapeString` | src/Thomaswelton/LaravelOauth/OAuth.php:123-128 | json_decode reads back every string literal json_encode writes, and the input after it |
| `Json.EscapeString` | src/Thomaswelton/LaravelOauth/OAuth.php:123 | a string literal json_encode writes is ASCII and every `"` in it comes right after a backslash; that the whole literal reads back is `Json.ParseEscapeString` |

## Left out

- `login()` and the `OAuthLoginUrl` class: OAuthLoginUrl is not part of this model.
- The Laravel facades. `Config`, `Input` and `Session` are explicit maps. `url()` gives only the path `oauth/{provider}`, because the absolute application URL depends on the request. The unused `Redis` import has no effect.
- `getStorage()` and the storage class `Common\Storage\LaravelSession` are not part of this model. What `retrieveAccessToken` finds is the `storage` parameter. A namespace with nothing stored gives `TokenNotFound`, standing for the exception the storage throws.
- The library's own storage writes. `requestRequestToken` stores the request token in the library's storage; that write is not modelled.
- The client library's network calls `requestRequestToken` and `requestAccessToken` are inputs (`requestTokenReply` and `exchange`). Signing, HTTP and timeouts live in the library. An exception other than TokenResponseException is not modelled.
- LaravelOauth.GetServiceFactory: `createService` always succeeds for a registered provider; its own failures (a rejected scope, say) are not modelled.
- The authorization URL. `GetAuthorizationUri` returns the service and the parameters it hands the library's `getAuthorizationUri`. The URL that call builds, and the `htmlspecialchars_decode` applied to it, are library and string work on an opaque URL.
- `class_exists` reflection and `ucfirst`. The registry lists provider names directly. The service class name is `OAuth\OAuth1\Service\{provider}` or `OAuth\OAuth2\Service\{provider}`, with the provider name as given.
- Exception messages. ServiceNotSupported carries the provider name, not the `Str::studly` sentence. Exception codes (always 1) are dropped.
- Session values. The session holds either an access token or an encoded state string. A getRedirectFromState lookup that finds an access token under a state key gives no redirect.
- Access tokens. `AccessToken` stands for the library's token object, which is only stored and returned.
- Request parameters are strings. Array-valued query parameters are not modelled.
- StateCodec.ParseStateJson: reads only the layout `json_encode` writes for `{"redirect": ...}`, i.e. no whitespace and no other members. json_decode would also accept whitespace, extra members and other value types; the model gives null for these, and an OAuth2 state from another writer gets no redirect.
- FlowState: redirects and JSON text are Unicode strings, while PHP strings are bytes. A redirect that is not valid UTF-8 makes `json_encode` fail (from PHP 5.5 it returns false, so `encodeState` gives `""`), and that redirect does not come back; `StateCodec.DecodeEncodeState` holds for every state only because such a redirect cannot be written down here.
- Base64.Decode: follows PHP 7.0 and later. PHP 5's decoder also stops at a NUL character and gives false for a lone `=` right after a single leftover sextet of a group; neither occurs in text that `base64_encode` writes, so the round trip is the same.
- StateCodec.DecodeState: Base64-decoded bytes above 0x7F are not decoded as UTF-8, and the model gives null for them. Every state this code encodes is ASCII, because json_encode escapes all non-ASCII characters.
- LaravelOauth.OAuth.GetRedirectFromState: a missing or undecodable OAuth1 state gives no redirect. The source passes json_decode's null straight to `property_exists`; PHP 5 and 7 return null there with a warning, while PHP 8 throws a TypeError.
