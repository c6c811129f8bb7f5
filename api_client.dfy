/** The mobile app's HTTP client: a request interceptor puts the stored
    token into the `Authorization` header as a bearer credential (section
    2.1 of RFC 6750), which the backend's `isLoggedIn` reads back. */
module ApiClient {
  import opened Wrappers
  import opened Schema
  import opened Mobile
  import Text
  import LocationRoutes

  const AuthorizationHeader := "Authorization"

  /** The header value for a token: "Bearer " followed by the token. */
  function BearerHeader(token: string): (h: string)
    ensures Text.StartsWith(h, "Bearer ")
    ensures Text.StartsWith(h, "Bearer")
    ensures |h| == |token| + 7 && h[7..] == token
  {
    "Bearer " + token
  }

  /** The parts of an axios request configuration the interceptor sees. */
  class RequestConfig {
    var url: string
    var headers: map<string, string>

    constructor (url: string, headers: map<string, string>)
      ensures this.url == url && this.headers == headers
    {
      this.url := url;
      this.headers := headers;
    }
  }

  /** The request interceptor: when a (non-empty) token is stored, set
      `config.headers.Authorization`; hand back the same configuration.
      When reading storage fails, the interceptor rejects and the request is
      not sent: the answer is None and the configuration is untouched. */
  method Intercept(config: RequestConfig, store: SecureStore, storageFails: bool) returns (result: Option<RequestConfig>)
    modifies config
    ensures storageFails <==> result.None?
    ensures result.Some? ==> result.value == config
    ensures var token := store.GetItem(TokenKey);
      config.headers == if !storageFails && Truthy(token) then old(config.headers)[AuthorizationHeader := BearerHeader(token.value)]
                        else old(config.headers)
    ensures config.url == old(config.url)
  {
    if storageFails {
      return None;
    }
    var token := store.GetItem(TokenKey);
    if token.Some? && token.value != "" {
      config.headers := config.headers[AuthorizationHeader := BearerHeader(token.value)];
    }
    result := Some(config);
  }

  /** Round trip: the backend recovers a space-free token from the header
      the client builds. */
  lemma {:induction false} BearerRoundTrip(token: string)
    requires ' ' !in token
    ensures LocationRoutes.BearerToken(BearerHeader(token)) == Some(token)
  {
    assert BearerHeader(token) == "Bearer" + [' '] + token;
    Text.SplitAtFirst("Bearer", token, ' ');
    Text.SplitNoSeparator(token, ' ');
  }

  /** A token containing a space is cut at its first space: the round trip
      needs the space-free tokens JWTs are. */
  lemma TokenWithSpaceIsCut(token: string)
    requires ' ' in token
    ensures LocationRoutes.BearerToken(BearerHeader(token)) == Some(token[..LocationRoutes.FirstSpace(token)])
  {
    var k := LocationRoutes.FirstSpace(token);
    assert token == token[..k] + [' '] + token[k + 1..];
    assert BearerHeader(token) == "Bearer" + [' '] + token;
    Text.SplitAtFirst("Bearer", token, ' ');
    Text.SplitAtFirst(token[..k], token[k + 1..], ' ');
  }

  /** End to end: a request carrying the client's header for a space-free,
      non-empty token is authenticated as the token's user exactly when the
      token verifies and that user exists. */
  lemma ClientHeaderAuthenticates(token: string, verify: string -> Option<Id>, users: seq<User>)
    requires ' ' !in token
    ensures var resolved := LocationRoutes.ResolveUser(Some(BearerHeader(token)), verify, users, false);
      && (resolved.Some? <==> verify(token).Some? && exists u :: u in users && u.id == verify(token).value)
      && (resolved.Some? ==> resolved == verify(token))
  {
    BearerRoundTrip(token);
  }
}
