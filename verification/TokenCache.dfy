/**
  token_cache.go, and what a call sends and caches. Metadata keys are lower case, as the metadata
  package keeps them.
 */
module TokenCache {
  import opened Common

  type Metadata = map<string, seq<string>>

  const TOKEN := "x-auth-token"
  const BASIC := "authorization"

  /** md.Get: a key that is absent has no values. */
  function Values(md: Metadata, key: string): seq<string> {
    if key in md then md[key] else []
  }

  /** metadata.Join: the values of both, those of a first. */
  function Join(a: Metadata, b: Metadata): Metadata {
    map key | key in a.Keys + b.Keys :: Values(a, key) + Values(b, key)
  }

  /** The token that a response carries, or "" if there is none to be cached. */
  function TokenOf(response: Option<Metadata>): string {
    if response.None? || |Values(response.value, TOKEN)| == 0 then "" else Values(response.value, TOKEN)[0]
  }

  /** What a call authenticates with. */
  datatype Credential = Token(token: string) | Basic | Nothing

  function Choose(cached: Option<string>, basic: string): Credential {
    if cached.Some? && cached.value != "" then Token(cached.value)
    else if basic != "" then Basic
    else Nothing
  }

  function Carrying(c: Credential, basic: string): Metadata {
    match c
    case Token(t) => map[TOKEN := [t]]
    case Basic => map[BASIC := [basic]]
    case Nothing => map[]
  }

  /** The cache after a response: an absent or empty token leaves it alone. */
  function Refreshed(cached: Option<string>, response: Option<Metadata>): Option<string> {
    if TokenOf(response) == "" then cached else Some(TokenOf(response))
  }

  /**
    What a call sends, with the names of the headers written out: the token under x-auth-token if there
    is one, else the Basic credential under authorization, behind what the caller had put there; and
    the caller's other metadata as they were.
   */
  ghost predicate Authenticated(sent: Metadata, outgoing: Metadata, token: Option<string>, basic: string) {
    && Values(sent, "x-auth-token") == Values(outgoing, "x-auth-token") + (if token.Some? then [token.value] else [])
    && Values(sent, "authorization") == Values(outgoing, "authorization") + (if token.None? then [basic] else [])
    && (forall key :: key != "x-auth-token" && key != "authorization" ==>
          (key in sent <==> key in outgoing) && (key in outgoing ==> sent[key] == outgoing[key]))
  }

  /** A call sends the cached token, and before there is one the Basic credential. */
  lemma CallSends(cached: Option<string>, basic: string, outgoing: Metadata)
    requires cached != Some("") && basic != ""
    ensures Authenticated(Join(outgoing, Carrying(Choose(cached, basic), basic)), outgoing, cached, basic)
  {
    DifferentHeaders();
  }

  lemma DifferentHeaders()
    ensures "x-auth-token" != "authorization"
  {
    assert |"x-auth-token"| != |"authorization"|;
  }

  /** The first x-auth-token of the response is this one, and not empty. */
  predicate Bears(response: Option<Metadata>, token: string) {
    && response.Some? && "x-auth-token" in response.value && response.value["x-auth-token"] != []
    && response.value["x-auth-token"][0] == token != ""
  }

  /** A response without x-auth-token, or with an empty first value, leaves the cache alone; else the first value is cached. */
  lemma FirstTokenCached(cached: Option<string>, response: Option<Metadata>)
    ensures forall token: string :: Bears(response, token) ==> Refreshed(cached, response) == Some(token) && TokenOf(response) == token
    ensures (forall token: string :: !Bears(response, token)) ==> Refreshed(cached, response) == cached && TokenOf(response) == ""
  {
    if TokenOf(response) != "" {
      assert Bears(response, TokenOf(response));
    }
  }

  class TokenCache {
    var cachedToken: Option<string>

    ghost predicate Valid()
      reads this
    {
      cachedToken != Some("")
    }

    constructor ()
      ensures Valid() && cachedToken == None
    {
      cachedToken := None;
    }

    method CacheToken(token: string)
      requires Valid()
      modifies this
      ensures Valid() && cachedToken == if token == "" then old(cachedToken) else Some(token)
    {
      if token == "" {
        return;
      }
      cachedToken := Some(token);
    }

    method GetCachedToken() returns (token: string)
      requires Valid()
      ensures token == "" <==> cachedToken == None
      ensures cachedToken.Some? ==> token == cachedToken.value
    {
      if cachedToken.None? {
        return "";
      }
      return cachedToken.value;
    }

    method ClearToken()
      modifies this
      ensures Valid() && cachedToken == None
    {
      cachedToken := None;
    }

    method ExtractAndCacheToken(md: Option<Metadata>)
      requires Valid()
      modifies this
      ensures Valid() && cachedToken == Refreshed(old(cachedToken), md)
      ensures forall token: string :: Bears(md, token) ==> cachedToken == Some(token)
    {
      if md.None? {
        return;
      }
      var values := Values(md.value, TOKEN);
      if |values| > 0 {
        var token := values[0];
        if token != "" {
          CacheToken(token);
        }
      }
    }

    method CreateAuthMetadata(basic: string) returns (md: Metadata)
      requires Valid()
      ensures md == Carrying(Choose(cachedToken, basic), basic)
      ensures md == if cachedToken.Some? then map["x-auth-token" := [cachedToken.value]]
                    else if basic != "" then map["authorization" := [basic]]
                    else map[]
    {
      md := map[];
      var token := GetCachedToken();
      if token != "" {
        md := md[TOKEN := [token]];
      } else if basic != "" {
        md := md[BASIC := [basic]];
      }
    }
  }
}
