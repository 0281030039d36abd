/**
 * The bearer-token check of the gRPC server (data_analysis/server/grpc_server.py,
 * `AuthInterceptor`): call metadata becomes a dictionary, a "Bearer " prefix is stripped, and
 * the call continues only when a token is configured and the presented one equals it.
 */
module GrpcServer {
  import opened Wrappers
  import opened Text

  /** The invocation metadata: (key, value) pairs in the order the client sent them. */
  type Metadata = seq<(string, string)>

  /** `{k: v for k, v in metadata}`: every key sent, with the value of its last pair. */
  function MetadataMap(md: Metadata): (m: map<string, string>)
    ensures forall k :: k in m <==> exists i :: 0 <= i < |md| && md[i].0 == k
  {
    if md == [] then map[]
    else
      var init := MetadataMap(md[..|md| - 1]);
      var last := md[|md| - 1];
      assert forall i :: 0 <= i < |md| - 1 ==> md[..|md| - 1][i] == md[i];
      init[last.0 := last.1]
  }

  /** A later pair for the same key overrides an earlier one. */
  lemma {:induction false} MetadataLastWins(md: Metadata, i: int)
    requires 0 <= i < |md|
    requires forall j :: i < j < |md| ==> md[j].0 != md[i].0
    ensures MetadataMap(md)[md[i].0] == md[i].1
    decreases |md|
  {
    if i < |md| - 1 {
      var init := md[..|md| - 1];
      assert init[i] == md[i];
      forall j | i < j < |init|
        ensures init[j].0 != init[i].0
      {
        assert init[j] == md[j];
      }
      MetadataLastWins(init, i);
    }
  }

  const AuthorizationKey: string := "authorization"
  const BearerPrefix: string := "Bearer "

  predicate StartsWith(s: string, prefix: string) {
    |prefix| <= |s| && s[..|prefix|] == prefix
  }

  /** `s.split(" ", 1)[1]`: what follows the first space (the caller has checked there is one). */
  function AfterFirstSpace(s: string): (r: string)
    requires ' ' in s
    ensures |r| < |s|
  {
    FirstIndexIsPresent(s, ' ');
    s[FirstIndex(s, ' ') + 1..]
  }

  lemma {:induction false} FirstIndexIsPresent(s: string, c: char)
    requires c in s
    ensures FirstIndex(s, c) < |s| && s[FirstIndex(s, c)] == c
  {
    if s[0] != c {
      assert c in s[1..];
      FirstIndexIsPresent(s[1..], c);
    }
  }

  /** The token the call presents: the authorization value (empty when absent), without "Bearer ". */
  function PresentedToken(md: Metadata): (t: string)
    ensures AuthorizationKey !in MetadataMap(md) ==> t == ""
  {
    var meta := MetadataMap(md);
    var token := if AuthorizationKey in meta then meta[AuthorizationKey] else "";
    if StartsWith(token, BearerPrefix) then
      assert token[6] == ' ';
      AfterFirstSpace(token)
    else token
  }

  /** Stripping "Bearer " keeps exactly what follows the prefix; any other value is kept whole. */
  lemma PresentedTokenStrips(md: Metadata)
    requires AuthorizationKey in MetadataMap(md)
    ensures var v := MetadataMap(md)[AuthorizationKey];
      && (StartsWith(v, BearerPrefix) ==> PresentedToken(md) == v[|BearerPrefix|..])
      && (!StartsWith(v, BearerPrefix) ==> PresentedToken(md) == v)
  {
    var v := MetadataMap(md)[AuthorizationKey];
    if StartsWith(v, BearerPrefix) {
      assert v == "Bearer" + [' '] + v[7..];
      FirstIndexAfter("Bearer", ' ', v[7..]);
    }
  }

  /** gRPC's UNAUTHENTICATED status code. */
  const Unauthenticated: int := 16

  const NotConfiguredDetails: string := "Auth token not configured on server"
  const InvalidTokenDetails: string := "Invalid service token"

  /** What the interceptor does with a call: hand it on, or abort it with a status and details. */
  datatype Verdict = Continue | Abort(code: int, details: string)

  class AuthInterceptor {
    /** The configured service token, read once when the interceptor is built. */
    const expectedToken: Option<string>

    constructor(configured: Option<string>)
      ensures expectedToken == configured
    {
      expectedToken := configured;
    }

    /**
     * `intercept_service`: with no token configured every call is refused, whatever it
     * presents; otherwise a call goes on exactly when it presents the configured token.
     */
    function Intercept(md: Metadata): (v: Verdict)
      ensures v.Continue? <==> expectedToken.Some? && PresentedToken(md) == expectedToken.value
      ensures expectedToken.None? ==> v == Abort(Unauthenticated, NotConfiguredDetails)
      ensures expectedToken.Some? && PresentedToken(md) != expectedToken.value ==> v == Abort(Unauthenticated, InvalidTokenDetails)
    {
      var token := PresentedToken(md);
      if expectedToken.None? then Abort(Unauthenticated, NotConfiguredDetails)
      else if token != expectedToken.value then Abort(Unauthenticated, InvalidTokenDetails)
      else Continue
    }
  }

  /** A call carrying `authorization: Bearer <token>` as its last authorization pair gets through. */
  lemma BearerTokenAdmitted(a: AuthInterceptor, md: Metadata, token: string)
    requires a.expectedToken == Some(token)
    requires |md| > 0 && md[|md| - 1] == (AuthorizationKey, BearerPrefix + token)
    ensures a.Intercept(md) == Continue
  {
    MetadataLastWins(md, |md| - 1);
    PresentedTokenStrips(md);
    assert (BearerPrefix + token)[|BearerPrefix|..] == token;
  }

  /** A missing header is the empty token: an empty configured token lets a bare call through. */
  lemma MissingHeaderIsEmptyToken(a: AuthInterceptor)
    ensures a.Intercept([]) == Continue <==> a.expectedToken == Some("")
  {
  }
}
