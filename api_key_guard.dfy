/** The API-key guard in front of the links API: public routes pass; every other request
    must carry an `x-api-key` header equal to the configured `API_KEY`. */
module ApiKeyGuard {
  import opened Common
  import opened JsText
  import Utf8

  const MISSING_HEADER := "Missing x-api-key header"
  const NOT_CONFIGURED := "API_KEY not configured"
  const INVALID_KEY := "Invalid API key"

  /** `canActivate` returns `true`, or throws an `UnauthorizedException` with a message. */
  datatype Decision = Allow | Unauthorized(message: string)

  /** `timingSafeEqual(bufA, bufB)` on buffers of equal length, as a value: the bytes are
      equal. */
  function TimingSafeEqual(a: seq<Utf8.Byte>, b: seq<Utf8.Byte>): (r: bool)
    requires |a| == |b|
    ensures r <==> forall i | 0 <= i < |a| :: a[i] == b[i]
  {
    a == b
  }

  /** `keysMatch(a, b)`: the UTF-8 encodings have the same length and the same bytes, which
      happens exactly when the two keys are the same string. */
  function KeysMatch(a: string, b: string): (r: bool)
    ensures |Utf8.Encode(a)| != |Utf8.Encode(b)| ==> !r
    ensures r <==> Utf8.Encode(a) == Utf8.Encode(b)
    ensures r <==> a == b
  {
    var bufA := Utf8.Encode(a);
    var bufB := Utf8.Encode(b);
    if |bufA| != |bufB| then false
    else
      var equal := TimingSafeEqual(bufA, bufB);
      if equal then Utf8.EncodeInjective(a, b); true else false
  }

  /** `canActivate`, given whether the route is marked public, the `x-api-key` header and
      the configured `API_KEY`. */
  function CanActivate(isPublic: bool, apiKey: Option<string>, configuredKey: Option<string>): (d: Decision)
    ensures isPublic ==> d == Allow
    ensures !isPublic && !Truthy(apiKey) ==> d == Unauthorized(MISSING_HEADER)
    ensures !isPublic && Truthy(apiKey) && !Truthy(configuredKey) ==> d == Unauthorized(NOT_CONFIGURED)
    ensures !isPublic ==>
      (d == Allow <==> Truthy(apiKey) && Truthy(configuredKey) && apiKey.value == configuredKey.value)
    ensures d.Unauthorized? ==> d.message in {MISSING_HEADER, NOT_CONFIGURED, INVALID_KEY}
  {
    if isPublic then Allow
    else if !Truthy(apiKey) then Unauthorized(MISSING_HEADER)
    else if !Truthy(configuredKey) then Unauthorized(NOT_CONFIGURED)
    else if !KeysMatch(apiKey.value, configuredKey.value) then Unauthorized(INVALID_KEY)
    else Allow
  }

  /** A public route is let through whatever the headers and the configuration hold. */
  lemma PublicIgnoresKeys(apiKey1: Option<string>, configured1: Option<string>,
                          apiKey2: Option<string>, configured2: Option<string>)
    ensures CanActivate(true, apiKey1, configured1) == CanActivate(true, apiKey2, configured2) == Allow
  {
  }

  /** Once a header is present and a key is configured, every key other than the
      configured one is refused as invalid. */
  lemma WrongKeyIsInvalid(apiKey: string, configured: string)
    requires apiKey != "" && configured != "" && apiKey != configured
    ensures CanActivate(false, Some(apiKey), Some(configured)) == Unauthorized(INVALID_KEY)
  {
  }

  /** The guard's own allowing cases, with the configured key "test-api-key-123": a public
      route without a header, and the right key. */
  lemma GuardAllowsCases()
    ensures CanActivate(true, None, Some("test-api-key-123")) == Allow
    ensures CanActivate(false, Some("test-api-key-123"), Some("test-api-key-123")) == Allow
  {
  }

  /** The guard's own refusing cases: no header, a wrong key, a key of another length, and
      no configured key. */
  lemma GuardRefusesCases()
    ensures CanActivate(false, None, Some("test-api-key-123")) == Unauthorized(MISSING_HEADER)
    ensures CanActivate(false, Some("wrong-key"), Some("test-api-key-123")) == Unauthorized(INVALID_KEY)
    ensures CanActivate(false, Some("short"), Some("test-api-key-123")) == Unauthorized(INVALID_KEY)
    ensures CanActivate(false, Some("some-key"), None) == Unauthorized(NOT_CONFIGURED)
  {
    WrongKeyIsInvalid("wrong-key", "test-api-key-123");
    WrongKeyIsInvalid("short", "test-api-key-123");
  }
}
