/** The API-key middleware guarding every route under `/api/`. */
module Auth {
  import opened Wrappers
  import opened Http
  import opened JsString

  const Unauthorized := Response(401, "Unauthorized")

  /**
   * `apiKeyAuth`, from the `X-API-Key` header and COMMANDER_API_KEY (either
   * may be undefined): None means `next()` is called.
   */
  function ApiKeyAuth(requestApiKey: Option<string>, commanderApiKey: Option<string>): (r: Option<Response>)
    ensures r.Some? ==> r.value == Unauthorized
    ensures r.None? ==> requestApiKey.Some? && requestApiKey.value != "" && commanderApiKey == requestApiKey
  {
    if !Truthy(requestApiKey) || commanderApiKey != requestApiKey then Some(Unauthorized) else None
  }

  /** Exactly a non-empty header equal to the configured key gets through. */
  lemma AcceptsExactlyTheKey(requestApiKey: Option<string>, commanderApiKey: Option<string>)
    ensures ApiKeyAuth(requestApiKey, commanderApiKey).None? <==>
      exists key :: key != "" && requestApiKey == Some(key) && commanderApiKey == Some(key)
  {
    if ApiKeyAuth(requestApiKey, commanderApiKey).None? {
      var key := requestApiKey.value;
      assert key != "" && requestApiKey == Some(key) && commanderApiKey == Some(key);
    }
  }

  /** A missing header, or an empty one even against an empty configured key, is refused. */
  lemma RefusesMissingOrEmpty(commanderApiKey: Option<string>)
    ensures ApiKeyAuth(None, commanderApiKey) == Some(Unauthorized)
    ensures ApiKeyAuth(Some(""), commanderApiKey) == Some(Unauthorized)
    ensures ApiKeyAuth(Some(""), Some("")) == Some(Unauthorized)
  {
  }
}
