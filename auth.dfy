/** The header check of `require_api_key`: the decorator that guards both
    `/api/parse-pdf` endpoints. */
module Auth {
  import opened Wrappers
  import opened Strings

  const BearerPrefix: string := "Bearer "

  /** Outcome of checking the `Authorization` header against the configured key. */
  datatype Decision = Missing | Invalid | Accept

  /** What the decorated endpoint answers: an error body with its HTTP status,
      or whatever the wrapped handler returns. */
  datatype Reply<T> = Rejected(status: nat, error: string, message: string) | Handled(value: T)

  const MissingKeyError: string := "Missing API key"
  const MissingKeyMessage: string := "Please provide an API key in the Authorization header"
  const InvalidKeyError: string := "Invalid API key"
  const InvalidKeyMessage: string := "The provided API key is not valid"

  /** The key a non-empty header carries: what follows `Bearer `, or the whole
      header when it does not start with that prefix. */
  function ProvidedKey(header: string): (key: string)
    ensures StartsWith(header, BearerPrefix) ==> header == BearerPrefix + key
    ensures !StartsWith(header, BearerPrefix) ==> key == header
  {
    if StartsWith(header, BearerPrefix) then header[|BearerPrefix|..] else header
  }

  /** The decision `decorated_function` takes. A header is accepted exactly when
      it is the key behind `Bearer `, or the bare key itself when the key does not
      start with `Bearer ` (such a key would be cut after its prefix). */
  function CheckApiKey(header: Option<string>, apiKey: string): (d: Decision)
    ensures d == Missing <==> header == None || header == Some("")
    ensures d == Accept <==>
              header.Some? && header.value != "" &&
              (header.value == BearerPrefix + apiKey || (header.value == apiKey && !StartsWith(apiKey, BearerPrefix)))
  {
    if header.None? || header.value == "" then Missing
    else if ProvidedKey(header.value) != apiKey then Invalid
    else Accept
  }

  /** `require_api_key(f)` applied to a request: the handler's result only when
      the key is accepted, the fixed 401 or 403 body otherwise. */
  function RequireApiKey<T>(header: Option<string>, apiKey: string, handler: () -> T): (r: Reply<T>)
    ensures r.Handled? <==> CheckApiKey(header, apiKey) == Accept
    ensures r.Handled? ==> r.value == handler()
    ensures CheckApiKey(header, apiKey) == Missing ==> r == Rejected(401, MissingKeyError, MissingKeyMessage)
    ensures CheckApiKey(header, apiKey) == Invalid ==> r == Rejected(403, InvalidKeyError, InvalidKeyMessage)
  {
    match CheckApiKey(header, apiKey)
    case Missing => Rejected(401, MissingKeyError, MissingKeyMessage)
    case Invalid => Rejected(403, InvalidKeyError, InvalidKeyMessage)
    case Accept => Handled(handler())
  }

  /** A missing or empty header is answered 401 whatever the key. */
  lemma NoHeaderIs401<T>(header: Option<string>, apiKey: string, handler: () -> T)
    requires header == None || header == Some("")
    ensures RequireApiKey(header, apiKey, handler).Rejected?
    ensures RequireApiKey(header, apiKey, handler).status == 401
  {
  }

  /** `Bearer <key>` always reaches the handler. */
  lemma BearerKeyAccepted<T>(apiKey: string, handler: () -> T)
    ensures RequireApiKey(Some(BearerPrefix + apiKey), apiKey, handler) == Handled(handler())
  {
  }

  /** The bare key reaches the handler unless it is empty or itself starts with
      `Bearer `. */
  lemma BareKeyAccepted<T>(apiKey: string, handler: () -> T)
    requires apiKey != "" && !StartsWith(apiKey, BearerPrefix)
    ensures RequireApiKey(Some(apiKey), apiKey, handler) == Handled(handler())
  {
  }

  /** Any other non-empty header is answered 403, and the answer does not depend
      on the handler: the handler is not consulted. */
  lemma OtherHeaderIs403<T>(h: string, apiKey: string, handler: () -> T, other: () -> T)
    requires h != "" && h != BearerPrefix + apiKey
    requires h != apiKey || StartsWith(apiKey, BearerPrefix)
    ensures RequireApiKey(Some(h), apiKey, handler) == Rejected(403, InvalidKeyError, InvalidKeyMessage)
    ensures RequireApiKey(Some(h), apiKey, handler) == RequireApiKey(Some(h), apiKey, other)
  {
  }
}
