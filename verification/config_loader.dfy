/** The two configuration loaders: `loadFromUrl` in
    src/app/services/config-loader.service.ts (validation can be switched off)
    and `loadConfig` in src/app/config-loader/config-loader.service.ts
    (validation always runs). The HTTP request itself is outside the model: a
    load receives either the failed request's error or the response body. */
module ConfigLoader {
  import opened Models
  import opened Strings
  import opened ConfigValidator

  /** An error reaching `catchError`: its HTTP `status`, which a plain `Error`
      does not have, and its `message`. */
  datatype LoadError = LoadError(status: Option<int>, message: string)

  /** What the HTTP request produced. */
  datatype HttpResult = HttpFailed(error: LoadError) | HttpOk(body: ConfigFields)

  /** What the returned observable emits: the configuration, or an error message. */
  datatype LoadOutcome = Loaded(config: ConfigFields) | Failed(message: string)

  const LoadFailedPrefix: string := "Failed to load configuration."
  const NetworkSuffix: string := " Network error or CORS issue."
  const NotFoundSuffix: string := " File not found."
  const UnauthorizedSuffix: string := " Unauthorized."
  const InvalidFormatSuffix: string := " Invalid configuration data format."
  const ParseFailedMessage: string := "Failed to parse configuration data."

  /** The statuses the classification names. */
  predicate KnownStatus(status: Option<int>) {
    status.Some? && status.value in {0, 404, 401, 403}
  }

  /** The message `catchError` builds: the prefix, then a suffix chosen by the
      status first and only then by the exact message. */
  function DescribeLoadError(e: LoadError): (m: string)
    ensures StartsWith(m, LoadFailedPrefix)
    ensures e.status == Some(0) ==> m == LoadFailedPrefix + NetworkSuffix
    ensures e.status == Some(404) ==> m == LoadFailedPrefix + NotFoundSuffix
    ensures e.status == Some(401) || e.status == Some(403) ==> m == LoadFailedPrefix + UnauthorizedSuffix
    ensures !KnownStatus(e.status) && e.message == ParseFailedMessage ==> m == LoadFailedPrefix + InvalidFormatSuffix
    ensures !KnownStatus(e.status) && e.message != ParseFailedMessage ==> m == LoadFailedPrefix + " " + e.message
  {
    var suffix :=
      if e.status == Some(0) then NetworkSuffix
      else if e.status == Some(404) then NotFoundSuffix
      else if e.status == Some(401) || e.status == Some(403) then UnauthorizedSuffix
      else if e.message == ParseFailedMessage then InvalidFormatSuffix
      else " " + e.message;
    assert (LoadFailedPrefix + suffix)[..|LoadFailedPrefix|] == LoadFailedPrefix;
    LoadFailedPrefix + suffix
  }

  /** A named status decides the message alone: the error's message is not looked at. */
  lemma StatusTakesPrecedence(e1: LoadError, e2: LoadError)
    requires KnownStatus(e1.status) && e1.status == e2.status
    ensures DescribeLoadError(e1) == DescribeLoadError(e2)
  {
  }

  /** Without a named status and the exact parse message, the error's own message
      can be read back from the built one. */
  lemma FallbackKeepsMessage(e: LoadError)
    requires !KnownStatus(e.status) && e.message != ParseFailedMessage
    ensures DescribeLoadError(e)[|LoadFailedPrefix| + 1..] == e.message
  {
  }

  /** The error `map` throws when validation throws: a plain `Error` (no status)
      whose message appends the validation error rendered as a string,
      `"Error: "` followed by its message. */
  function Rewrap(validationMessage: string): (e: LoadError)
    ensures e.status.None?
    ensures StartsWith(e.message, ParseFailedMessage + " ")
  {
    var m := ParseFailedMessage + " " + ("Error: " + validationMessage);
    assert m[..|ParseFailedMessage + " "|] == ParseFailedMessage + " ";
    LoadError(None, m)
  }

  /** A rewrapped validation error is longer than the exact parse message, so
      the "Invalid configuration data format." branch never fires for it: its
      message is reported after the prefix instead. */
  lemma RewrappedNeverInvalidFormat(validationMessage: string)
    ensures Rewrap(validationMessage).message != ParseFailedMessage
    ensures DescribeLoadError(Rewrap(validationMessage))
            == LoadFailedPrefix + " " + Rewrap(validationMessage).message
    ensures DescribeLoadError(Rewrap(validationMessage)) != LoadFailedPrefix + InvalidFormatSuffix
  {
    assert |Rewrap(validationMessage).message| > |ParseFailedMessage|;
    assert |LoadFailedPrefix + " " + Rewrap(validationMessage).message| > |LoadFailedPrefix + InvalidFormatSuffix|;
  }

  /** What a rejected body's message starts with before the validation message. */
  const RejectedHead: string := LoadFailedPrefix + " " + ParseFailedMessage + " Error: "

  /** The prefix every rejected body is reported with. */
  const RejectedBodyPrefix: string := RejectedHead + ValidationFailedPrefix

  /** The message of a rewrapped validation error is the validation message
      behind a fixed head. */
  lemma RewrappedMessage(validationMessage: string)
    ensures DescribeLoadError(Rewrap(validationMessage)) == RejectedHead + validationMessage
  {
    RewrappedNeverInvalidFormat(validationMessage);
    var e := Rewrap(validationMessage);
    assert e.message == (ParseFailedMessage + " " + "Error: ") + validationMessage;
    assert LoadFailedPrefix + " " + e.message
           == (LoadFailedPrefix + " " + ParseFailedMessage + " Error: ") + validationMessage;
  }

  /** A body that fails validation is reported through `Rewrap` and `DescribeLoadError`. */
  function Reject(validationMessage: string): (r: LoadOutcome)
    requires StartsWith(validationMessage, ValidationFailedPrefix)
    ensures r == Failed(RejectedHead + validationMessage)
    ensures r.Failed? && StartsWith(r.message, RejectedBodyPrefix)
  {
    RewrappedMessage(validationMessage);
    PrefixExtends(RejectedHead, validationMessage, ValidationFailedPrefix);
    Failed(DescribeLoadError(Rewrap(validationMessage)))
  }

  /** `loadFromUrl`: a failed request is described; a body is validated only
      when `withValidation` is set, and is otherwise passed through as is. */
  function LoadFromUrl(response: HttpResult, withValidation: bool): (r: LoadOutcome)
    ensures response.HttpFailed? ==> r == Failed(DescribeLoadError(response.error))
    ensures response.HttpOk? && !withValidation ==> r == Loaded(response.body)
    ensures response.HttpOk? && withValidation ==> (r.Loaded? <==> ConfigValid(response.body))
    ensures r.Loaded? ==> response.HttpOk? && r.config == response.body
    ensures response.HttpOk? && r.Failed? ==> StartsWith(r.message, RejectedBodyPrefix)
  {
    match response
    case HttpFailed(e) => Failed(DescribeLoadError(e))
    case HttpOk(body) =>
      if withValidation then
        match ValidateConfigData(body)
        case Valid => Loaded(body)
        case Invalid(message) => Reject(message)
      else Loaded(body)
  }

  /** `loadConfig`: the same classification, and the body is always validated. */
  function LoadConfig(response: HttpResult): (r: LoadOutcome)
    ensures response.HttpFailed? ==> r == Failed(DescribeLoadError(response.error))
    ensures response.HttpOk? ==> (r.Loaded? <==> ConfigValid(response.body))
    ensures r.Loaded? ==> response.HttpOk? && r.config == response.body
    ensures response.HttpOk? && r.Failed? ==> StartsWith(r.message, RejectedBodyPrefix)
  {
    match response
    case HttpFailed(e) => Failed(DescribeLoadError(e))
    case HttpOk(body) =>
      match ValidateConfigData(body)
      case Valid => Loaded(body)
      case Invalid(message) => Reject(message)
  }

  /** The two loaders agree whenever `loadFromUrl` validates. */
  lemma LoadersAgree(response: HttpResult)
    ensures LoadConfig(response) == LoadFromUrl(response, true)
  {
  }
}
