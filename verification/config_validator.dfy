/** The configuration validator (src/app/common/config-validator.service.ts).
    It inspects the fields `url`, `delay` and `reloadInterval` of each page. The
    numbers are compared as JavaScript compares them: an absent field reads as
    `undefined`, and `undefined < 3` is false, so it passes; `null` converts to 0,
    so `null < 3` holds and a null delay fails while a null reload interval
    passes; JSON numbers may be fractional. Every page is checked; the messages
    of all failing pages are joined into one error. */
module ConfigValidator {
  import opened Models
  import opened Strings

  /** A numeric field of a parsed JSON page: absent, `null`, or a number. */
  datatype JsonNumber = Undefined | Null | Number(value: real)

  /** `field < bound` in JavaScript: `undefined` compares false, `null` as 0. */
  predicate LessThan(field: JsonNumber, bound: real) {
    match field
    case Undefined => false
    case Null => 0.0 < bound
    case Number(v) => v < bound
  }

  /** A page entry as the validator reads it (a missing or `null` url is None). */
  datatype PageFields = PageFields(url: Option<string>, delay: JsonNumber, reloadInterval: JsonNumber)

  /** A configuration as the validator reads it: `pages` may be missing. */
  datatype ConfigFields = ConfigFields(pages: Option<seq<PageFields>>)

  /** `true`, or the message of the thrown error. */
  datatype Verdict = Valid | Invalid(message: string)

  const ValidationFailedPrefix: string := "Validation failed: "
  const PagesUndefinedMessage: string := "pages are undefined."

  /** A page the validator accepts: a url that is not blank, a delay that is
      absent or a number of at least 3, and a reload interval that is absent,
      `null` or a number of at least 0. */
  predicate PageValid(p: PageFields) {
    && p.url.Some? && !IsBlank(p.url.value)
    && (p.delay.Undefined? || (p.delay.Number? && p.delay.value >= 3.0))
    && (p.reloadInterval.Number? ==> p.reloadInterval.value >= 0.0)
  }

  /** A configuration the validator accepts: pages present, each of them valid. */
  predicate ConfigValid(c: ConfigFields) {
    c.pages.Some? && forall i :: 0 <= i < |c.pages.value| ==> PageValid(c.pages.value[i])
  }

  /** The three per-page checks, in the order they run. */
  datatype Check = UrlCheck | DelayCheck | ReloadIntervalCheck

  function Rank(c: Check): nat {
    match c
    case UrlCheck => 0
    case DelayCheck => 1
    case ReloadIntervalCheck => 2
  }

  /** A check failing, as the code tests it. */
  predicate Fails(p: PageFields, c: Check) {
    match c
    case UrlCheck => p.url.None? || p.url.value == "" || |Trim(p.url.value)| == 0
    case DelayCheck => LessThan(p.delay, 3.0)
    case ReloadIntervalCheck => LessThan(p.reloadInterval, 0.0)
  }

  lemma UrlCheckFailsIffBlank(p: PageFields)
    ensures Fails(p, UrlCheck) <==> !(p.url.Some? && !IsBlank(p.url.value))
  {
    if p.url.Some? {
      TrimEmptyIffBlank(p.url.value);
    }
  }

  /** All three checks run: the failing ones, each once, in the order url, delay, reloadInterval. */
  function FailedChecks(p: PageFields): (r: seq<Check>)
    ensures forall c :: c in r <==> Fails(p, c)
    ensures forall a, b :: 0 <= a < b < |r| ==> Rank(r[a]) < Rank(r[b])
    ensures r == [] <==> PageValid(p)
  {
    UrlCheckFailsIffBlank(p);
    var u, d, ri := Fails(p, UrlCheck), Fails(p, DelayCheck), Fails(p, ReloadIntervalCheck);
    if u then
      if d then (if ri then [UrlCheck, DelayCheck, ReloadIntervalCheck] else [UrlCheck, DelayCheck])
      else (if ri then [UrlCheck, ReloadIntervalCheck] else [UrlCheck])
    else
      if d then (if ri then [DelayCheck, ReloadIntervalCheck] else [DelayCheck])
      else (if ri then [ReloadIntervalCheck] else [])
  }

  function CheckMessage(c: Check, index: nat): string {
    var field := "pages[" + NatToString(index) + "]";
    match c
    case UrlCheck => field + ".url must be a non-empty string."
    case DelayCheck => field + ".delay must be equal or greater than 3."
    case ReloadIntervalCheck => field + ".reloadInterval must be equal or greater than 0."
  }

  /** The error message for the failed checks of the page at `index`. */
  function FailureMessage(checks: seq<Check>, index: nat): string {
    ValidationFailedPrefix + Join(seq(|checks|, k requires 0 <= k < |checks| => CheckMessage(checks[k], index)), " ")
  }

  /** One page: valid exactly when no check fails; otherwise one error whose
      message lists the failed checks. */
  function ValidatePageConfig(p: PageFields, index: nat): (r: Verdict)
    ensures r.Valid? <==> PageValid(p)
    ensures r.Invalid? ==> r.message == FailureMessage(FailedChecks(p), index)
    ensures r.Invalid? ==> StartsWith(r.message, ValidationFailedPrefix)
  {
    var checks := FailedChecks(p);
    if |checks| > 0 then Invalid(FailureMessage(checks, index)) else Valid
  }

  /** Running one validation and keeping its error, if it threw one. */
  function CollectErrors(v: Verdict, errors: seq<string>): (r: seq<string>)
    ensures |errors| <= |r| && r[..|errors|] == errors
    ensures |r| == |errors| + 1 <==> v.Invalid?
    ensures v.Invalid? ==> r[|errors|] == v.message
  {
    if v.Invalid? then errors + [v.message] else errors
  }

  /** The verdict of every page, each validated with its own index. */
  function PageVerdicts(pages: seq<PageFields>): (r: seq<Verdict>)
    ensures |r| == |pages|
    ensures forall i :: 0 <= i < |pages| ==> r[i] == ValidatePageConfig(pages[i], i)
  {
    seq(|pages|, i requires 0 <= i < |pages| => ValidatePageConfig(pages[i], i))
  }

  /** The loop over the verdicts from index `i` on, collecting into `errors`. */
  function ErrorsFrom(vs: seq<Verdict>, i: nat, errors: seq<string>): (r: seq<string>)
    requires i <= |vs|
    decreases |vs| - i
    ensures |errors| <= |r| <= |errors| + (|vs| - i) && r[..|errors|] == errors
  {
    if i == |vs| then errors
    else ErrorsFrom(vs, i + 1, CollectErrors(vs[i], errors))
  }

  /** The indices from `i` on of the verdicts that reject, in increasing order. */
  function InvalidFrom(vs: seq<Verdict>, i: nat): (r: seq<nat>)
    requires i <= |vs|
    decreases |vs| - i
    ensures forall k :: 0 <= k < |r| ==> i <= r[k] < |vs| && vs[r[k]].Invalid?
    ensures forall k, l :: 0 <= k < l < |r| ==> r[k] < r[l]
  {
    if i == |vs| then []
    else (if vs[i].Valid? then [] else [i]) + InvalidFrom(vs, i + 1)
  }

  /** No rejecting verdict from `i` on is missed. */
  lemma {:induction false} InvalidFromComplete(vs: seq<Verdict>, i: nat, j: nat)
    requires i <= j < |vs| && vs[j].Invalid?
    decreases |vs| - i
    ensures j in InvalidFrom(vs, i)
  {
    if i < j {
      InvalidFromComplete(vs, i + 1, j);
    }
  }

  /** The messages of the rejecting verdicts from index `i` on, in order. */
  function MessagesFrom(vs: seq<Verdict>, i: nat): seq<string>
    requires i <= |vs|
    decreases |vs| - i
  {
    if i == |vs| then []
    else (if vs[i].Invalid? then [vs[i].message] else []) + MessagesFrom(vs, i + 1)
  }

  /** One message per index `InvalidFrom` lists, that verdict's message, in that order. */
  lemma {:induction false} MessagesFromInvalid(vs: seq<Verdict>, i: nat)
    requires i <= |vs|
    decreases |vs| - i
    ensures |MessagesFrom(vs, i)| == |InvalidFrom(vs, i)|
    ensures forall k :: 0 <= k < |InvalidFrom(vs, i)| ==>
              MessagesFrom(vs, i)[k] == vs[InvalidFrom(vs, i)[k]].message
  {
    if i < |vs| {
      MessagesFromInvalid(vs, i + 1);
      var ms, inv := MessagesFrom(vs, i + 1), InvalidFrom(vs, i + 1);
      if vs[i].Invalid? {
        assert MessagesFrom(vs, i) == [vs[i].message] + ms;
        assert InvalidFrom(vs, i) == [i] + inv;
      } else {
        assert MessagesFrom(vs, i) == ms;
        assert InvalidFrom(vs, i) == inv;
      }
    }
  }

  /** The loop keeps what was collected before and appends the messages of the
      rejecting verdicts, in order. */
  lemma {:induction false} ErrorsFromInvalid(vs: seq<Verdict>, i: nat, errors: seq<string>)
    requires i <= |vs|
    decreases |vs| - i
    ensures ErrorsFrom(vs, i, errors) == errors + MessagesFrom(vs, i)
  {
    if i == |vs| {
      assert errors + [] == errors;
    } else {
      var collected := CollectErrors(vs[i], errors);
      ErrorsFromInvalid(vs, i + 1, collected);
      var later := MessagesFrom(vs, i + 1);
      if vs[i].Invalid? {
        var m := vs[i].message;
        assert (errors + [m]) + later == errors + ([m] + later);
      }
    }
  }

  /** The errors gathered for a configuration: one for missing pages, otherwise
      exactly one per failing page, that page's message, in page order. */
  function ConfigErrors(c: ConfigFields): (r: seq<string>)
    ensures c.pages.None? ==> r == [PagesUndefinedMessage]
    ensures c.pages.Some? ==>
              var pages, f := c.pages.value, InvalidFrom(PageVerdicts(c.pages.value), 0);
              && |r| == |f|
              && (forall k :: 0 <= k < |f| ==>
                    && f[k] < |pages| && !PageValid(pages[f[k]])
                    && r[k] == ValidatePageConfig(pages[f[k]], f[k]).message)
              && (forall k, l :: 0 <= k < l < |f| ==> f[k] < f[l])
              && (forall j :: 0 <= j < |pages| && !PageValid(pages[j]) ==> j in f)
  {
    if c.pages.None? then [PagesUndefinedMessage]
    else
      var vs := PageVerdicts(c.pages.value);
      ErrorsFromInvalid(vs, 0, []);
      MessagesFromInvalid(vs, 0);
      forall j | 0 <= j < |vs| && vs[j].Invalid?
        ensures j in InvalidFrom(vs, 0)
      {
        InvalidFromComplete(vs, 0, j);
      }
      assert [] + MessagesFrom(vs, 0) == MessagesFrom(vs, 0);
      ErrorsFrom(vs, 0, [])
  }

  /** Every collected page error carries the "Validation failed: " prefix. */
  lemma {:induction false} PageErrorsPrefixed(c: ConfigFields, k: nat)
    requires c.pages.Some? && k < |ConfigErrors(c)|
    ensures StartsWith(ConfigErrors(c)[k], ValidationFailedPrefix)
  {
    var pages, f := c.pages.value, InvalidFrom(PageVerdicts(c.pages.value), 0);
    assert !PageValid(pages[f[k]]);
  }

  /** Errors are collected exactly when the configuration is not valid. */
  lemma {:induction false} NoErrorsIffValid(c: ConfigFields)
    ensures |ConfigErrors(c)| == 0 <==> ConfigValid(c)
  {
    if c.pages.Some? {
      var pages := c.pages.value;
      var vs := PageVerdicts(pages);
      var f := InvalidFrom(vs, 0);
      assert |ConfigErrors(c)| == |f|;
      if |f| > 0 {
        assert vs[f[0]].Invalid?;
        assert !PageValid(pages[f[0]]);
      } else {
        forall j | 0 <= j < |pages|
          ensures PageValid(pages[j])
        {
          if !PageValid(pages[j]) {
            assert false;
          }
        }
      }
    }
  }

  /** Joining errors of which the first carries the prefix, and putting the
      prefix in front again, gives a message that starts with it twice. */
  lemma JoinedErrorsPrefixed(errors: seq<string>)
    requires |errors| > 0 && StartsWith(errors[0], ValidationFailedPrefix)
    ensures StartsWith(ValidationFailedPrefix + Join(errors, " "), ValidationFailedPrefix + ValidationFailedPrefix)
  {
    var joined := Join(errors, " ");
    PrefixTransitive(joined, errors[0], ValidationFailedPrefix);
    PrefixExtends(ValidationFailedPrefix, joined, ValidationFailedPrefix);
  }

  /** The whole configuration: accepted exactly when pages are present and every
      page is valid; otherwise one error joining all collected messages. Each
      page message already carries the "Validation failed: " prefix, so a
      rejected page list reports it twice. */
  function ValidateConfigData(c: ConfigFields): (r: Verdict)
    ensures r.Valid? <==> ConfigValid(c)
    ensures c.pages.None? ==> r == Invalid(ValidationFailedPrefix + PagesUndefinedMessage)
    ensures c.pages == Some([]) ==> r == Valid
    ensures r.Invalid? ==> StartsWith(r.message, ValidationFailedPrefix)
    ensures c.pages.Some? && r.Invalid? ==> StartsWith(r.message, ValidationFailedPrefix + ValidationFailedPrefix)
    ensures r.Invalid? ==> r.message == ValidationFailedPrefix + Join(ConfigErrors(c), " ")
  {
    var errors := ConfigErrors(c);
    NoErrorsIffValid(c);
    if |errors| > 0 then
      var message := ValidationFailedPrefix + Join(errors, " ");
      assert message[..|ValidationFailedPrefix|] == ValidationFailedPrefix;
      if c.pages.Some? then
        PageErrorsPrefixed(c, 0);
        JoinedErrorsPrefixed(errors);
        Invalid(message)
      else Invalid(message)
    else Valid
  }

  /** Boundary values: a delay of exactly 3 and a reload interval of exactly 0
      pass, a delay of 2.5 or a reload interval of -1 fails, a missing delay
      passes but a `null` one fails, and a `null` reload interval passes. */
  lemma ValidationBoundaries(url: string)
    requires !IsBlank(url)
    ensures ValidatePageConfig(PageFields(Some(url), Number(3.0), Number(0.0)), 0) == Valid
    ensures ValidatePageConfig(PageFields(Some(url), Number(2.5), Number(0.0)), 0).Invalid?
    ensures ValidatePageConfig(PageFields(Some(url), Number(3.0), Number(-1.0)), 0).Invalid?
    ensures ValidatePageConfig(PageFields(Some(url), Undefined, Null), 0) == Valid
    ensures ValidatePageConfig(PageFields(Some(url), Null, Undefined), 0).Invalid?
  {
  }

  /** A url made only of white space fails, whatever the numbers. */
  lemma BlankUrlFails(url: string, delay: JsonNumber, reloadInterval: JsonNumber)
    requires IsBlank(url)
    ensures ValidatePageConfig(PageFields(Some(url), delay, reloadInterval), 0).Invalid?
  {
  }
}
