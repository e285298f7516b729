/**
 * The newsletter sign-up handler, server/api/subscribe.post.ts: the e-mail
 * checks, the demo mode used when the mailing provider is not configured,
 * and how the provider's answer becomes the response. The provider call is
 * a parameter: its outcome is given, not computed.
 */
module Subscribe {
  import opened Common
  import opened Text
  import opened Validation

  /** The mailing provider's credentials and list id; "" stands for unset. */
  datatype MailConfig = MailConfig(apiKey: string, secretKey: string, listId: string)

  /**
   * What reaches the handler's `catch`. `response` is the provider's HTTP
   * answer, when there was one: its status and the `ErrorMessage` of its
   * body. `statusCode` is 0 and `statusMessage` "" when the error has none.
   */
  datatype Thrown = Thrown(response: Option<(int, Option<string>)>, statusCode: int, statusMessage: string)

  datatype Reply =
    | Success(message: string)
    | HttpError(status: int, message: string)

  const EmailRequired: string := "Email is required"
  const InvalidFormat: string := "Invalid email format"
  const DemoMessage: string := "Subscription successful (demo mode)"
  const Subscribed: string := "Successfully subscribed to newsletter!"
  const AlreadySubscribed: string := "You are already subscribed!"
  const SubscribeFailed: string := "Failed to subscribe to newsletter"
  const AlreadyExists: string := "already exists"

  /** A character of the class `[^\s@]`. */
  predicate Plain(c: char) {
    c != '@' && !IsSpace(c)
  }

  /** `[^\s@]+`: a non-empty run of plain characters. */
  predicate PlainRun(t: string) {
    |t| > 0 && forall j :: 0 <= j < |t| ==> Plain(t[j])
  }

  /**
   * The pattern `^[^\s@]+@[^\s@]+\.[^\s@]+$` as a language: the string splits
   * at an `@` (position `k`) and a later `.` (position `i`) into three
   * non-empty plain runs.
   */
  ghost predicate MatchesPattern(s: string) {
    exists k, i :: 0 <= k < i < |s| && s[k] == '@' && s[i] == '.'
      && PlainRun(s[..k]) && PlainRun(s[k+1..i]) && PlainRun(s[i+1..])
  }

  /** Position of the first `@`, if any. */
  function FirstAt(s: string): (r: Option<nat>)
    ensures r.Some? ==> r.value < |s| && s[r.value] == '@'
    ensures r.Some? ==> forall j :: 0 <= j < r.value ==> s[j] != '@'
    ensures r.None? ==> forall j :: 0 <= j < |s| ==> s[j] != '@'
  {
    if |s| == 0 then None
    else if s[0] == '@' then Some(0)
    else
      var rest := FirstAt(s[1..]);
      if rest.None? then None else Some(rest.value + 1)
  }

  /**
   * The check the handler applies, stated as a shape: no white space, a
   * single `@` that is not the first character, and after it a `.` that
   * neither directly follows the `@` nor ends the string.
   */
  function WellFormedEmail(s: string): (ok: bool) {
    NoSpace(s) && FirstAt(s).Some? && SoleAt(s, FirstAt(s).value) && DotAfter(s, FirstAt(s).value)
  }

  predicate NoSpace(s: string) {
    forall j :: 0 <= j < |s| ==> !IsSpace(s[j])
  }

  /** The `@` at `k` is not the first character and no `@` follows it. */
  predicate SoleAt(s: string, k: nat) {
    k > 0 && forall j :: k < j < |s| ==> s[j] != '@'
  }

  /** Some `.` lies strictly between the character after position `k` and the last one. */
  predicate DotAfter(s: string, k: nat) {
    exists i :: k + 1 < i < |s| - 1 && s[i] == '.'
  }

  /** A well-formed address matches the pattern. */
  lemma WellFormedMatches(s: string)
    requires WellFormedEmail(s)
    ensures MatchesPattern(s)
  {
    var k := FirstAt(s).value;
    var i :| k + 1 < i < |s| - 1 && s[i] == '.';
    assert PlainRun(s[..k]);
    assert PlainRun(s[k+1..i]);
    assert PlainRun(s[i+1..]);
  }

  /** An `@` with none before it is the first one. */
  lemma {:induction false} FirstAtIs(s: string, k: nat)
    requires k < |s| && s[k] == '@'
    requires forall j :: 0 <= j < k ==> s[j] != '@'
    ensures FirstAt(s) == Some(k)
    decreases k
  {
    if k > 0 {
      FirstAtIs(s[1..], k - 1);
    }
  }

  /** Every character of a plain run, read back in the string it was cut from, is plain. */
  lemma PlainSlice(s: string, lo: nat, hi: nat)
    requires lo <= hi <= |s| && PlainRun(s[lo..hi])
    ensures forall j :: lo <= j < hi ==> Plain(s[j])
  {
    forall j | lo <= j < hi
      ensures Plain(s[j])
    {
      assert s[j] == s[lo..hi][j - lo];
    }
  }

  /** The shape read off the positions of the `@` and the `.`. */
  lemma ShapeOfParts(s: string, k: nat, i: nat)
    requires 0 < k && k + 1 < i < |s| - 1 && s[k] == '@' && s[i] == '.'
    requires forall j :: 0 <= j < |s| && j != k && j != i ==> Plain(s[j])
    ensures WellFormedEmail(s)
  {
    FirstAtIs(s, k);
    forall j | 0 <= j < |s|
      ensures !IsSpace(s[j])
    {
      if j != k && j != i {
        assert Plain(s[j]);
      }
    }
    assert DotAfter(s, k);
  }

  /** An address that matches the pattern is well formed. */
  lemma MatchesWellFormed(s: string)
    requires MatchesPattern(s)
    ensures WellFormedEmail(s)
  {
    var k, i :| 0 <= k < i < |s| && s[k] == '@' && s[i] == '.'
      && PlainRun(s[..k]) && PlainRun(s[k+1..i]) && PlainRun(s[i+1..]);
    PlainSlice(s, 0, k);
    PlainSlice(s, k + 1, i);
    PlainSlice(s, i + 1, |s|);
    ShapeOfParts(s, k, i);
  }

  /** The shape check accepts exactly the strings the pattern matches. */
  lemma EmailCheckIsPattern(s: string)
    ensures WellFormedEmail(s) <==> MatchesPattern(s)
  {
    if WellFormedEmail(s) { WellFormedMatches(s); }
    if MatchesPattern(s) { MatchesWellFormed(s); }
  }

  /** `!apiKey || !secretKey || !listId`: any unset setting means demo mode. */
  predicate Configured(config: MailConfig) {
    config.apiKey != "" && config.secretKey != "" && config.listId != ""
  }

  /**
   * The `catch` block: a provider 400 whose message mentions an existing
   * contact is a success; anything else is answered with the error's own
   * status and message, or 500 and a generic message when it has none.
   */
  function Catch(t: Thrown): (r: Reply)
    ensures r.Success? <==>
      (t.response.Some? && t.response.value.0 == 400 && t.response.value.1.Some?
       && Contains(t.response.value.1.value, AlreadyExists))
    ensures r.Success? ==> r.message == AlreadySubscribed
    ensures r.HttpError? ==> r.status == (if t.statusCode != 0 then t.statusCode else 500)
    ensures r.HttpError? ==> r.message == (if t.statusMessage != "" then t.statusMessage else SubscribeFailed)
  {
    if t.response.Some? && t.response.value.0 == 400 && t.response.value.1.Some?
       && Contains(t.response.value.1.value, AlreadyExists)
    then Success(AlreadySubscribed)
    else HttpError(if t.statusCode != 0 then t.statusCode else 500,
                   if t.statusMessage != "" then t.statusMessage else SubscribeFailed)
  }

  /**
   * The handler. `email` is `None` when the request has no body: taking
   * `email` apart from `undefined` then throws a `TypeError`, which carries
   * neither a response nor a status. Otherwise it is the body's `email`
   * field. `provider` is the outcome of the provider call: `None` when it
   * succeeded, else what it threw. Every failure goes through `Catch`.
   */
  function HandleSubscribe(email: Option<Value>, config: MailConfig, provider: Option<Thrown>): (r: Reply)
    ensures email.None? ==> r == HttpError(500, SubscribeFailed)
    ensures email.Some? && !(email.value.Str? && email.value.s != "") ==> r == HttpError(400, EmailRequired)
    ensures r == Success(Subscribed) ==>
      email.Some? && email.value.Str? && WellFormedEmail(email.value.s) && Configured(config) && provider.None?
    ensures r == Success(DemoMessage) ==> !Configured(config)
  {
    if email.None? then Catch(Thrown(None, 0, ""))
    else
    var email := email.value;
    if !Truthy(email) || !email.Str? then Catch(Thrown(None, 400, EmailRequired))
    else if !WellFormedEmail(email.s) then Catch(Thrown(None, 400, InvalidFormat))
    else if !Configured(config) then Success(DemoMessage)
    else if provider.None? then Success(Subscribed)
    else Catch(provider.value)
  }

  /** An e-mail the pattern rejects is a 400 and the provider is never asked. */
  lemma MalformedEmail(s: string, config: MailConfig, provider: Option<Thrown>)
    requires s != "" && !MatchesPattern(s)
    ensures HandleSubscribe(Some(Str(s)), config, provider) == HttpError(400, InvalidFormat)
  {
    EmailCheckIsPattern(s);
  }

  /** Without full configuration a matching address succeeds in demo mode, whatever the provider would do. */
  lemma DemoMode(s: string, config: MailConfig, provider: Option<Thrown>)
    requires MatchesPattern(s) && !Configured(config)
    ensures HandleSubscribe(Some(Str(s)), config, provider) == Success(DemoMessage)
  {
    EmailCheckIsPattern(s);
  }

  /** With the provider configured, a matching address gets the provider's verdict. */
  lemma ProviderDecides(s: string, config: MailConfig, provider: Option<Thrown>)
    requires MatchesPattern(s) && Configured(config)
    ensures HandleSubscribe(Some(Str(s)), config, provider)
      == (if provider.None? then Success(Subscribed) else Catch(provider.value))
  {
    EmailCheckIsPattern(s);
  }

  /** An existing contact is reported as a success. */
  lemma AlreadyListed(s: string, config: MailConfig, message: string, code: int, statusMessage: string)
    requires MatchesPattern(s) && Configured(config)
    requires Contains(message, AlreadyExists)
    ensures HandleSubscribe(Some(Str(s)), config, Some(Thrown(Some((400, Some(message))), code, statusMessage)))
      == Success(AlreadySubscribed)
  {
    EmailCheckIsPattern(s);
  }

  /** The handler succeeds exactly for a matching address in demo mode, on provider success, or for an existing contact. */
  lemma SuccessCases(email: Option<Value>, config: MailConfig, provider: Option<Thrown>)
    ensures HandleSubscribe(email, config, provider).Success? <==>
      (email.Some? && email.value.Str? && email.value.s != "" && MatchesPattern(email.value.s)
       && (!Configured(config) || provider.None? || Catch(provider.value).Success?))
  {
    if email.Some? && email.value.Str? && email.value.s != "" {
      EmailCheckIsPattern(email.value.s);
    }
  }
}
