/**
 * `validatePostInput` (server/utils/tempPostManager.ts), which inspects an
 * untyped request body and reports every violated rule, in field order.
 */
module Validation {
  import opened Common
  import opened Text
  import opened Posts

  /**
   * A JSON-decoded body value. Arrays are modelled as arrays of strings;
   * `Obj` stands for any object.
   */
  datatype Value = Undefined | Null | Bool(b: bool) | Num(n: int) | Str(s: string) | StrArray(items: seq<string>) | Obj

  /** JavaScript truthiness (`NaN` is not modelled). */
  predicate Truthy(v: Value) {
    match v
    case Undefined => false
    case Null => false
    case Bool(b) => b
    case Num(n) => n != 0
    case Str(s) => s != ""
    case StrArray(_) => true
    case Obj => true
  }

  /** The fields of a post body that the validator looks at. */
  datatype Body = Body(
    title: Value,
    description: Value,
    content: Value,
    publishedAt: Value,
    tags: Value,
    sendAsNewsletter: Value)

  datatype Verdict = Verdict(valid: bool, errors: seq<string>)

  const TitleRequired: string := "Title is required"
  const DescriptionRequired: string := "Description is required"
  const ContentRequired: string := "Content is required"
  const DateRequired: string := "Published date is required"
  const DateInvalid: string := "Published date must be a valid date"
  const TagsNotArray: string := "Tags must be an array"
  const NewsletterNotBool: string := "Send as newsletter must be a boolean"

  /** The position of each message in the order the checks run. */
  function Rank(message: string): int {
    if message == TitleRequired then 0
    else if message == DescriptionRequired then 1
    else if message == ContentRequired then 2
    else if message == DateRequired then 3
    else if message == DateInvalid then 4
    else if message == TagsNotArray then 5
    else if message == NewsletterNotBool then 6
    else 7
  }

  /** `!v || typeof v !== 'string' || v.trim().length === 0`. */
  predicate MissingText(v: Value) {
    !Truthy(v) || !v.Str? || Blank(v.s)
  }

  /** A string field with some non-blank character: what the text checks accept. */
  predicate FilledText(v: Value) {
    v.Str? && exists i :: 0 <= i < |v.s| && !IsSpace(v.s[i])
  }

  /** A non-empty string date: what the presence check on `publishedAt` accepts. */
  predicate DatePresent(v: Value) {
    v.Str? && v.s != ""
  }

  /** The messages of the failed checks, in the order the checks are listed. */
  function Collect(checks: seq<(bool, string)>): seq<string> {
    if |checks| == 0 then []
    else (if checks[0].0 then [checks[0].1] else []) + Collect(checks[1..])
  }

  /** Checks listed in strictly increasing message rank. */
  predicate RankOrdered(checks: seq<(bool, string)>) {
    forall i, j :: 0 <= i < j < |checks| ==> Rank(checks[i].1) < Rank(checks[j].1)
  }

  /**
   * `validatePostInput(data)`. Whether a date string parses is left to the
   * parameter `validDate` (`!isNaN(new Date(s).getTime())`).
   */
  function Validate(body: Body, validDate: string -> bool): (r: Verdict)
    ensures r.valid <==> |r.errors| == 0
    ensures TitleRequired in r.errors <==> !FilledText(body.title)
    ensures DescriptionRequired in r.errors <==> !FilledText(body.description)
    ensures ContentRequired in r.errors <==> !FilledText(body.content)
    ensures DateRequired in r.errors <==> !DatePresent(body.publishedAt)
    ensures DateInvalid in r.errors <==> DatePresent(body.publishedAt) && !validDate(body.publishedAt.s)
    ensures TagsNotArray in r.errors <==> !body.tags.StrArray?
    ensures NewsletterNotBool in r.errors <==> !body.sendAsNewsletter.Bool?
    ensures forall i :: 0 <= i < |r.errors| ==> Rank(r.errors[i]) < 7
    ensures forall i, j :: 0 <= i < j < |r.errors| ==> Rank(r.errors[i]) < Rank(r.errors[j])
  {
    var p := body.publishedAt;
    var dateMissing := !Truthy(p) || !p.Str?;
    var checks := [
      (MissingText(body.title), TitleRequired),
      (MissingText(body.description), DescriptionRequired),
      (MissingText(body.content), ContentRequired),
      (dateMissing, DateRequired),
      (!dateMissing && !validDate(p.s), DateInvalid),
      (!body.tags.StrArray?, TagsNotArray),
      (!body.sendAsNewsletter.Bool?, NewsletterNotBool)];
    ValidateFacts(body, checks);
    var errors := Collect(checks);
    Verdict(|errors| == 0, errors)
  }

  lemma ValidateFacts(body: Body, checks: seq<(bool, string)>)
    requires |checks| == 7
    requires checks[0].1 == TitleRequired && checks[1].1 == DescriptionRequired
    requires checks[2].1 == ContentRequired && checks[3].1 == DateRequired
    requires checks[4].1 == DateInvalid && checks[5].1 == TagsNotArray
    requires checks[6].1 == NewsletterNotBool
    ensures forall k :: 0 <= k < 7 ==> (checks[k].1 in Collect(checks) <==> checks[k].0)
    ensures forall i :: 0 <= i < |Collect(checks)| ==> Rank(Collect(checks)[i]) < 7
    ensures forall i, j :: 0 <= i < j < |Collect(checks)| ==> Rank(Collect(checks)[i]) < Rank(Collect(checks)[j])
    ensures MissingText(body.title) <==> !FilledText(body.title)
    ensures MissingText(body.description) <==> !FilledText(body.description)
    ensures MissingText(body.content) <==> !FilledText(body.content)
  {
    MissingTextIff(body.title);
    MissingTextIff(body.description);
    MissingTextIff(body.content);
    assert RankOrdered(checks);
    CollectRanks(checks);
    assert forall m :: m in Collect(checks) ==> Rank(m) <= 6;
    forall k | 0 <= k < 7
      ensures checks[k].1 in Collect(checks) <==> checks[k].0
    {
      CollectMembers(checks, k);
    }
  }

  lemma {:induction false} CollectMembers(checks: seq<(bool, string)>, k: nat)
    requires RankOrdered(checks)
    requires k < |checks|
    ensures checks[k].1 in Collect(checks) <==> checks[k].0
    decreases |checks|
  {
    var rest := Collect(checks[1..]);
    assert Collect(checks) == (if checks[0].0 then [checks[0].1] else []) + rest;
    CollectRanks(checks[1..]);
    if k == 0 {
      if |checks| > 1 {
        assert Rank(checks[0].1) < Rank(checks[1].1);
      }
      assert checks[0].1 !in rest;
    } else {
      CollectMembers(checks[1..], k - 1);
      assert checks[k].1 != checks[0].1 by {
        assert Rank(checks[0].1) < Rank(checks[k].1);
      }
    }
  }

  /** The collected messages come out in strictly increasing rank, none ranked below the first check. */
  lemma {:induction false} CollectRanks(checks: seq<(bool, string)>)
    requires RankOrdered(checks)
    ensures |checks| > 0 ==> forall m :: m in Collect(checks) ==> Rank(checks[0].1) <= Rank(m)
    ensures |checks| > 0 ==> forall m :: m in Collect(checks) ==> Rank(m) <= Rank(checks[|checks| - 1].1)
    ensures forall i, j :: 0 <= i < j < |Collect(checks)| ==> Rank(Collect(checks)[i]) < Rank(Collect(checks)[j])
    decreases |checks|
  {
    if |checks| > 0 {
      var rest := Collect(checks[1..]);
      var head := if checks[0].0 then [checks[0].1] else [];
      assert Collect(checks) == head + rest;
      CollectRanks(checks[1..]);
      if |checks| > 1 {
        assert Rank(checks[0].1) < Rank(checks[1].1);
        assert forall m :: m in rest ==> Rank(checks[0].1) < Rank(m);
        assert checks[1..][|checks| - 2] == checks[|checks| - 1];
      } else {
        assert rest == [];
      }
    }
  }

  lemma MissingTextIff(v: Value)
    ensures MissingText(v) <==> !FilledText(v)
  {
    if v.Str? && !Blank(v.s) {
      var i :| 0 <= i < |v.s| && !IsSpace(v.s[i]);
    }
  }

  /** The published date never draws both of its messages. */
  lemma DateMessagesExclusive(body: Body, validDate: string -> bool)
    ensures !(DateRequired in Validate(body, validDate).errors && DateInvalid in Validate(body, validDate).errors)
  {
  }

  /** A body every check accepts has the types `createTempPost` relies on. */
  predicate WellTyped(body: Body) {
    body.title.Str? && body.description.Str? && body.content.Str?
    && body.publishedAt.Str? && body.tags.StrArray? && body.sendAsNewsletter.Bool?
  }

  lemma ValidIsWellTyped(body: Body, validDate: string -> bool)
    requires Validate(body, validDate).valid
    ensures WellTyped(body)
  {
    assert TitleRequired !in Validate(body, validDate).errors;
  }

  /** The typed input a validated body is read as. */
  function ToInput(body: Body): (input: PostInput)
    requires WellTyped(body)
  {
    PostInput(body.title.s, body.description.s, body.content.s,
      body.publishedAt.s, body.tags.items, body.sendAsNewsletter.b)
  }
}
