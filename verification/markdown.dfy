/**
 * `tempPostToMarkdown` (server/utils/tempPostManager.ts): the markdown file
 * a draft is materialised as, a YAML front-matter block followed by the
 * content. Titles and descriptions are written as single-quoted YAML
 * scalars (section 7.3.2 of YAML 1.2), tags as a JSON array.
 *
 * A reader for exactly this layout is given next to the writer; the round
 * trip between the two says which fields survive materialisation.
 */
module Markdown {
  import opened Common
  import opened Json
  import opened Posts

  // -----------------------------------------------------------------------
  // Single-quoted scalars
  // -----------------------------------------------------------------------

  /** `s.replace(/'/g, "''")`: every single quote doubled. */
  function QuoteEscape(s: string): string {
    if |s| == 0 then []
    else (if s[0] == '\'' then "''" else [s[0]]) + QuoteEscape(s[1..])
  }

  function Cons(c: char, r: Option<string>): Option<string> {
    match r
    case None => None
    case Some(t) => Some([c] + t)
  }

  /** The text of a single-quoted scalar body: `''` stands for `'`, a lone `'` is malformed. */
  function Unquote(s: string): Option<string>
    decreases |s|
  {
    if |s| == 0 then Some([])
    else if s[0] == '\'' then
      if |s| >= 2 && s[1] == '\'' then Cons('\'', Unquote(s[2..])) else None
    else Cons(s[0], Unquote(s[1..]))
  }

  /** Un-doubling recovers the original text. */
  lemma {:induction false} UnquoteEscape(s: string)
    ensures Unquote(QuoteEscape(s)) == Some(s)
    decreases |s|
  {
    if |s| > 0 {
      var e := QuoteEscape(s);
      UnquoteEscape(s[1..]);
      if s[0] == '\'' {
        assert e[2..] == QuoteEscape(s[1..]);
      } else {
        assert e[1..] == QuoteEscape(s[1..]);
      }
      assert [s[0]] + s[1..] == s;
    }
  }

  /** Text without a single quote is its own scalar body. */
  lemma {:induction false} UnquotePlain(s: string)
    requires '\'' !in s
    ensures Unquote(s) == Some(s)
    decreases |s|
  {
    if |s| > 0 {
      UnquotePlain(s[1..]);
      assert [s[0]] + s[1..] == s;
    }
  }

  /** Doubling quotes neither adds nor removes line breaks. */
  lemma {:induction false} QuoteEscapeNewline(s: string)
    ensures '\n' in QuoteEscape(s) <==> '\n' in s
    decreases |s|
  {
    if |s| > 0 {
      QuoteEscapeNewline(s[1..]);
      assert s == [s[0]] + s[1..];
    }
  }

  // -----------------------------------------------------------------------
  // Lines
  // -----------------------------------------------------------------------

  /** Each line followed by a line break. */
  function Lines(ls: seq<string>): string {
    if |ls| == 0 then "" else ls[0] + "\n" + Lines(ls[1..])
  }

  predicate SingleLines(ls: seq<string>) {
    forall i :: 0 <= i < |ls| ==> '\n' !in ls[i]
  }

  /** The text before the first line break, and the text after it. */
  function SplitLine(s: string): (r: Option<(string, string)>)
    ensures r.Some? ==> |r.value.1| < |s|
  {
    if |s| == 0 then None
    else if s[0] == '\n' then Some(([], s[1..]))
    else
      match SplitLine(s[1..])
      case None => None
      case Some((l, rest)) => Some(([s[0]] + l, rest))
  }

  /** The first `n` lines of `s`, and what follows them. */
  function ReadLines(s: string, n: nat): (r: Option<(seq<string>, string)>)
    ensures r.Some? ==> |r.value.0| == n
    decreases n
  {
    if n == 0 then Some(([], s))
    else
      match SplitLine(s)
      case None => None
      case Some((l, rest)) =>
        match ReadLines(rest, n - 1)
        case None => None
        case Some((ls, tail)) => Some(([l] + ls, tail))
  }

  lemma {:induction false} SplitLineOf(l: string, rest: string)
    requires '\n' !in l
    ensures SplitLine(l + "\n" + rest) == Some((l, rest))
    decreases |l|
  {
    if |l| == 0 {
      assert l + "\n" + rest == "\n" + rest;
    } else {
      assert (l + "\n" + rest)[1..] == l[1..] + "\n" + rest;
      SplitLineOf(l[1..], rest);
      assert [l[0]] + l[1..] == l;
    }
  }

  /** Lines without line breaks are read back one by one. */
  lemma {:induction false} LinesRead(ls: seq<string>, tail: string)
    requires SingleLines(ls)
    ensures ReadLines(Lines(ls) + tail, |ls|) == Some((ls, tail))
    decreases |ls|
  {
    if |ls| > 0 {
      var rest := Lines(ls[1..]) + tail;
      assert Lines(ls) + tail == ls[0] + "\n" + rest;
      SplitLineOf(ls[0], rest);
      assert SingleLines(ls[1..]) by {
        forall i | 0 <= i < |ls| - 1
          ensures '\n' !in ls[1..][i]
        {
          assert ls[1..][i] == ls[i + 1];
        }
      }
      LinesRead(ls[1..], tail);
      assert ReadLines(rest, |ls| - 1) == Some((ls[1..], tail));
      assert [ls[0]] + ls[1..] == ls;
      assert SplitLine(Lines(ls) + tail) == Some((ls[0], rest));
      assert ReadLines(Lines(ls) + tail, |ls|) == Some(([ls[0]] + ls[1..], tail));
    } else {
      assert Lines(ls) + tail == tail;
    }
  }

  // -----------------------------------------------------------------------
  // The document
  // -----------------------------------------------------------------------

  /** `${b}` for a boolean. */
  function BoolText(b: bool): string {
    if b then "true" else "false"
  }

  /** `${v}` for a string or `null`. */
  function NullableText(v: Option<string>): string {
    match v
    case None => "null"
    case Some(s) => s
  }

  /** A `key: value` line. */
  function FieldLine(key: string, value: string): string {
    key + ": " + value
  }

  /** A single-quoted scalar around a text whose quotes are already doubled. */
  function InQuotes(body: string): string {
    "'" + body + "'"
  }

  /** The lines of the front-matter block, up to and including the blank line after it. */
  function FrontLines(p: TempPost): seq<string> {
    [ "---",
      FieldLine("title", InQuotes(QuoteEscape(p.title))),
      FieldLine("description", InQuotes(QuoteEscape(p.description))),
      FieldLine("publishedAt", InQuotes(p.publishedAt)),
      FieldLine("tags", StringArray(p.tags)),
      FieldLine("sendAsNewsletter", BoolText(p.sendAsNewsletter)),
      FieldLine("newsletterSentAt", NullableText(p.newsletterSentAt)),
      "---",
      "" ]
  }

  /** `tempPostToMarkdown(post)`: the front matter, then the content verbatim. */
  function ToMarkdown(p: TempPost): (doc: string)
    ensures |doc| >= |p.content| && doc[|doc| - |p.content|..] == p.content
  {
    Lines(FrontLines(p)) + p.content
  }

  /** The front-matter fields, as a reader of the file sees them. */
  datatype Front = Front(
    title: string,
    description: string,
    publishedAt: string,
    tags: seq<string>,
    sendAsNewsletter: bool,
    newsletterSentAt: Option<string>)

  function FrontOf(p: TempPost): Front {
    Front(p.title, p.description, p.publishedAt, p.tags, p.sendAsNewsletter, p.newsletterSentAt)
  }

  /** The value of a `key: value` line. */
  function Field(line: string, key: string): (r: Option<string>)
    ensures r.Some? ==> line == FieldLine(key, r.value)
  {
    var prefix := key + ": ";
    if |prefix| <= |line| && line[..|prefix|] == prefix then Some(line[|prefix|..]) else None
  }

  /** A single-quoted scalar. */
  function Quoted(v: string): Option<string> {
    if |v| >= 2 && v[0] == '\'' && v[|v| - 1] == '\'' then Unquote(v[1..|v| - 1]) else None
  }

  /** The unquoted value of a `key: '...'` line. */
  function QuotedField(line: string, key: string): Option<string> {
    var v :- Field(line, key);
    Quoted(v)
  }

  function ReadBool(v: string): Option<bool> {
    if v == "true" then Some(true) else if v == "false" then Some(false) else None
  }

  /** A plain scalar that may be `null`. */
  function ReadNullable(v: string): Option<string> {
    if v == "null" then None else Some(v)
  }

  function ReadTags(v: string): Option<seq<string>> {
    match ReadStringArray(v)
    case Some((tags, rest)) => if rest == "" then Some(tags) else None
    case None => None
  }

  /** Reads the nine front-matter lines. */
  function ReadFront(ls: seq<string>): Option<Front>
    requires |ls| == 9
  {
    if ls[0] != "---" || ls[7] != "---" || ls[8] != "" then None
    else
      var title :- QuotedField(ls[1], "title");
      var description :- QuotedField(ls[2], "description");
      var publishedAt :- QuotedField(ls[3], "publishedAt");
      var tagsText :- Field(ls[4], "tags");
      var tags :- ReadTags(tagsText);
      var flagText :- Field(ls[5], "sendAsNewsletter");
      var flag :- ReadBool(flagText);
      var sentText :- Field(ls[6], "newsletterSentAt");
      Some(Front(title, description, publishedAt, tags, flag, ReadNullable(sentText)))
  }

  /** Reads a materialised file: its front matter and its content. */
  function ReadMarkdown(doc: string): Option<(Front, string)> {
    match ReadLines(doc, 9)
    case None => None
    case Some((ls, content)) =>
      match ReadFront(ls)
      case None => None
      case Some(front) => Some((front, content))
  }

  /**
   * The drafts whose front matter reads back as written: no line break in
   * the fields printed inline, no quote in the date (which is not
   * escaped), and a sent-at stamp that is not the word `null`.
   */
  predicate Representable(p: TempPost) {
    '\n' !in p.title && '\n' !in p.description && '\n' !in p.publishedAt
    && '\'' !in p.publishedAt
    && (p.newsletterSentAt.Some? ==> '\n' !in p.newsletterSentAt.value && p.newsletterSentAt.value != "null")
  }

  lemma FieldOf(key: string, v: string)
    ensures Field(FieldLine(key, v), key) == Some(v)
  {
    var prefix := key + ": ";
    assert (prefix + v)[..|prefix|] == prefix;
    assert (prefix + v)[|prefix|..] == v;
  }

  lemma QuotedOf(key: string, body: string)
    ensures QuotedField(FieldLine(key, InQuotes(body)), key) == Unquote(body)
  {
    FieldOf(key, InQuotes(body));
    assert InQuotes(body)[1..|body| + 1] == body;
  }

  lemma FieldLineSingle(key: string, value: string)
    requires '\n' !in key && '\n' !in value
    ensures '\n' !in FieldLine(key, value)
  {
  }

  lemma FrontLinesSingle(p: TempPost)
    requires Representable(p)
    ensures SingleLines(FrontLines(p))
  {
    QuoteEscapeNewline(p.title);
    QuoteEscapeNewline(p.description);
    StringArrayNoNewline(p.tags);
    FieldLineSingle("title", InQuotes(QuoteEscape(p.title)));
    FieldLineSingle("description", InQuotes(QuoteEscape(p.description)));
    FieldLineSingle("publishedAt", InQuotes(p.publishedAt));
    FieldLineSingle("tags", StringArray(p.tags));
    FieldLineSingle("sendAsNewsletter", BoolText(p.sendAsNewsletter));
    FieldLineSingle("newsletterSentAt", NullableText(p.newsletterSentAt));
  }

  /** The reader accepts nine lines whose fields each read as the given value. */
  lemma ReadFrontOf(ls: seq<string>, front: Front)
    requires |ls| == 9 && ls[0] == "---" && ls[7] == "---" && ls[8] == ""
    requires QuotedField(ls[1], "title") == Some(front.title)
    requires QuotedField(ls[2], "description") == Some(front.description)
    requires QuotedField(ls[3], "publishedAt") == Some(front.publishedAt)
    requires ls[4] == FieldLine("tags", StringArray(front.tags))
    requires ls[5] == FieldLine("sendAsNewsletter", BoolText(front.sendAsNewsletter))
    requires ls[6] == FieldLine("newsletterSentAt", NullableText(front.newsletterSentAt))
    requires front.newsletterSentAt != Some("null")
    ensures ReadFront(ls) == Some(front)
  {
    FieldOf("tags", StringArray(front.tags));
    StringArrayReads(front.tags, "");
    assert StringArray(front.tags) + "" == StringArray(front.tags);
    FieldOf("sendAsNewsletter", BoolText(front.sendAsNewsletter));
    FieldOf("newsletterSentAt", NullableText(front.newsletterSentAt));
  }

  lemma TitleRead(p: TempPost)
    ensures QuotedField(FrontLines(p)[1], "title") == Some(p.title)
  {
    QuotedOf("title", QuoteEscape(p.title));
    UnquoteEscape(p.title);
  }

  lemma DescriptionRead(p: TempPost)
    ensures QuotedField(FrontLines(p)[2], "description") == Some(p.description)
  {
    QuotedOf("description", QuoteEscape(p.description));
    UnquoteEscape(p.description);
  }

  lemma PublishedAtRead(p: TempPost)
    requires '\'' !in p.publishedAt
    ensures QuotedField(FrontLines(p)[3], "publishedAt") == Some(p.publishedAt)
  {
    QuotedOf("publishedAt", p.publishedAt);
    UnquotePlain(p.publishedAt);
  }

  lemma ReadFrontLines(p: TempPost)
    requires Representable(p)
    ensures ReadFront(FrontLines(p)) == Some(FrontOf(p))
  {
    TitleRead(p);
    DescriptionRead(p);
    PublishedAtRead(p);
    ReadFrontOf(FrontLines(p), FrontOf(p));
  }

  /**
   * Materialisation loses nothing a reader of the front matter looks at:
   * the file reads back as the draft's fields and its content.
   */
  lemma MarkdownRoundTrip(p: TempPost)
    requires Representable(p)
    ensures ReadMarkdown(ToMarkdown(p)) == Some((FrontOf(p), p.content))
  {
    FrontLinesSingle(p);
    LinesRead(FrontLines(p), p.content);
    ReadFrontLines(p);
  }

  /** Distinct drafts that are representable give distinct files unless they agree on every written field. */
  lemma MarkdownInjective(p: TempPost, q: TempPost)
    requires Representable(p) && Representable(q)
    requires ToMarkdown(p) == ToMarkdown(q)
    ensures FrontOf(p) == FrontOf(q) && p.content == q.content
  {
    MarkdownRoundTrip(p);
    MarkdownRoundTrip(q);
  }
}
