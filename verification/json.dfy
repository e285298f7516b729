/**
 * `JSON.stringify` of an array of strings, as the front matter's `tags`
 * line uses it, and a reader for the JSON text it produces (section 7 of
 * RFC 8259 for strings, section 5 for arrays).
 */
module Json {
  import opened Common

  function HexDigit(n: nat): char
    requires n < 16
  {
    if n < 10 then ('0' as int + n) as char else ('a' as int + n - 10) as char
  }

  function HexValue(c: char): Option<nat> {
    if '0' <= c <= '9' then Some(c as int - '0' as int)
    else if 'a' <= c <= 'f' then Some(c as int - 'a' as int + 10)
    else if 'A' <= c <= 'F' then Some(c as int - 'A' as int + 10)
    else None
  }

  lemma HexDigitValue(n: nat)
    requires n < 16
    ensures HexValue(HexDigit(n)) == Some(n)
  {
  }

  /**
   * How `JSON.stringify` writes one character of a string: the two-character
   * escapes for quote, backslash, backspace, form feed, newline, carriage
   * return and tab; `\u00xx` with lower-case hex for the other control
   * characters; everything else as itself.
   */
  function EscapeChar(c: char): string {
    if c == '"' then "\\\""
    else if c == '\\' then "\\\\"
    else if c == '\U{8}' then "\\b"
    else if c == '\U{C}' then "\\f"
    else if c == '\n' then "\\n"
    else if c == '\r' then "\\r"
    else if c == '\t' then "\\t"
    else if c < ' ' then "\\u00" + [HexDigit(c as int / 16), HexDigit(c as int % 16)]
    else [c]
  }

  function Escape(s: string): string {
    if |s| == 0 then [] else EscapeChar(s[0]) + Escape(s[1..])
  }

  /** `JSON.stringify(s)` for a string. */
  function Quote(s: string): string {
    "\"" + Escape(s) + "\""
  }

  function Elements(items: seq<string>): string {
    if |items| == 0 then ""
    else if |items| == 1 then Quote(items[0])
    else Quote(items[0]) + "," + Elements(items[1..])
  }

  /** `JSON.stringify(items)` for an array of strings: no spaces, comma separated. */
  function StringArray(items: seq<string>): string {
    "[" + Elements(items) + "]"
  }

  // -----------------------------------------------------------------------
  // Reading JSON text back
  // -----------------------------------------------------------------------

  function Hex4(s: string): Option<nat>
    requires |s| == 4
  {
    var a :- HexValue(s[0]);
    var b :- HexValue(s[1]);
    var c :- HexValue(s[2]);
    var d :- HexValue(s[3]);
    Some(((a * 16 + b) * 16 + c) * 16 + d)
  }

  /** The character an escape sequence stands for, given the text after the backslash, and its length. */
  function EscapeAt(s: string): (r: Option<(char, nat)>)
    ensures r.Some? ==> 1 <= r.value.1 <= |s|
  {
    if |s| == 0 then None
    else if s[0] == '"' then Some(('"', 1))
    else if s[0] == '\\' then Some(('\\', 1))
    else if s[0] == '/' then Some(('/', 1))
    else if s[0] == 'b' then Some(('\U{8}', 1))
    else if s[0] == 'f' then Some(('\U{C}', 1))
    else if s[0] == 'n' then Some(('\n', 1))
    else if s[0] == 'r' then Some(('\r', 1))
    else if s[0] == 't' then Some(('\t', 1))
    else if s[0] == 'u' && |s| >= 5 then
      match Hex4(s[1..5])
      case Some(v) => if v < 0xD800 || 0xDFFF < v then Some((v as char, 5)) else None
      case None => None
    else None
  }

  function Prepend(c: char, r: Option<(string, string)>): Option<(string, string)> {
    match r
    case None => None
    case Some((t, rest)) => Some(([c] + t, rest))
  }

  /**
   * Reads the characters of a string literal whose opening quote has been
   * consumed; returns them decoded, with the text after the closing quote.
   */
  function StringBody(s: string): (r: Option<(string, string)>)
    ensures r.Some? ==> |r.value.1| < |s|
    decreases |s|
  {
    if |s| == 0 then None
    else if s[0] == '"' then Some(([], s[1..]))
    else if s[0] == '\\' then
      match EscapeAt(s[1..])
      case None => None
      case Some((c, n)) => Prepend(c, StringBody(s[1 + n..]))
    else if s[0] < ' ' then None
    else Prepend(s[0], StringBody(s[1..]))
  }

  /** Reads one string literal from the front of `s`. */
  function ReadString(s: string): (r: Option<(string, string)>)
    ensures r.Some? ==> |r.value.1| < |s|
  {
    if |s| > 0 && s[0] == '"' then StringBody(s[1..]) else None
  }

  /** Reads `string (',' string)* ']'`. */
  function ReadElements(s: string): (r: Option<(seq<string>, string)>)
    ensures r.Some? ==> |r.value.1| < |s|
    decreases |s|
  {
    match ReadString(s)
    case None => None
    case Some((t, rest)) =>
      if |rest| > 0 && rest[0] == ',' then
        match ReadElements(rest[1..])
        case None => None
        case Some((ts, after)) => Some(([t] + ts, after))
      else if |rest| > 0 && rest[0] == ']' then Some(([t], rest[1..]))
      else None
  }

  /** Reads an array of strings from the front of `s`. */
  function ReadStringArray(s: string): Option<(seq<string>, string)> {
    if |s| >= 2 && s[0] == '[' && s[1] == ']' then Some(([], s[2..]))
    else if |s| > 0 && s[0] == '[' then ReadElements(s[1..])
    else None
  }

  // -----------------------------------------------------------------------
  // Round trips
  // -----------------------------------------------------------------------

  /** Reading an escaped character gives it back and continues after it. */
  lemma EscapeCharReads(c: char, tail: string)
    ensures StringBody(EscapeChar(c) + tail) == Prepend(c, StringBody(tail))
  {
    var e := EscapeChar(c);
    var s := e + tail;
    if c == '"' || c == '\\' || c == '\U{8}' || c == '\U{C}' || c == '\n' || c == '\r' || c == '\t' {
      assert s[1..][0] == e[1];
      assert s[2..] == tail;
    } else if c < ' ' {
      var hi, lo := c as int / 16, c as int % 16;
      assert e == ['\\', 'u', '0', '0', HexDigit(hi), HexDigit(lo)];
      HexDigitValue(hi);
      HexDigitValue(lo);
      assert s[1..][1..5] == ['0', '0', HexDigit(hi), HexDigit(lo)];
      assert Hex4(s[1..][1..5]) == Some(c as int);
      assert s[6..] == tail;
    } else {
      assert s[1..] == tail;
    }
  }

  lemma {:induction false} EscapeReads(t: string, rest: string)
    ensures StringBody(Escape(t) + "\"" + rest) == Some((t, rest))
    decreases |t|
  {
    if |t| == 0 {
      assert Escape(t) + "\"" + rest == "\"" + rest;
    } else {
      assert Escape(t) + "\"" + rest == EscapeChar(t[0]) + (Escape(t[1..]) + "\"" + rest);
      EscapeCharReads(t[0], Escape(t[1..]) + "\"" + rest);
      EscapeReads(t[1..], rest);
      assert [t[0]] + t[1..] == t;
    }
  }

  /** A quoted string reads back as itself. */
  lemma QuoteReads(t: string, rest: string)
    ensures ReadString(Quote(t) + rest) == Some((t, rest))
  {
    assert (Quote(t) + rest)[1..] == Escape(t) + "\"" + rest;
    EscapeReads(t, rest);
  }

  /** After one quoted element and a comma, reading continues with the remaining elements. */
  lemma ElementsReadCons(t: string, s: string)
    ensures ReadElements(Quote(t) + ("," + s)) ==
      match ReadElements(s)
      case None => None
      case Some((ts, after)) => Some(([t] + ts, after))
  {
    QuoteReads(t, "," + s);
    assert ("," + s)[1..] == s;
  }

  lemma ElementsReadLast(t: string, rest: string)
    ensures ReadElements(Quote(t) + ("]" + rest)) == Some(([t], rest))
  {
    QuoteReads(t, "]" + rest);
    assert ("]" + rest)[1..] == rest;
  }

  lemma {:induction false} ElementsRead(items: seq<string>, rest: string)
    requires |items| > 0
    ensures ReadElements(Elements(items) + "]" + rest) == Some((items, rest))
    decreases |items|
  {
    if |items| == 1 {
      assert Elements(items) + "]" + rest == Quote(items[0]) + ("]" + rest);
      ElementsReadLast(items[0], rest);
      assert [items[0]] == items;
    } else {
      var s := Elements(items[1..]) + "]" + rest;
      assert Elements(items) + "]" + rest == Quote(items[0]) + ("," + s);
      ElementsReadCons(items[0], s);
      ElementsRead(items[1..], rest);
      assert [items[0]] + items[1..] == items;
    }
  }

  /** `JSON.stringify` of an array of strings reads back as the same array. */
  lemma StringArrayReads(items: seq<string>, rest: string)
    ensures ReadStringArray(StringArray(items) + rest) == Some((items, rest))
  {
    if |items| == 0 {
      assert StringArray(items) + rest == "[]" + rest;
    } else {
      var s := StringArray(items) + rest;
      assert s[1..] == Elements(items) + "]" + rest;
      ElementsRead(items, rest);
      QuoteStartsWithQuote(items[0]);
      assert s[1] == '"';
    }
  }

  lemma QuoteStartsWithQuote(t: string)
    ensures |Elements([t])| > 0 && Elements([t])[0] == '"'
  {
  }

  /** No escaped string holds a raw line break, so the array fits on one line. */
  lemma {:induction false} EscapeNoNewline(t: string)
    ensures '\n' !in Escape(t)
    decreases |t|
  {
    if |t| > 0 {
      EscapeNoNewline(t[1..]);
      assert '\n' !in EscapeChar(t[0]);
    }
  }

  lemma {:induction false} StringArrayNoNewline(items: seq<string>)
    ensures '\n' !in StringArray(items)
  {
    ElementsNoNewline(items);
  }

  lemma {:induction false} ElementsNoNewline(items: seq<string>)
    ensures '\n' !in Elements(items)
    decreases |items|
  {
    if |items| > 0 {
      EscapeNoNewline(items[0]);
      ElementsNoNewline(items[1..]);
    }
  }
}
