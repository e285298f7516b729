/**
 * Slug derivation (`generateSlug` in server/utils/tempPostManager.ts).
 *
 * The source chains five string rewrites:
 *   lower-case; delete every character outside [a-z0-9\s-]; replace each run
 *   of whitespace by one `-`; replace each run of `-` by one `-`; delete one
 *   leading and one trailing `-`.
 * Each rewrite is modelled as its own function so that the proofs can follow
 * the chain step by step.
 */
module Slug {
  import opened Text

  /** Lower-casing, restricted to ASCII letters. */
  function LowerChar(c: char): char {
    if 'A' <= c <= 'Z' then (c as int + 32) as char else c
  }

  function LowerAll(s: string): (r: string)
    ensures |r| == |s|
    ensures forall i :: 0 <= i < |s| ==> r[i] == LowerChar(s[i])
  {
    seq(|s|, i requires 0 <= i < |s| => LowerChar(s[i]))
  }

  predicate IsAlnum(c: char) {
    ('a' <= c <= 'z') || ('0' <= c <= '9')
  }

  predicate IsHyphen(c: char) {
    c == '-'
  }

  /** The characters the regular expression `[a-z0-9\s-]` admits. */
  predicate Admitted(c: char) {
    IsAlnum(c) || IsSpace(c) || c == '-'
  }

  /** The characters a slug is made of. */
  predicate IsSlugChar(c: char) {
    IsAlnum(c) || c == '-'
  }

  /** Positions `i` and `i + 1` both hold `-`. */
  predicate HyphenPairAt(s: string, i: nat)
    requires i + 1 < |s|
  {
    s[i] == '-' && s[i + 1] == '-'
  }

  predicate NoDoubleHyphen(s: string) {
    forall i: nat :: i + 1 < |s| ==> !HyphenPairAt(s, i)
  }

  /** `NoDoubleHyphen` seen from the front of the string. */
  lemma NoDoubleCons(s: string)
    requires |s| > 0
    ensures NoDoubleHyphen(s) <==>
      NoDoubleHyphen(s[1..]) && !(|s| > 1 && s[0] == '-' && s[1] == '-')
  {
    if NoDoubleHyphen(s) {
      forall i: nat | i + 1 < |s[1..]|
        ensures !HyphenPairAt(s[1..], i)
      {
        assert !HyphenPairAt(s, i + 1);
      }
      if |s| > 1 {
        assert !HyphenPairAt(s, 0);
      }
    }
    if NoDoubleHyphen(s[1..]) && !(|s| > 1 && s[0] == '-' && s[1] == '-') {
      forall i: nat | i + 1 < |s|
        ensures !HyphenPairAt(s, i)
      {
        if i > 0 {
          assert !HyphenPairAt(s[1..], i - 1);
        }
      }
    }
  }

  /** The shape every generated slug has. */
  predicate IsSlug(s: string) {
    && (forall i :: 0 <= i < |s| ==> IsSlugChar(s[i]))
    && NoDoubleHyphen(s)
    && (|s| > 0 ==> s[0] != '-' && s[|s| - 1] != '-')
  }

  /** The letters and digits of a string, in order; separators dropped. */
  function Alnums(s: string): string {
    if |s| == 0 then [] else (if IsAlnum(s[0]) then [s[0]] else []) + Alnums(s[1..])
  }

  /** `.replace(/[^a-z0-9\s-]/g, '')`. */
  function StripInvalid(s: string): string {
    if |s| == 0 then [] else (if Admitted(s[0]) then [s[0]] else []) + StripInvalid(s[1..])
  }

  /**
   * Replaces every maximal run of characters satisfying `sep` by a single
   * `-`: `.replace(/\s+/g, '-')` with `sep = IsSpace`, `.replace(/-+/g, '-')`
   * with `sep = IsHyphen`. `inRun` says that the character before `s` was a
   * separator that has already been replaced.
   */
  function CollapseRuns(s: string, sep: char -> bool, inRun: bool): string {
    if |s| == 0 then []
    else if sep(s[0]) then (if inRun then [] else ['-']) + CollapseRuns(s[1..], sep, true)
    else [s[0]] + CollapseRuns(s[1..], sep, false)
  }

  /** `.replace(/^-|-$/g, '')`: at most one hyphen goes at each end. */
  function TrimHyphen(s: string): string {
    var a := if |s| > 0 && s[0] == '-' then s[1..] else s;
    if |a| > 0 && a[|a| - 1] == '-' then a[..|a| - 1] else a
  }

  /** `generateSlug(title)`. */
  function GenerateSlug(title: string): (slug: string)
    ensures IsSlug(slug)
    ensures Alnums(slug) == Alnums(LowerAll(title))
  {
    SlugSteps(title);
    TrimHyphen(CollapseRuns(CollapseRuns(StripInvalid(LowerAll(title)), IsSpace, false), IsHyphen, false))
  }

  /** Chains the facts about each rewrite into the facts about `GenerateSlug`. */
  lemma SlugSteps(title: string)
    ensures var squeezed := CollapseRuns(CollapseRuns(StripInvalid(LowerAll(title)), IsSpace, false), IsHyphen, false);
      IsSlug(TrimHyphen(squeezed)) && Alnums(TrimHyphen(squeezed)) == Alnums(LowerAll(title))
  {
    var lowered := LowerAll(title);
    var stripped := StripInvalid(lowered);
    var spaced := CollapseRuns(stripped, IsSpace, false);
    var squeezed := CollapseRuns(spaced, IsHyphen, false);
    StripInvalidFacts(lowered);
    CollapseChars(stripped, IsSpace, false);
    CollapseAlnums(stripped, IsSpace, false);
    CollapseChars(spaced, IsHyphen, false);
    CollapseAlnums(spaced, IsHyphen, false);
    CollapseNoDouble(spaced, IsHyphen, false);
    TrimFacts(squeezed);
  }

  // ---------------------------------------------------------------------
  // Facts about each step
  // ---------------------------------------------------------------------

  lemma {:induction false} StripInvalidFacts(s: string)
    ensures forall c :: c in StripInvalid(s) ==> Admitted(c)
    ensures Alnums(StripInvalid(s)) == Alnums(s)
    decreases |s|
  {
    if |s| > 0 {
      StripInvalidFacts(s[1..]);
      var head := if Admitted(s[0]) then [s[0]] else [];
      AlnumsAppend(head, StripInvalid(s[1..]));
    }
  }

  lemma {:induction false} StripAppend(a: string, b: string)
    ensures StripInvalid(a + b) == StripInvalid(a) + StripInvalid(b)
    decreases |a|
  {
    if |a| > 0 {
      assert (a + b)[0] == a[0];
      assert (a + b)[1..] == a[1..] + b;
      StripAppend(a[1..], b);
    } else {
      assert a + b == b;
    }
  }

  lemma {:induction false} AlnumsAppend(a: string, b: string)
    ensures Alnums(a + b) == Alnums(a) + Alnums(b)
    decreases |a|
  {
    if |a| > 0 {
      var head := if IsAlnum(a[0]) then [a[0]] else [];
      assert (a + b)[0] == a[0];
      assert (a + b)[1..] == a[1..] + b;
      AlnumsAppend(a[1..], b);
      calc {
        Alnums(a + b);
        head + Alnums(a[1..] + b);
        head + (Alnums(a[1..]) + Alnums(b));
        (head + Alnums(a[1..])) + Alnums(b);
        Alnums(a) + Alnums(b);
      }
    } else {
      assert a + b == b;
    }
  }

  /** Every output character is a `-` or an input character that is not a separator. */
  lemma {:induction false} CollapseChars(s: string, sep: char -> bool, inRun: bool)
    ensures forall c :: c in CollapseRuns(s, sep, inRun) ==> c == '-' || (c in s && !sep(c))
    decreases |s|
  {
    if |s| > 0 {
      CollapseChars(s[1..], sep, !sep(s[0]) ==> false);
      CollapseChars(s[1..], sep, true);
      CollapseChars(s[1..], sep, false);
    }
  }

  /** Collapsing separators that are not letters or digits keeps the letters and digits. */
  lemma {:induction false} CollapseAlnums(s: string, sep: char -> bool, inRun: bool)
    requires forall c :: sep(c) ==> !IsAlnum(c)
    ensures Alnums(CollapseRuns(s, sep, inRun)) == Alnums(s)
    decreases |s|
  {
    if |s| > 0 {
      var rest := CollapseRuns(s[1..], sep, sep(s[0]));
      CollapseAlnums(s[1..], sep, sep(s[0]));
      if sep(s[0]) {
        AlnumsAppend(if inRun then [] else ['-'], rest);
      } else {
        AlnumsAppend([s[0]], rest);
      }
    }
  }

  /** When `-` is itself a separator, the output has no `--`, and none at its start while in a run. */
  lemma {:induction false} CollapseNoDouble(s: string, sep: char -> bool, inRun: bool)
    requires sep('-')
    ensures NoDoubleHyphen(CollapseRuns(s, sep, inRun))
    ensures inRun && |CollapseRuns(s, sep, inRun)| > 0 ==> CollapseRuns(s, sep, inRun)[0] != '-'
    decreases |s|
  {
    if |s| > 0 {
      CollapseNoDouble(s[1..], sep, sep(s[0]));
      var r := CollapseRuns(s, sep, inRun);
      var rest := CollapseRuns(s[1..], sep, sep(s[0]));
      if |r| > 0 && |r| != |rest| {
        assert r[1..] == rest;
        NoDoubleCons(r);
      } else {
        assert r == rest;
      }
    }
  }

  /** A string without separators is left alone. */
  lemma {:induction false} CollapseNoSeparator(s: string, sep: char -> bool, inRun: bool)
    requires forall i :: 0 <= i < |s| ==> !sep(s[i])
    ensures CollapseRuns(s, sep, inRun) == s
    decreases |s|
  {
    if |s| > 0 {
      CollapseNoSeparator(s[1..], sep, false);
    }
  }

  /** Squeezing hyphens changes nothing in a string without `--`. */
  lemma {:induction false} CollapseHyphensIdle(s: string, inRun: bool)
    requires NoDoubleHyphen(s)
    requires inRun ==> |s| == 0 || s[0] != '-'
    ensures CollapseRuns(s, IsHyphen, inRun) == s
    decreases |s|
  {
    if |s| > 0 {
      NoDoubleCons(s);
      CollapseHyphensIdle(s[1..], s[0] == '-');
    }
  }

  /** Dropping a leading `-` keeps the letters and digits. */
  lemma DropHyphenAlnums(s: string)
    requires |s| > 0 && s[0] == '-'
    ensures Alnums(s[1..]) == Alnums(s)
  {
  }

  /** Dropping a trailing `-` keeps the letters and digits. */
  lemma DropLastHyphenAlnums(s: string)
    requires |s| > 0 && s[|s| - 1] == '-'
    ensures Alnums(s[..|s| - 1]) == Alnums(s)
  {
    AlnumsAppend(s[..|s| - 1], ['-']);
    assert s == s[..|s| - 1] + ['-'];
  }

  lemma TrimFacts(s: string)
    requires forall c :: c in s ==> IsSlugChar(c)
    requires NoDoubleHyphen(s)
    ensures IsSlug(TrimHyphen(s))
    ensures Alnums(TrimHyphen(s)) == Alnums(s)
  {
    var a := if |s| > 0 && s[0] == '-' then s[1..] else s;
    if |s| > 0 && s[0] == '-' {
      DropHyphenAlnums(s);
      NoDoubleCons(s);
      assert |a| > 0 ==> a[0] == s[1];
    }
    assert Alnums(a) == Alnums(s);
    assert NoDoubleHyphen(a);
    assert |a| > 0 ==> a[0] != '-';
    assert forall i :: 0 <= i < |a| ==> IsSlugChar(a[i]);
    if |a| > 0 && a[|a| - 1] == '-' {
      DropLastHyphenAlnums(a);
      var b := a[..|a| - 1];
      assert TrimHyphen(s) == b;
      forall i: nat | i + 1 < |b|
        ensures !HyphenPairAt(b, i)
      {
        assert !HyphenPairAt(a, i);
      }
      if |b| > 0 {
        assert !HyphenPairAt(a, |a| - 2);
      }
      assert |b| > 0 ==> b[|b| - 1] == a[|a| - 2];
    }
  }

  // ---------------------------------------------------------------------
  // Properties of generateSlug
  // ---------------------------------------------------------------------

  /** A string already in slug shape is its own slug. */
  lemma SlugFixesSlugs(s: string)
    requires IsSlug(s)
    ensures GenerateSlug(s) == s
  {
    forall i | 0 <= i < |s|
      ensures LowerChar(s[i]) == s[i] && Admitted(s[i]) && !IsSpace(s[i])
    {
      SlugCharFacts(s[i]);
    }
    assert LowerAll(s) == s;
    assert StripInvalid(s) == s by {
      StripAdmittedIdle(s);
    }
    assert CollapseRuns(s, IsSpace, false) == s by {
      CollapseNoSeparator(s, IsSpace, false);
    }
    assert CollapseRuns(s, IsHyphen, false) == s by {
      CollapseHyphensIdle(s, false);
    }
    assert TrimHyphen(s) == s;
  }

  lemma SlugCharFacts(c: char)
    requires IsSlugChar(c)
    ensures LowerChar(c) == c && Admitted(c) && !IsSpace(c)
  {
  }

  lemma {:induction false} StripAdmittedIdle(s: string)
    requires forall i :: 0 <= i < |s| ==> Admitted(s[i])
    ensures StripInvalid(s) == s
    decreases |s|
  {
    if |s| > 0 {
      StripAdmittedIdle(s[1..]);
    }
  }

  /** Slug derivation is idempotent. */
  lemma SlugIdempotent(title: string)
    ensures GenerateSlug(GenerateSlug(title)) == GenerateSlug(title)
  {
    SlugFixesSlugs(GenerateSlug(title));
  }

  /**
   * The worked example. The title is a parameter fixed by the precondition
   * so that the proof can take the literal apart piece by piece; evaluating
   * the whole chain on one literal at once is far more than the solver
   * manages cheaply.
   */
  lemma HelloWorld(title: string)
    requires title == "Hello, World!"
    ensures GenerateSlug(title) == "hello-world"
  {
    var lowered := LowerAll(title);
    assert lowered == "hello, world!";
    HelloWorldStripped(lowered);
    HelloWorldCollapsed(StripInvalid(lowered));
    var spaced := CollapseRuns(StripInvalid(lowered), IsSpace, false);
    CollapseHyphensIdle(spaced, false);
    assert TrimHyphen(spaced) == spaced;
  }

  lemma HelloWorldStripped(s: string)
    requires s == "hello, world!"
    ensures StripInvalid(s) == "hello world"
  {
    var a, b := s[..6], s[6..];
    assert s == a + b;
    StripAppend(a, b);
    WordStripped(a, "hello", ',');
    WordStripped(b, " world", '!');
  }

  /** A run of admitted characters followed by one punctuation mark loses just the mark. */
  lemma WordStripped(s: string, word: string, mark: char)
    requires s == word + [mark]
    requires forall i :: 0 <= i < |word| ==> Admitted(word[i])
    requires !Admitted(mark)
    ensures StripInvalid(s) == word
  {
    StripAdmittedIdle(word);
    StripAppend(word, [mark]);
  }

  lemma HelloWorldCollapsed(s: string)
    requires s == "hello world"
    ensures CollapseRuns(s, IsSpace, false) == "hello-world"
  {
    var a, b := s[..5], s[5..];
    assert s == a + b;
    CollapsePlainPrefix(a, b, IsSpace, false);
    assert b[1..] == "world";
    CollapseNoSeparator(b[1..], IsSpace, true);
  }

  /** A leading stretch without separators is copied through unchanged. */
  lemma {:induction false} CollapsePlainPrefix(a: string, b: string, sep: char -> bool, inRun: bool)
    requires |a| > 0
    requires forall i :: 0 <= i < |a| ==> !sep(a[i])
    ensures CollapseRuns(a + b, sep, inRun) == a + CollapseRuns(b, sep, false)
    decreases |a|
  {
    assert (a + b)[0] == a[0];
    assert (a + b)[1..] == a[1..] + b;
    if |a| > 1 {
      CollapsePlainPrefix(a[1..], b, sep, false);
    } else {
      assert a[1..] + b == b;
    }
  }
}
