/** The JavaScript string operations that the translation scripts use. */
module Texts {
  /** `includes`. */
  predicate Contains(s: string, sub: string) {
    sub <= s || (s != "" && Contains(s[1..], sub))
  }

  predicate EndsWith(s: string, suffix: string) {
    |suffix| <= |s| && s[|s| - |suffix|..] == suffix
  }

  /** `replace` with a global pattern that is a fixed string: leftmost occurrences, not overlapping. */
  function ReplaceAll(s: string, pattern: string, replacement: string): string
    requires pattern != ""
    decreases |s|
  {
    if |s| < |pattern| then s
    else if pattern <= s then replacement + ReplaceAll(s[|pattern|..], pattern, replacement)
    else [s[0]] + ReplaceAll(s[1..], pattern, replacement)
  }

  /** `split` at a fixed separator. */
  function Split(s: string, separator: string): (parts: seq<string>)
    requires separator != ""
    ensures parts != []
    decreases |s|
  {
    if separator <= s then [""] + Split(s[|separator|..], separator)
    else if s == "" then [""]
    else
      var parts := Split(s[1..], separator);
      [[s[0]] + parts[0]] + parts[1..]
  }

  /** Without an occurrence there is one part. */
  lemma {:induction false} SplitNone(s: string, separator: string)
    requires separator != "" && !Contains(s, separator)
    ensures Split(s, separator) == [s]
  {
    if s != "" {
      SplitNone(s[1..], separator);
      assert [s[0]] + s[1..] == s;
    }
  }

  /** A text without the first character of the pattern does not contain it. */
  lemma {:induction false} ContainsNeedsFirst(s: string, sub: string)
    requires sub != "" && sub[0] !in s
    ensures !Contains(s, sub)
  {
    if s != "" {
      ContainsNeedsFirst(s[1..], sub);
    }
  }

  lemma {:induction false} ContainedSuffix(a: string, b: string, sub: string)
    requires Contains(b, sub)
    ensures Contains(a + b, sub)
  {
    if a == "" {
      assert a + b == b;
    } else {
      ContainedSuffix(a[1..], b, sub);
      assert (a + b)[1..] == a[1..] + b;
    }
  }

  lemma {:induction false} ContainedPrefix(a: string, b: string, sub: string)
    requires Contains(a, sub)
    ensures Contains(a + b, sub)
  {
    if !(sub <= a) {
      ContainedPrefix(a[1..], b, sub);
      assert (a + b)[1..] == a[1..] + b;
    }
  }

  lemma {:induction false} ContainedAt(s: string, sub: string, i: nat)
    requires i <= |s| && sub <= s[i..]
    ensures Contains(s, sub)
  {
    if i > 0 {
      assert s[1..][i - 1..] == s[i..];
      ContainedAt(s[1..], sub, i - 1);
    }
  }

  lemma {:induction false} FindContained(s: string, sub: string) returns (i: nat)
    requires Contains(s, sub)
    ensures i <= |s| && sub <= s[i..]
  {
    if sub <= s {
      i := 0;
    } else {
      i := FindContained(s[1..], sub);
      assert s[1..][i..] == s[i + 1..];
      i := i + 1;
    }
  }

  /** When the separator is first found at the end of `before`, what stands before it is the first part. */
  lemma {:induction false} SplitFirst(before: string, separator: string, rest: string)
    requires separator != ""
    requires forall i :: 0 <= i < |before| ==> !(separator <= (before + separator + rest)[i..])
    ensures Split(before + separator + rest, separator) == [before] + Split(rest, separator)
  {
    var t := before + separator + rest;
    if before == "" {
      assert t == separator + rest;
      assert t[|separator|..] == rest;
    } else {
      var u := before[1..] + separator + rest;
      assert t[0..] == t && t[1..] == u;
      forall i | 0 <= i < |before| - 1
        ensures !(separator <= u[i..])
      {
        assert u[i..] == t[i + 1..];
      }
      SplitFirst(before[1..], separator, rest);
      assert [before[0]] + before[1..] == before;
    }
  }

  lemma {:induction false} SplitSome(s: string, separator: string)
    requires separator != "" && Contains(s, separator)
    ensures |Split(s, separator)| > 1
  {
    if !(separator <= s) {
      SplitSome(s[1..], separator);
    }
  }

  /** A separator inside `before`, and another after it, make at least three parts. */
  lemma {:induction false} SplitTooMany(before: string, separator: string, rest: string)
    requires separator != "" && Contains(before, separator)
    ensures |Split(before + separator + rest, separator)| > 2
  {
    var t := before + separator + rest;
    if separator <= t {
      ContainsLength(before, separator);
      assert t[|separator|..] == before[|separator|..] + (separator + rest);
      ContainedSuffix(before[|separator|..], separator + rest, separator);
      SplitSome(t[|separator|..], separator);
    } else {
      assert separator <= before ==> separator <= t;
      assert t[1..] == before[1..] + separator + rest;
      SplitTooMany(before[1..], separator, rest);
    }
  }

  lemma {:induction false} ContainsLength(s: string, sub: string)
    requires Contains(s, sub)
    ensures |sub| <= |s|
  {
    if !(sub <= s) {
      ContainsLength(s[1..], sub);
    }
  }

  /** Replacing a single character goes character by character. */
  lemma {:induction false} ReplaceCharSplits(a: string, b: string, c: char, replacement: string)
    ensures ReplaceAll(a + b, [c], replacement) == ReplaceAll(a, [c], replacement) + ReplaceAll(b, [c], replacement)
    decreases |a|
  {
    if a == "" {
      assert a + b == b;
    } else {
      assert (a + b)[1..] == a[1..] + b;
      assert [c] <= a <==> a[0] == c;
      assert [c] <= a + b <==> a[0] == c;
      ReplaceCharSplits(a[1..], b, c, replacement);
    }
  }
}
