/**
 * The few `java.lang.String` and commons-lang `StringUtils` operations the
 * plugin relies on, over strings that may be `null`.
 */
module JavaStrings {
  import opened Wrappers

  /** A Java `String` reference: `None` is `null`. */
  type JString = Option<string>

  /** `StringUtils.isEmpty`, and the `s == null || s.isEmpty()` idiom. */
  predicate IsEmpty(s: JString) {
    s.None? || s.value == ""
  }

  /** `Character.isWhitespace` (Unicode space, line and paragraph separators except
      the non-breaking ones, plus the ASCII control whitespace). */
  predicate IsWhitespace(c: char) {
    || c == ' ' || c == '\t' || c == '\n' || c == '\r'
    || c == '\U{000B}' || c == '\U{000C}'
    || ('\U{001C}' <= c <= '\U{001F}')
    || c == '\U{1680}'
    || ('\U{2000}' <= c <= '\U{2006}')
    || ('\U{2008}' <= c <= '\U{200A}')
    || c == '\U{2028}' || c == '\U{2029}' || c == '\U{205F}' || c == '\U{3000}'
  }

  /** `StringUtils.isBlank`: null, empty, or whitespace only. */
  predicate IsBlank(s: JString) {
    s.None? || forall i :: 0 <= i < |s.value| ==> IsWhitespace(s.value[i])
  }

  /** What a reference contributes to a Java string concatenation: `null` prints as "null". */
  function Text(s: JString): (t: string)
    ensures s.Some? ==> t == s.value
  {
    if s.None? then "null" else s.value
  }

  predicate EndsWith(s: string, suffix: string) {
    |suffix| <= |s| && s[|s| - |suffix|..] == suffix
  }

  /** `pattern` occurs in `s` starting at index `i`. */
  predicate OccursAt(s: string, pattern: string, i: nat) {
    i + |pattern| <= |s| && s[i..i + |pattern|] == pattern
  }

  /** `pattern` occurs somewhere in `s`. */
  ghost predicate Mentions(s: string, pattern: string) {
    exists i: nat :: OccursAt(s, pattern, i)
  }

  /**
   * `String.replace(target, replacement)`: every non-overlapping occurrence of
   * `target`, found left to right, is replaced. Targets are never empty here.
   */
  function ReplaceAll(s: string, target: string, replacement: string): (r: string)
    requires target != ""
    ensures |s| < |target| ==> r == s
    decreases |s|
  {
    if |s| < |target| then s
    else if s[..|target|] == target then replacement + ReplaceAll(s[|target|..], target, replacement)
    else [s[0]] + ReplaceAll(s[1..], target, replacement)
  }

  /**
   * Replacement works left to right: text before the first occurrence of the
   * target is kept, that occurrence is replaced, and replacing resumes after it.
   */
  lemma {:induction false} ReplaceAllFirst(a: string, target: string, b: string, replacement: string)
    requires target != ""
    requires forall i :: 0 <= i < |a| ==> !OccursAt(a + target + b, target, i)
    ensures ReplaceAll(a + target + b, target, replacement) == a + replacement + ReplaceAll(b, target, replacement)
    decreases |a|
  {
    var s := a + target + b;
    if |a| == 0 {
      assert s == target + b;
      assert s[..|target|] == target;
      assert s[|target|..] == b;
    } else {
      assert !OccursAt(s, target, 0);
      assert s[1..] == a[1..] + target + b;
      forall i | 0 <= i < |a[1..]|
        ensures !OccursAt(a[1..] + target + b, target, i)
      {
        OccursInSuffix(s, 1, target, i);
      }
      ReplaceAllFirst(a[1..], target, b, replacement);
      ReplaceAllHead(s, target, replacement);
      assert s[0] == a[0];
      assert a == [a[0]] + a[1..];
    }
  }

  /** An occurrence in a suffix is an occurrence in the whole, shifted by the cut. */
  lemma OccursInSuffix(s: string, k: nat, pattern: string, i: nat)
    requires k <= |s|
    ensures OccursAt(s[k..], pattern, i) <==> OccursAt(s, pattern, i + k)
  {
    if i + |pattern| <= |s[k..]| {
      assert s[k..][i..i + |pattern|] == s[i + k..i + k + |pattern|];
    }
  }

  /** Text without any occurrence of `target` is left untouched. */
  lemma {:induction false} ReplaceAllAbsent(s: string, target: string, replacement: string)
    requires target != ""
    requires !Mentions(s, target)
    ensures ReplaceAll(s, target, replacement) == s
    decreases |s|
  {
    if |s| >= |target| {
      assert !OccursAt(s, target, 0);
      forall i: nat ensures !OccursAt(s[1..], target, i) {
        OccursInSuffix(s, 1, target, i);
      }
      ReplaceAllAbsent(s[1..], target, replacement);
      assert s == [s[0]] + s[1..];
    }
  }

  /** Text that is exactly the target becomes exactly the replacement. */
  lemma ReplaceAllWhole(target: string, replacement: string)
    requires target != ""
    ensures ReplaceAll(target, target, replacement) == replacement
  {
    assert target[|target|..] == "";
    assert target[..|target|] == target;
  }

  /** No occurrence starts in the last `|target| - 1` positions of `a` within `a + b`. */
  ghost predicate NoStraddle(a: string, b: string, target: string) {
    forall i: nat :: |a| - |target| < i < |a| ==> !OccursAt(a + b, target, i)
  }

  /** Dropping the first `k` characters of `a` keeps the junction free of straddling occurrences. */
  lemma NoStraddleSuffix(a: string, b: string, target: string, k: nat)
    requires k <= |a|
    requires NoStraddle(a, b, target)
    ensures NoStraddle(a[k..], b, target)
  {
    assert (a + b)[k..] == a[k..] + b;
    forall i: nat | |a[k..]| - |target| < i < |a[k..]|
      ensures !OccursAt(a[k..] + b, target, i)
    {
      OccursInSuffix(a + b, k, target, i);
    }
  }

  /** The junction case where the text opens with the target. */
  lemma ConcatMatchStep(a: string, b: string, target: string, replacement: string)
    requires target != "" && |target| <= |a| && a[..|target|] == target
    requires ReplaceAll(a[|target|..] + b, target, replacement)
          == ReplaceAll(a[|target|..], target, replacement) + ReplaceAll(b, target, replacement)
    ensures ReplaceAll(a + b, target, replacement)
         == ReplaceAll(a, target, replacement) + ReplaceAll(b, target, replacement)
  {
    var t := |target|;
    var ab := a + b;
    assert ab[..t] == a[..t];
    assert ab[t..] == a[t..] + b;
    MatchHead(ab, target, replacement);
    MatchHead(a, target, replacement);
  }

  /** Text opening with the target starts with the replacement, followed by the rest replaced. */
  lemma MatchHead(s: string, target: string, replacement: string)
    requires target != "" && |target| <= |s| && s[..|target|] == target
    ensures ReplaceAll(s, target, replacement) == replacement + ReplaceAll(s[|target|..], target, replacement)
  {
  }

  /** The junction case where the text does not open with the target. */
  lemma ConcatSkipStep(a: string, b: string, target: string, replacement: string)
    requires target != "" && 0 < |a| && |target| <= |a + b| && (a + b)[..|target|] != target
    requires ReplaceAll(a[1..] + b, target, replacement)
          == ReplaceAll(a[1..], target, replacement) + ReplaceAll(b, target, replacement)
    ensures ReplaceAll(a + b, target, replacement)
         == ReplaceAll(a, target, replacement) + ReplaceAll(b, target, replacement)
  {
    SkipHead(a, b, target, replacement);
    if |target| <= |a| {
      assert a[..|target|] == (a + b)[..|target|];
    }
    ReplaceAllHead(a, target, replacement);
  }

  /** Text that does not open with the target keeps its first character, here for a concatenation. */
  lemma SkipHead(a: string, b: string, target: string, replacement: string)
    requires target != "" && 0 < |a| && |target| <= |a + b| && (a + b)[..|target|] != target
    ensures ReplaceAll(a + b, target, replacement) == [a[0]] + ReplaceAll(a[1..] + b, target, replacement)
  {
    var ab := a + b;
    assert ab[1..] == a[1..] + b;
    assert ab[0] == a[0];
    ReplaceAllHead(ab, target, replacement);
  }

  /**
   * Replacement over a concatenation is the concatenation of the replacements
   * when no occurrence of the target straddles the junction.
   */
  lemma {:induction false} ReplaceAllConcat(a: string, b: string, target: string, replacement: string)
    requires target != ""
    requires NoStraddle(a, b, target)
    ensures ReplaceAll(a + b, target, replacement)
         == ReplaceAll(a, target, replacement) + ReplaceAll(b, target, replacement)
    decreases |a|
  {
    var t := |target|;
    if |a| == 0 {
      assert a + b == b;
    } else if |a + b| < t {
      assert ReplaceAll(a, target, replacement) == a;
    } else if (a + b)[..t] == target {
      assert OccursAt(a + b, target, 0);
      assert a[..t] == target;
      NoStraddleSuffix(a, b, target, t);
      ReplaceAllConcat(a[t..], b, target, replacement);
      ConcatMatchStep(a, b, target, replacement);
    } else {
      NoStraddleSuffix(a, b, target, 1);
      ReplaceAllConcat(a[1..], b, target, replacement);
      ConcatSkipStep(a, b, target, replacement);
    }
  }

  /** When the text does not start with the target, its first character is kept. */
  lemma ReplaceAllHead(a: string, target: string, replacement: string)
    requires target != "" && 0 < |a|
    requires |a| < |target| || a[..|target|] != target
    ensures ReplaceAll(a, target, replacement) == [a[0]] + ReplaceAll(a[1..], target, replacement)
  {
    if |a| < |target| {
      assert a == [a[0]] + a[1..];
    }
  }

  /**
   * The pieces of `s` between occurrences of `separator`: a plain split on
   * one character, used to read the parts of a colon-separated coordinate.
   */
  function Split(s: string, separator: char): (parts: seq<string>)
    ensures |parts| >= 1
    decreases |s|
  {
    if |s| == 0 then [""]
    else
      var rest := Split(s[1..], separator);
      if s[0] == separator then [""] + rest else [[s[0]] + rest[0]] + rest[1..]
  }

  /** A separator-free prefix followed by a separator is split off as the first piece. */
  lemma {:induction false} SplitAfter(x: string, separator: char, y: string)
    requires separator !in x
    ensures Split(x + [separator] + y, separator) == [x] + Split(y, separator)
    decreases |x|
  {
    if |x| == 0 {
      assert x + [separator] + y == [separator] + y;
      assert ([separator] + y)[1..] == y;
    } else {
      SplitAfter(x[1..], separator, y);
      assert (x + [separator] + y)[1..] == x[1..] + [separator] + y;
      assert x == [x[0]] + x[1..];
    }
  }

  /** Text without the separator is a single piece. */
  lemma {:induction false} SplitNone(x: string, separator: char)
    requires separator !in x
    ensures Split(x, separator) == [x]
    decreases |x|
  {
    if |x| > 0 {
      SplitNone(x[1..], separator);
      assert x == [x[0]] + x[1..];
    }
  }
}
