/**
 * `BufferedReader.readLine` as the POM template reader uses it: a line ends at
 * "\n", "\r" or "\r\n", the terminator is not part of the line, and a final
 * line without terminator is still returned.
 */
module LineReader {

  predicate IsTerminator(c: char) {
    c == '\n' || c == '\r'
  }

  predicate NoTerminator(s: string) {
    forall i :: 0 <= i < |s| ==> !IsTerminator(s[i])
  }

  /** Index of the first terminator of `t`, or `|t|` when there is none. */
  function LineEnd(t: string): (e: nat)
    ensures e <= |t|
    ensures NoTerminator(t[..e])
    ensures e < |t| ==> IsTerminator(t[e])
  {
    if |t| == 0 || IsTerminator(t[0]) then 0
    else
      var e := 1 + LineEnd(t[1..]);
      assert t[..e] == [t[0]] + t[1..][..e - 1];
      e
  }

  /** The lines `readLine` returns, in order, until it returns `null`. */
  function ReadLines(t: string): (lines: seq<string>)
    ensures forall k :: 0 <= k < |lines| ==> NoTerminator(lines[k])
    decreases |t|
  {
    if |t| == 0 then []
    else
      var e := LineEnd(t);
      if e == |t| then [t]
      else
        var next := if t[e] == '\r' && e + 1 < |t| && t[e + 1] == '\n' then e + 2 else e + 1;
        [t[..e]] + ReadLines(t[next..])
  }

  /** Non-empty text without a terminator is one line. */
  lemma ReadSingleLine(t: string)
    requires |t| > 0 && NoTerminator(t)
    ensures ReadLines(t) == [t]
  {
  }

  /** `StringBuilder.append` of every line, with no separator. */
  function Concat(lines: seq<string>): string
  {
    if |lines| == 0 then "" else lines[0] + Concat(lines[1..])
  }

  /** The text with every "\r" and "\n" character removed. */
  function StripTerminators(t: string): string
  {
    if |t| == 0 then "" else (if IsTerminator(t[0]) then "" else [t[0]]) + StripTerminators(t[1..])
  }

  /** Each line followed by "\n": a file written line by line. */
  function JoinLines(lines: seq<string>): string
  {
    if |lines| == 0 then "" else lines[0] + "\n" + JoinLines(lines[1..])
  }

  /** No line terminator survives their removal. */
  lemma {:induction false} StripLeavesNoTerminator(t: string)
    ensures NoTerminator(StripTerminators(t))
    decreases |t|
  {
    if |t| > 0 {
      StripLeavesNoTerminator(t[1..]);
    }
  }

  /** Removing line terminators a second time changes nothing. */
  lemma StripIdempotent(t: string)
    ensures StripTerminators(StripTerminators(t)) == StripTerminators(t)
  {
    StripLeavesNoTerminator(t);
    StripClean(StripTerminators(t));
  }

  lemma {:induction false} StripAppend(x: string, y: string)
    ensures StripTerminators(x + y) == StripTerminators(x) + StripTerminators(y)
    decreases |x|
  {
    if |x| == 0 {
      assert x + y == y;
    } else {
      assert (x + y)[1..] == x[1..] + y;
      StripAppend(x[1..], y);
    }
  }

  lemma {:induction false} StripClean(x: string)
    requires NoTerminator(x)
    ensures StripTerminators(x) == x
    decreases |x|
  {
    if |x| > 0 {
      StripClean(x[1..]);
      assert x == [x[0]] + x[1..];
    }
  }

  /** A terminator contributes nothing to the stripped text. */
  lemma StripDropTerminator(t: string, k: nat)
    requires k < |t| && IsTerminator(t[k])
    ensures StripTerminators(t[k..]) == StripTerminators(t[k + 1..])
  {
    assert t[k..][1..] == t[k + 1..];
  }

  /** Stripping a line, its terminator and the rest keeps the line and strips the rest. */
  lemma StripAroundBreak(t: string, e: nat, next: nat)
    requires e < next <= |t| && next <= e + 2
    requires NoTerminator(t[..e])
    requires forall i :: e <= i < next ==> IsTerminator(t[i])
    ensures StripTerminators(t) == t[..e] + StripTerminators(t[next..])
  {
    assert t == t[..e] + t[e..];
    StripClean(t[..e]);
    StripAppend(t[..e], t[e..]);
    StripDropTerminator(t, e);
    if next == e + 2 {
      StripDropTerminator(t, e + 1);
    }
  }

  /**
   * Concatenating what `readLine` returns gives the text with its line breaks
   * dropped: no character other than a terminator is lost or added.
   */
  lemma {:induction false} ConcatReadLines(t: string)
    ensures Concat(ReadLines(t)) == StripTerminators(t)
    decreases |t|
  {
    if |t| > 0 {
      var e := LineEnd(t);
      if e == |t| {
        StripClean(t);
        assert Concat([t]) == t + Concat([]);
      } else {
        var next := if t[e] == '\r' && e + 1 < |t| && t[e + 1] == '\n' then e + 2 else e + 1;
        var lines := ReadLines(t);
        assert lines == [t[..e]] + ReadLines(t[next..]);
        assert lines[1..] == ReadLines(t[next..]);
        ConcatReadLines(t[next..]);
        StripAroundBreak(t, e, next);
      }
    }
  }

  /** The first line of text written line by line ends where the first written line ends. */
  lemma LineEndAfter(x: string, y: string)
    requires NoTerminator(x)
    ensures LineEnd(x + "\n" + y) == |x|
  {
    var t := x + "\n" + y;
    var e := LineEnd(t);
    assert t[|x|] == '\n';
  }

  /** Reading back a file written line by line returns exactly the written lines. */
  lemma {:induction false} ReadJoinedLines(lines: seq<string>)
    requires forall k :: 0 <= k < |lines| ==> NoTerminator(lines[k])
    ensures ReadLines(JoinLines(lines)) == lines
    decreases |lines|
  {
    if |lines| > 0 {
      var x := lines[0];
      var rest := JoinLines(lines[1..]);
      var t := JoinLines(lines);
      assert t == x + "\n" + rest;
      LineEndAfter(x, rest);
      assert t[..|x|] == x;
      assert t[|x|] == '\n';
      assert t[|x| + 1..] == rest;
      ReadJoinedLines(lines[1..]);
      assert lines == [x] + lines[1..];
    }
  }
}
