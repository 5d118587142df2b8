/**
 Python's `str.splitlines(keepends=True)` and `"".join(...)`, on which both the
 diff applier and the line patcher are built, and exactly when they undo each other.
 */
module TextLines {
  import opened Common

  /** The characters `str.splitlines` breaks on. */
  predicate IsBreak(c: char) {
    c in {'\n', '\r', '\U{0B}', '\U{0C}', '\U{1C}', '\U{1D}', '\U{1E}', '\U{85}', '\U{2028}', '\U{2029}'}
  }

  /** Length of the first line of s, its line break included; "\r\n" is one break. */
  function FirstLineLength(s: string): (n: nat)
    ensures s != "" ==> 0 < n <= |s|
    ensures s == "" ==> n == 0
  {
    if s == "" then 0
    else if s[0] == '\r' && |s| > 1 && s[1] == '\n' then 2
    else if IsBreak(s[0]) then 1
    else 1 + FirstLineLength(s[1..])
  }

  function SplitLines(s: string): (lines: seq<string>)
    decreases |s|
  {
    if s == "" then []
    else
      var n := FirstLineLength(s);
      [s[..n]] + SplitLines(s[n..])
  }

  function Join(lines: seq<string>): string {
    if lines == [] then "" else lines[0] + Join(lines[1..])
  }

  // ---- what a list of lines must look like to survive a join and re-split ----

  /** l is one line: no break before its end ("\r\n" at the end is one break). */
  predicate SingleLine(l: string) {
    && l != ""
    && forall k :: 0 <= k < |l| - 1 && IsBreak(l[k]) ==> k == |l| - 2 && l[k] == '\r' && l[k + 1] == '\n'
  }

  predicate Terminated(l: string) {
    l != "" && IsBreak(l[|l| - 1])
  }

  /** Joining a and b would fuse a final "\r" with an initial "\n" into one break. */
  predicate Fuses(a: string, b: string) {
    a != "" && b != "" && a[|a| - 1] == '\r' && b[0] == '\n'
  }

  predicate IsSplit(lines: seq<string>) {
    && (forall i :: 0 <= i < |lines| ==> SingleLine(lines[i]))
    && (forall i :: 0 <= i < |lines| - 1 ==> Terminated(lines[i]) && !Fuses(lines[i], lines[i + 1]))
  }

  lemma {:induction false} FirstLineIsSingle(s: string)
    requires s != ""
    ensures SingleLine(s[..FirstLineLength(s)])
    ensures FirstLineLength(s) < |s| ==> Terminated(s[..FirstLineLength(s)])
    ensures FirstLineLength(s) < |s| ==> !Fuses(s[..FirstLineLength(s)], s[FirstLineLength(s)..])
  {
    var n := FirstLineLength(s);
    if s[0] == '\r' && |s| > 1 && s[1] == '\n' {
    } else if IsBreak(s[0]) {
    } else if |s| > 1 {
      FirstLineIsSingle(s[1..]);
      var m := FirstLineLength(s[1..]);
      var rest := s[1..][..m];
      assert s[..n] == [s[0]] + rest;
      forall k | 0 <= k < |s[..n]| - 1 && IsBreak(s[..n][k])
        ensures k == |s[..n]| - 2 && s[..n][k] == '\r' && s[..n][k + 1] == '\n'
      {
        assert s[..n][k] == rest[k - 1];
      }
    }
  }

  lemma {:induction false} FirstLineOfJoin(a: string, b: string)
    requires SingleLine(a)
    ensures FirstLineLength(a + b) == |a| <==> b == "" || (Terminated(a) && !Fuses(a, b))
  {
    var s := a + b;
    if |a| == 1 {
      assert b != "" ==> s[1] == b[0];
      assert s[1..] == b;
    } else if s[0] == '\r' && s[1] == '\n' {
      assert IsBreak(a[0]);
      assert |a| == 2 && a[1] == '\n';
    } else {
      assert !IsBreak(a[0]);
      var t := a[1..];
      forall k | 0 <= k < |t| - 1 && IsBreak(t[k])
        ensures k == |t| - 2 && t[k] == '\r' && t[k + 1] == '\n'
      {
        assert t[k] == a[k + 1];
      }
      FirstLineOfJoin(t, b);
      assert s[1..] == t + b;
    }
  }

  lemma {:induction false} JoinHead(lines: seq<string>)
    requires lines != [] && SingleLine(lines[0])
    ensures Join(lines) != "" && Join(lines)[0] == lines[0][0]
  {
  }

  lemma JoinCons(head: string, rest: seq<string>)
    ensures Join([head] + rest) == head + Join(rest)
  {
    assert ([head] + rest)[1..] == rest;
  }

  lemma SplitCons(head: string, rest: seq<string>)
    requires SingleLine(head) && IsSplit(rest)
    requires rest != [] ==> Terminated(head) && !Fuses(head, rest[0])
    ensures IsSplit([head] + rest)
  {
  }

  lemma SplitStep(s: string)
    requires s != ""
    ensures var n := FirstLineLength(s); SplitLines(s) == [s[..n]] + SplitLines(s[n..]) && s == s[..n] + s[n..]
  {
  }

  /** Splitting loses nothing, and what it yields is well split. */
  lemma {:induction false} JoinSplitLines(s: string)
    ensures Join(SplitLines(s)) == s
    ensures IsSplit(SplitLines(s))
    decreases |s|
  {
    hide *;
    if s == "" {
      JoinNone();
    } else {
      var n := FirstLineLength(s);
      var head, rest := s[..n], SplitLines(s[n..]);
      SplitStep(s);
      JoinSplitLines(s[n..]);
      FirstLineIsSingle(s);
      JoinCons(head, rest);
      if rest != [] {
        IsSplitTail(rest);
        SingleIsNonEmpty(rest[0]);
        JoinHead(rest);
        SameStart(head, rest[0], s[n..]);
      } else {
        JoinNone();
      }
      SplitCons(head, rest);
    }
  }

  lemma IsSplitTail(lines: seq<string>)
    requires lines != [] && IsSplit(lines)
    ensures SingleLine(lines[0]) && IsSplit(lines[1..]) && lines == [lines[0]] + lines[1..]
    ensures lines[1..] != [] ==> SingleLine(lines[1]) && Terminated(lines[0]) && !Fuses(lines[0], lines[1])
  {
  }

  lemma JoinNone()
    ensures Join([]) == "" && SplitLines("") == [] && IsSplit([])
  {
  }

  lemma SplitFirst(a: string, b: string)
    requires SingleLine(a) && FirstLineLength(a + b) == |a|
    ensures SplitLines(a + b) == [a] + SplitLines(b)
  {
    assert (a + b)[..|a|] == a && (a + b)[|a|..] == b;
  }

  lemma SameStart(a: string, b: string, c: string)
    requires b != "" && c != "" && b[0] == c[0]
    ensures Fuses(a, b) <==> Fuses(a, c)
  {
  }

  lemma {:induction false} SplitLinesJoinWhenSplit(lines: seq<string>)
    requires IsSplit(lines)
    ensures SplitLines(Join(lines)) == lines
  {
    hide *;
    JoinNone();
    if lines != [] {
      var head, tail := lines[0], lines[1..];
      IsSplitTail(lines);
      SplitLinesJoinWhenSplit(tail);
      JoinCons(head, tail);
      if tail != [] {
        SingleIsNonEmpty(tail[0]);
        JoinHead(tail);
        SameStart(head, tail[0], Join(tail));
      }
      FirstLineOfJoin(head, Join(tail));
      SplitFirst(head, Join(tail));
    }
  }

  lemma SingleIsNonEmpty(l: string)
    requires SingleLine(l)
    ensures l != ""
  {
  }

  /** Joining and re-splitting gives the same lines back exactly when they are well split. */
  lemma {:induction false} SplitLinesJoin(lines: seq<string>)
    ensures SplitLines(Join(lines)) == lines <==> IsSplit(lines)
  {
    JoinSplitLines(Join(lines));
    if IsSplit(lines) {
      SplitLinesJoinWhenSplit(lines);
    }
  }

  // ---- newline-terminated lines ----

  /** One line ended by "\n" (or "\r\n"). */
  predicate NewlineLine(l: string) {
    SingleLine(l) && l[|l| - 1] == '\n'
  }

  predicate NewlineLines(lines: seq<string>) {
    forall i :: 0 <= i < |lines| ==> NewlineLine(lines[i])
  }

  lemma NewlineLinesAreSplit(lines: seq<string>)
    requires NewlineLines(lines)
    ensures IsSplit(lines)
  {
  }
}
