/**
 Line-range edits: the edits of one file are sorted by descending start line and
 spliced in one after the other. For disjoint edits this equals replacing all
 ranges of the original at once, whatever order the edits came in.
 */
module LinePatcher {
  import opened Common
  import opened TextLines
  import opened Workspace

  /** Replace lines startLine..endLine (1-based, inclusive). */
  datatype Edit = Edit(path: string, startLine: nat, endLine: nat, replacement: string)

  // ---------------------------------------------------------------- the code

  /** Stable sort by descending start line. */
  function SortDescending(edits: seq<Edit>): (r: seq<Edit>)
    ensures WellFormed(edits) ==> WellFormed(r)
  {
    if edits == [] then [] else InsertDescending(edits[0], SortDescending(edits[1..]))
  }

  function InsertDescending(e: Edit, sorted: seq<Edit>): (r: seq<Edit>)
    ensures WellFormed(sorted) && 1 <= e.startLine <= e.endLine ==> WellFormed(r)
  {
    if sorted == [] then [e]
    else if sorted[0].startLine <= e.startLine then [e] + sorted
    else [sorted[0]] + InsertDescending(e, sorted[1..])
  }

  /** The lines a replacement stands for; one that is not newline-terminated gets a "\n" when text follows. */
  function ReplacementLines(replacement: string, textFollows: bool): (r: seq<string>) {
    var lines := SplitLines(replacement);
    if lines != [] && textFollows && !EndsWithNewline(lines[|lines| - 1])
    then lines[..|lines| - 1] + [lines[|lines| - 1] + "\n"]
    else lines
  }

  predicate EndsWithNewline(line: string) {
    line != "" && line[|line| - 1] == '\n'
  }

  /** One splice; None when the start line is past the end. */
  function Splice(lines: seq<string>, e: Edit): (r: Option<seq<string>>)
    requires 1 <= e.startLine <= e.endLine
  {
    if e.startLine - 1 >= |lines| then None
    else Some(lines[..e.startLine - 1] + ReplacementLines(e.replacement, e.endLine < |lines|)
              + SliceFrom(lines, e.endLine))
  }

  predicate WellFormed(edits: seq<Edit>) {
    forall k :: 0 <= k < |edits| ==> 1 <= edits[k].startLine <= edits[k].endLine
  }

  function SpliceAll(lines: seq<string>, sorted: seq<Edit>): (r: Option<seq<string>>)
    requires WellFormed(sorted)
    decreases |sorted|
  {
    if sorted == [] then Some(lines)
    else match Splice(lines, sorted[0])
         case None => None
         case Some(next) => SpliceAll(next, sorted[1..])
  }

  method SpliceEdits(content: string, fileEdits: seq<Edit>) returns (r: Option<seq<string>>)
    requires WellFormed(fileEdits)
    ensures r == SpliceAll(SplitLines(content), SortDescending(fileEdits))
  {
    var lines := SplitLines(content);
    var sorted := SortDescending(fileEdits);
    hide *;
    for i := 0 to |sorted|
      invariant WellFormed(sorted[i..])
      invariant SpliceAll(lines, sorted[i..]) == SpliceAll(SplitLines(content), sorted)
    {
      SpliceAllStep(lines, sorted, i);
      var spliced := Splice(lines, sorted[i]);
      if spliced.None? {
        return None;
      }
      lines := spliced.value;
    }
    SpliceAllEnd(lines, sorted);
    r := Some(lines);
  }

  lemma SpliceAllStep(lines: seq<string>, sorted: seq<Edit>, i: nat)
    requires i < |sorted| && WellFormed(sorted[i..])
    ensures WellFormed(sorted[i + 1..]) && 1 <= sorted[i].startLine <= sorted[i].endLine
    ensures SpliceAll(lines, sorted[i..]) ==
      match Splice(lines, sorted[i]) case None => None case Some(next) => SpliceAll(next, sorted[i + 1..])
  {
    assert sorted[i..][0] == sorted[i] && sorted[i..][1..] == sorted[i + 1..];
  }

  lemma SpliceAllEnd(lines: seq<string>, sorted: seq<Edit>)
    ensures WellFormed(sorted[|sorted|..]) && SpliceAll(lines, sorted[|sorted|..]) == Some(lines)
  {
  }

  // ------------------------------------------- simultaneous replacement

  /** The edit that starts at 0-based line i, if there is one. */
  function EditAt(edits: seq<Edit>, i: nat): (r: Option<Edit>)
    ensures r.Some? ==> r.value in edits && r.value.startLine == i + 1
    ensures r.None? ==> forall k :: 0 <= k < |edits| ==> edits[k].startLine != i + 1
  {
    if edits == [] then None
    else if edits[0].startLine == i + 1 then Some(edits[0])
    else EditAt(edits[1..], i)
  }

  function EndIndex(e: Edit, n: nat): (t: nat)
    ensures t <= n
  {
    if e.endLine <= n then e.endLine else n
  }

  /** The original from line i on, with every edit's range replaced at once. */
  function Rebuild(original: seq<string>, edits: seq<Edit>, i: nat): (r: seq<string>)
    requires WellFormed(edits)
    decreases |original| - i
  {
    if i >= |original| then []
    else match EditAt(edits, i)
         case None => [original[i]] + Rebuild(original, edits, i + 1)
         case Some(e) =>
           var tail := Rebuild(original, edits, EndIndex(e, |original|));
           ReplacementLines(e.replacement, tail != []) + tail
  }

  predicate Disjoint(edits: seq<Edit>) {
    forall j, k :: 0 <= j < |edits| && 0 <= k < |edits| && j != k ==>
      edits[j].endLine < edits[k].startLine || edits[k].endLine < edits[j].startLine
  }

  predicate InRange(original: seq<string>, edits: seq<Edit>) {
    forall k :: 0 <= k < |edits| ==> edits[k].startLine <= |original|
  }

  // ---- sorting

  predicate Descending(edits: seq<Edit>) {
    forall j, k :: 0 <= j < k < |edits| ==> edits[j].startLine >= edits[k].startLine
  }

  lemma {:induction false} InsertFacts(e: Edit, sorted: seq<Edit>)
    requires Descending(sorted)
    ensures Descending(InsertDescending(e, sorted))
    ensures |InsertDescending(e, sorted)| == |sorted| + 1
    ensures forall x :: x in InsertDescending(e, sorted) <==> x == e || x in sorted
  {
    if sorted != [] && sorted[0].startLine > e.startLine {
      var x, rest := sorted[0], sorted[1..];
      assert Descending(rest);
      InsertFacts(e, rest);
      var r := InsertDescending(e, rest);
      forall k | 0 <= k < |r| ensures x.startLine >= r[k].startLine {
        assert r[k] == e || r[k] in rest;
      }
    }
  }

  /** Sorting keeps the edits and puts them in descending order. */
  lemma {:induction false} SortFacts(edits: seq<Edit>)
    ensures Descending(SortDescending(edits)) && |SortDescending(edits)| == |edits|
    ensures forall e :: e in SortDescending(edits) <==> e in edits
  {
    if edits != [] {
      SortFacts(edits[1..]);
      InsertFacts(edits[0], SortDescending(edits[1..]));
    }
  }

  /** The edits that start at a line, in their order. */
  function StartingAt(edits: seq<Edit>, line: nat): (r: seq<Edit>) {
    if edits == [] then []
    else (if edits[0].startLine == line then [edits[0]] else []) + StartingAt(edits[1..], line)
  }

  lemma StartingAtCons(e: Edit, rest: seq<Edit>, line: nat)
    ensures StartingAt([e] + rest, line) == (if e.startLine == line then [e] else []) + StartingAt(rest, line)
  {
    assert ([e] + rest)[1..] == rest;
  }

  lemma InsertStep(e: Edit, sorted: seq<Edit>)
    ensures sorted == [] || sorted[0].startLine <= e.startLine ==> InsertDescending(e, sorted) == [e] + sorted
    ensures sorted != [] && sorted[0].startLine > e.startLine ==>
      InsertDescending(e, sorted) == [sorted[0]] + InsertDescending(e, sorted[1..])
  {
  }

  lemma MoveInside(x: Edit, e: Edit, rest: seq<Edit>, r: seq<Edit>)
    requires multiset(r) == multiset([e] + rest)
    ensures multiset([x] + r) == multiset([e] + ([x] + rest))
  {
  }

  lemma SwapApart(x: Edit, e: Edit, rest: seq<Edit>, line: nat)
    requires x.startLine != e.startLine
    ensures StartingAt([e] + ([x] + rest), line) == StartingAt([x] + ([e] + rest), line)
  {
    hide StartingAt;
    StartingAtCons(e, [x] + rest, line);
    StartingAtCons(x, rest, line);
    StartingAtCons(x, [e] + rest, line);
    StartingAtCons(e, rest, line);
  }

  lemma {:induction false} InsertIsStable(e: Edit, sorted: seq<Edit>, line: nat)
    requires Descending(sorted)
    ensures StartingAt(InsertDescending(e, sorted), line) == StartingAt([e] + sorted, line)
    ensures multiset(InsertDescending(e, sorted)) == multiset([e] + sorted)
  {
    hide *;
    InsertStep(e, sorted);
    if sorted != [] && sorted[0].startLine > e.startLine {
      var x, rest := sorted[0], sorted[1..];
      assert sorted == [x] + rest;
      DescendingTail(sorted);
      InsertIsStable(e, rest, line);
      MoveInside(x, e, rest, InsertDescending(e, rest));
      StartingAtCons(x, InsertDescending(e, rest), line);
      StartingAtCons(x, [e] + rest, line);
      SwapApart(x, e, rest, line);
    }
  }

  lemma DescendingTail(sorted: seq<Edit>)
    requires sorted != [] && Descending(sorted)
    ensures Descending(sorted[1..]) && forall k :: 0 <= k < |sorted| ==> sorted[k].startLine <= sorted[0].startLine
  {
  }

  /** The sort is stable: it permutes the edits and keeps the order among those that start at one line. */
  lemma {:induction false} SortIsStable(edits: seq<Edit>, line: nat)
    ensures multiset(SortDescending(edits)) == multiset(edits)
    ensures StartingAt(SortDescending(edits), line) == StartingAt(edits, line)
  {
    if edits != [] {
      var e, rest := edits[0], edits[1..];
      assert edits == [e] + rest;
      SortIsStable(rest, line);
      SortFacts(rest);
      InsertIsStable(e, SortDescending(rest), line);
      StartingAtCons(e, SortDescending(rest), line);
      StartingAtCons(e, rest, line);
    }
    hide StartingAt, InsertDescending, Descending;
  }

  lemma SortKeepsInRange(original: seq<string>, edits: seq<Edit>)
    requires InRange(original, edits)
    ensures InRange(original, SortDescending(edits))
  {
    SortFacts(edits);
    var sorted := SortDescending(edits);
    forall k | 0 <= k < |sorted| ensures sorted[k].startLine <= |original| {
      assert sorted[k] in edits;
    }
  }

  /** Disjointness of well-formed edits is a property of the multiset, so sorting keeps it. */
  lemma {:induction false} DisjointTail(edits: seq<Edit>)
    requires edits != [] && Disjoint(edits) && WellFormed(edits)
    ensures Disjoint(edits[1..]) && WellFormed(edits[1..]) && edits[0] !in edits[1..]
  {
    var rest := edits[1..];
    forall j, k | 0 <= j < |rest| && 0 <= k < |rest| && j != k
      ensures rest[j].endLine < rest[k].startLine || rest[k].endLine < rest[j].startLine
    {
      assert rest[j] == edits[j + 1] && rest[k] == edits[k + 1];
    }
  }

  predicate Apart(a: Edit, b: Edit) {
    a.endLine < b.startLine || b.endLine < a.startLine
  }

  lemma {:induction false} InsertKeepsDisjoint(e: Edit, sorted: seq<Edit>)
    requires Disjoint(sorted) && forall k :: 0 <= k < |sorted| ==> Apart(e, sorted[k])
    ensures Disjoint(InsertDescending(e, sorted))
    ensures forall x :: x in InsertDescending(e, sorted) <==> x == e || x in sorted
  {
    if sorted != [] && sorted[0].startLine > e.startLine {
      var x, rest := sorted[0], sorted[1..];
      assert Disjoint(rest) by {
        assert forall j :: 0 <= j < |rest| ==> rest[j] == sorted[j + 1];
      }
      InsertKeepsDisjoint(e, rest);
      var r := InsertDescending(e, rest);
      forall k | 0 <= k < |r| ensures Apart(x, r[k]) {
        if r[k] != e {
          assert r[k] in rest;
        }
      }
    }
  }

  lemma {:induction false} SortKeepsDisjoint(edits: seq<Edit>)
    requires Disjoint(edits) && WellFormed(edits)
    ensures Disjoint(SortDescending(edits))
  {
    if edits != [] {
      DisjointTail(edits);
      SortKeepsDisjoint(edits[1..]);
      SortFacts(edits[1..]);
      forall k | 0 <= k < |SortDescending(edits[1..])| ensures Apart(edits[0], SortDescending(edits[1..])[k]) {
        var x := SortDescending(edits[1..])[k];
        assert x in edits[1..];
      }
      InsertKeepsDisjoint(edits[0], SortDescending(edits[1..]));
    }
  }

  lemma RebuildStep(original: seq<string>, edits: seq<Edit>, i: nat)
    requires WellFormed(edits) && i < |original|
    ensures EditAt(edits, i).None? ==>
      Rebuild(original, edits, i) == [original[i]] + Rebuild(original, edits, i + 1)
    ensures EditAt(edits, i).Some? ==>
      var e := EditAt(edits, i).value;
      var t := EndIndex(e, |original|);
      && i < t
      && var tail := Rebuild(original, edits, t);
         Rebuild(original, edits, i) == ReplacementLines(e.replacement, tail != []) + tail
  {
  }

  // ---- rebuilding does not depend on the order of the edits

  lemma EditAtUnique(edits: seq<Edit>, e: Edit)
    requires WellFormed(edits) && Disjoint(edits) && e in edits
    ensures EditAt(edits, e.startLine - 1) == Some(e)
  {
    var k :| 0 <= k < |edits| && edits[k] == e;
    var found := EditAt(edits, e.startLine - 1);
    var j :| 0 <= j < |edits| && edits[j] == found.value;
  }

  /** The rebuilt text depends only on which edits there are. */
  lemma {:induction false} RebuildOrderFree(original: seq<string>, a: seq<Edit>, b: seq<Edit>, i: nat)
    requires WellFormed(a) && WellFormed(b) && Disjoint(a) && Disjoint(b)
    requires forall e :: e in a <==> e in b
    ensures Rebuild(original, a, i) == Rebuild(original, b, i)
    decreases |original| - i
  {
    hide ReplacementLines, EditAt;
    if i < |original| {
      var at := EditAt(a, i);
      RebuildStep(original, a, i);
      RebuildStep(original, b, i);
      if at.Some? {
        EditAtUnique(b, at.value);
        RebuildOrderFree(original, a, b, EndIndex(at.value, |original|));
      } else {
        assert EditAt(b, i).None?;
        RebuildOrderFree(original, a, b, i + 1);
      }
    }
  }

  // ---- one splice adds one edit

  lemma {:induction false} RebuildGap(original: seq<string>, edits: seq<Edit>, i: nat, t: nat)
    requires WellFormed(edits) && i <= t <= |original|
    requires forall k :: 0 <= k < |edits| ==> !(i < edits[k].startLine <= t)
    ensures Rebuild(original, edits, i) == original[i..t] + Rebuild(original, edits, t)
    decreases t - i
  {
    hide *;
    if i < t {
      assert EditAt(edits, i).None?;
      RebuildStep(original, edits, i);
      RebuildGap(original, edits, i + 1, t);
      assert original[i..t] == [original[i]] + original[i + 1..t];
      ConcatAssociative([original[i]], original[i + 1..t], Rebuild(original, edits, t));
    } else {
      assert original[i..t] == [];
    }
  }

  lemma {:induction false} RebuildIgnoresEarlier(original: seq<string>, edits: seq<Edit>, e: Edit, j: nat)
    requires WellFormed(edits + [e]) && WellFormed(edits) && e.startLine <= j
    ensures Rebuild(original, edits + [e], j) == Rebuild(original, edits, j)
    decreases |original| - j
  {
    if j < |original| {
      EditAtAppend(edits, e, j);
      match EditAt(edits, j) {
        case None => RebuildIgnoresEarlier(original, edits, e, j + 1);
        case Some(x) => RebuildIgnoresEarlier(original, edits, e, EndIndex(x, |original|));
      }
    }
  }

  lemma {:induction false} EditAtAppend(edits: seq<Edit>, e: Edit, j: nat)
    ensures EditAt(edits + [e], j) ==
            if EditAt(edits, j).Some? then EditAt(edits, j)
            else if e.startLine == j + 1 then Some(e) else None
  {
    if edits == [] {
      assert edits + [e] == [e] && [e][1..] == [];
    } else {
      assert (edits + [e])[0] == edits[0] && (edits + [e])[1..] == edits[1..] + [e];
      EditAtAppend(edits[1..], e, j);
    }
  }

  /** Splicing below everything already done adds exactly that edit. */
  lemma SpliceAddsEdit(original: seq<string>, done: seq<Edit>, e: Edit)
    requires WellFormed(done) && 1 <= e.startLine <= e.endLine && e.startLine <= |original|
    requires forall k :: 0 <= k < |done| ==> e.endLine < done[k].startLine
    ensures WellFormed(done + [e])
    ensures Splice(Rebuild(original, done, 0), e) == Some(Rebuild(original, done + [e], 0))
  {
    var all := done + [e];
    assert WellFormed(all);
    hide Rebuild, ReplacementLines, Splice, EditAt;
    var s, t := e.startLine - 1, EndIndex(e, |original|);
    var tail := Rebuild(original, done, t);
    RebuildGap(original, done, 0, t);
    RebuildIgnoresEarlier(original, done, e, t);
    RebuildGap(original, all, 0, s);
    EditAtAppend(done, e, s);
    assert EditAt(done, s).None?;
    RebuildStep(original, all, s);
    SpliceSequences(original, s, t, tail, e);
  }

  lemma SpliceSequences(original: seq<string>, s: nat, t: nat, tail: seq<string>, e: Edit)
    requires s < t <= |original| && e.startLine == s + 1 && t == EndIndex(e, |original|) && s < e.endLine
    requires t == |original| && e.endLine > |original| ==> tail == []
    ensures Splice(original[0..t] + tail, e)
         == Some(original[0..s] + (ReplacementLines(e.replacement, tail != []) + tail))
  {
    hide ReplacementLines;
    var lines := original[0..t] + tail;
    assert lines[..s] == original[0..s];
    assert SliceFrom(lines, e.endLine) == tail;
    ConcatAssociative(original[0..s], ReplacementLines(e.replacement, tail != []), tail);
  }

  lemma {:induction false} SpliceAllRebuilds(original: seq<string>, done: seq<Edit>, todo: seq<Edit>)
    requires WellFormed(done) && WellFormed(todo) && InRange(original, todo)
    requires Descending(todo) && Disjoint(todo)
    requires forall j, k :: 0 <= j < |done| && 0 <= k < |todo| ==> todo[k].endLine < done[j].startLine
    ensures WellFormed(done + todo)
    ensures SpliceAll(Rebuild(original, done, 0), todo) == Some(Rebuild(original, done + todo, 0))
    decreases |todo|
  {
    hide Rebuild, Splice;
    if todo == [] {
      assert done + todo == done;
    } else {
      var e, rest := todo[0], todo[1..];
      SpliceAddsEdit(original, done, e);
      DisjointTail(todo);
      forall j, k | 0 <= j < |done + [e]| && 0 <= k < |rest|
        ensures rest[k].endLine < (done + [e])[j].startLine
      {
        assert rest[k] == todo[k + 1];
      }
      SpliceAllRebuilds(original, done + [e], rest);
      assert done + [e] + rest == done + todo;
    }
  }

  /** Splicing disjoint in-range edits in descending order is replacing all ranges at
      once, for the edits in whatever order they were given. */
  lemma SplicesAreSimultaneous(original: seq<string>, edits: seq<Edit>)
    requires WellFormed(edits) && Disjoint(edits) && InRange(original, edits)
    ensures SpliceAll(original, SortDescending(edits)) == Some(Rebuild(original, edits, 0))
  {
    hide *;
    var sorted := SortDescending(edits);
    SortFacts(edits);
    SortKeepsInRange(original, edits);
    SortKeepsDisjoint(edits);
    RebuildNothing(original);
    SpliceAllRebuilds(original, [], sorted);
    assert [] + sorted == sorted;
    RebuildOrderFree(original, sorted, edits, 0);
  }

  lemma RebuildNothing(original: seq<string>)
    ensures WellFormed([]) && Rebuild(original, [], 0) == original
  {
    RebuildGap(original, [], 0, |original|);
    assert original[0..|original|] == original;
  }

  /** An out-of-range edit stops the splicing before anything is produced, overlapping or not. */
  lemma OutOfRangeFails(original: seq<string>, edits: seq<Edit>)
    requires WellFormed(edits) && !InRange(original, edits)
    ensures SpliceAll(original, SortDescending(edits)) == None
  {
    SortFacts(edits);
    var k :| 0 <= k < |edits| && edits[k].startLine > |original|;
    var sorted := SortDescending(edits);
    assert edits[k] in sorted;
    var j :| 0 <= j < |sorted| && sorted[j] == edits[k];
    assert sorted[0].startLine >= sorted[j].startLine;
  }

  // ------------------------------------------------- the text that is written

  /** The last line ends in a break that is neither "\n" nor "\r" (form feed and the like),
      so that a "\n" added after it starts a line of its own. */
  predicate OddEnding(replacement: string) {
    var lines := SplitLines(replacement);
    lines != [] && Terminated(lines[|lines| - 1]) && lines[|lines| - 1][|lines[|lines| - 1]| - 1] !in {'\n', '\r'}
  }

  predicate Followed(original: seq<string>, edits: seq<Edit>, e: Edit)
    requires WellFormed(edits)
  {
    Rebuild(original, edits, EndIndex(e, |original|)) != []
  }

  lemma AppendSplit(a: seq<string>, b: seq<string>)
    requires IsSplit(b) && (a != [] && b != [] ==> Terminated(a[|a| - 1]) && !Fuses(a[|a| - 1], b[0]))
    ensures IsSplit(a + b) <==> IsSplit(a)
  {
    var c := a + b;
    if IsSplit(c) {
      forall i | 0 <= i < |a| ensures SingleLine(a[i]) {
        assert c[i] == a[i];
      }
      forall i | 0 <= i < |a| - 1 ensures Terminated(a[i]) && !Fuses(a[i], a[i + 1]) {
        assert c[i] == a[i] && c[i + 1] == a[i + 1];
      }
      assert IsSplit(a);
    }
    if IsSplit(a) {
      forall i | 0 <= i < |c| ensures SingleLine(c[i]) {
        assert i >= |a| ==> c[i] == b[i - |a|];
      }
      forall i | 0 <= i < |c| - 1 ensures Terminated(c[i]) && !Fuses(c[i], c[i + 1]) {
        if i < |a| {
          assert c[i] == a[i];
          assert c[i + 1] == if i == |a| - 1 then b[0] else a[i + 1];
        } else {
          assert c[i] == b[i - |a|] && c[i + 1] == b[i - |a| + 1];
        }
      }
      assert IsSplit(c);
    }
  }

  lemma AppendUnsplit(a: seq<string>, b: seq<string>)
    ensures IsSplit(a + b) ==> IsSplit(b)
  {
    var c := a + b;
    forall i | 0 <= i < |b| ensures c[|a| + i] == b[i] {
    }
  }

  lemma AddNewline(line: string)
    requires SingleLine(line)
    ensures SingleLine(line + "\n") <==> !Terminated(line) || line[|line| - 1] == '\r'
    ensures EndsWithNewline(line) ==> Terminated(line)
  {
    var l, n := line + "\n", |line|;
    assert forall k :: 0 <= k < n ==> l[k] == line[k];
    assert l[n] == '\n';
    if SingleLine(l) && Terminated(line) {
      assert IsBreak(l[n - 1]);
    }
  }

  lemma FixLastLine(lines: seq<string>)
    requires IsSplit(lines) && lines != [] && !EndsWithNewline(lines[|lines| - 1])
    ensures var last := lines[|lines| - 1];
      IsSplit(lines[..|lines| - 1] + [last + "\n"]) <==> !Terminated(last) || last[|last| - 1] == '\r'
  {
    var n := |lines| - 1;
    var last := lines[n];
    var front, fixed := lines[..n], [last + "\n"];
    AddNewline(last);
    assert last[0] == (last + "\n")[0];
    assert IsSplit(fixed) <==> SingleLine(last + "\n") by { assert fixed[0] == last + "\n"; }
    assert IsSplit(front);
    assert n > 0 ==> front[n - 1] == lines[n - 1] && !Fuses(lines[n - 1], lines[n]);
    if IsSplit(fixed) {
      AppendSplit(front, fixed);
    }
    AppendUnsplit(front, fixed);
  }

  /** A replacement's lines stay one line each unless a "\n" is put after an odd ending. */
  lemma ReplacementSplit(replacement: string, textFollows: bool)
    ensures var lines := ReplacementLines(replacement, textFollows);
      && (IsSplit(lines) <==> !(textFollows && OddEnding(replacement)))
      && (lines != [] && textFollows ==> EndsWithNewline(lines[|lines| - 1]))
  {
    JoinSplitLines(replacement);
    var lines := SplitLines(replacement);
    hide SplitLines, IsSplit, IsBreak, SingleLine;
    if lines != [] && textFollows && !EndsWithNewline(lines[|lines| - 1]) {
      FixLastLine(lines);
      assert OddEnding(replacement) <==> !IsSplit(ReplacementLines(replacement, textFollows));
    }
  }

  predicate NoOddEnding(original: seq<string>, edits: seq<Edit>, from: nat)
    requires WellFormed(edits)
  {
    forall e :: e in edits && from < e.startLine && Followed(original, edits, e) ==> !OddEnding(e.replacement)
  }

  predicate ReadLines(original: seq<string>) {
    IsSplit(original) && forall i :: 0 <= i < |original| ==> '\r' !in original[i]
  }

  lemma SplitPastGap(line: string, tail: seq<string>)
    requires SingleLine(line) && (tail != [] ==> Terminated(line)) && line[|line| - 1] != '\r'
    ensures IsSplit([line] + tail) <==> IsSplit(tail)
  {
    if IsSplit(tail) {
      AppendSplit([line], tail);
    }
    AppendUnsplit([line], tail);
  }

  lemma SplitPastReplacement(replacement: string, tail: seq<string>)
    ensures IsSplit(ReplacementLines(replacement, tail != []) + tail)
       <==> IsSplit(tail) && !(tail != [] && OddEnding(replacement))
  {
    var lines := ReplacementLines(replacement, tail != []);
    ReplacementSplit(replacement, tail != []);
    if lines != [] && tail != [] {
      assert EndsWithNewline(lines[|lines| - 1]);
    }
    if IsSplit(tail) {
      AppendSplit(lines, tail);
    }
    AppendUnsplit(lines, tail);
  }

  /** No edit straddles line i. */
  predicate Between(original: seq<string>, edits: seq<Edit>, i: nat) {
    forall e :: e in edits ==> e.startLine > i || EndIndex(e, |original|) <= i
  }

  lemma {:induction false} RebuildIsSplit(original: seq<string>, edits: seq<Edit>, i: nat)
    requires ReadLines(original) && Between(original, edits, i)
    requires WellFormed(edits) && Disjoint(edits) && InRange(original, edits)
    ensures IsSplit(Rebuild(original, edits, i)) <==> NoOddEnding(original, edits, i)
    decreases |original| - i
  {
    hide Rebuild, IsSplit, ReplacementLines, OddEnding, Disjoint, WellFormed;
    if i >= |original| {
      RebuildPastEnd(original, edits, i);
      assert forall e :: e in edits ==> e.startLine <= i;
    } else {
      RebuildStep(original, edits, i);
      match EditAt(edits, i) {
        case None =>
          GapLine(original, edits, i);
          RebuildIsSplit(original, edits, i + 1);
          SplitPastGap(original[i], Rebuild(original, edits, i + 1));
        case Some(e) =>
          var t := EndIndex(e, |original|);
          EditsAfter(original, edits, e);
          RebuildIsSplit(original, edits, t);
          SplitPastReplacement(e.replacement, Rebuild(original, edits, t));
      }
    }
  }

  lemma RebuildPastEnd(original: seq<string>, edits: seq<Edit>, i: nat)
    requires WellFormed(edits) && InRange(original, edits) && i >= |original|
    ensures IsSplit(Rebuild(original, edits, i))
    ensures forall e :: e in edits ==> e.startLine <= i
  {
  }

  lemma GapLine(original: seq<string>, edits: seq<Edit>, i: nat)
    requires ReadLines(original) && Between(original, edits, i) && WellFormed(edits) && InRange(original, edits)
    requires i < |original| && EditAt(edits, i).None?
    ensures Between(original, edits, i + 1)
    ensures forall e :: e in edits ==> (i < e.startLine <==> i + 1 < e.startLine)
    ensures SingleLine(original[i]) && original[i][|original[i]| - 1] != '\r'
    ensures Rebuild(original, edits, i + 1) != [] ==> Terminated(original[i])
  {
    var l := original[i];
    assert l[|l| - 1] in l;
  }

  lemma EditsAfter(original: seq<string>, edits: seq<Edit>, e: Edit)
    requires WellFormed(edits) && Disjoint(edits) && InRange(original, edits) && e in edits
    requires Between(original, edits, e.startLine - 1)
    ensures var t := EndIndex(e, |original|);
      && Between(original, edits, t) && e.startLine <= t
      && forall x :: x in edits ==> (e.startLine - 1 < x.startLine <==> x == e || t < x.startLine)
  {
    var t := EndIndex(e, |original|);
    var a :| 0 <= a < |edits| && edits[a] == e;
    forall x | x in edits
      ensures x.startLine > t || EndIndex(x, |original|) <= t
      ensures e.startLine - 1 < x.startLine <==> x == e || t < x.startLine
    {
      var b :| 0 <= b < |edits| && edits[b] == x;
      assert a != b ==> edits[a].endLine < edits[b].startLine || edits[b].endLine < edits[a].startLine;
    }
  }

  /** For text as `read` delivers it, re-splitting what is written gives back the rebuilt
      lines exactly when no replacement with text after it has an odd ending. */
  lemma WrittenTextResplits(content: string, edits: seq<Edit>)
    requires '\r' !in content
    requires WellFormed(edits) && Disjoint(edits) && InRange(SplitLines(content), edits)
    ensures var original := SplitLines(content);
      var lines := Rebuild(original, edits, 0);
      SplitLines(Join(lines)) == lines
      <==> forall e :: e in edits && Followed(original, edits, e) ==> !OddEnding(e.replacement)
  {
    var original := SplitLines(content);
    JoinSplitLines(content);
    LinesWithoutReturn(original);
    hide *;
    StartIsBetween(original, edits);
    RebuildIsSplit(original, edits, 0);
    SplitLinesJoin(Rebuild(original, edits, 0));
    NoOddEndingAtStart(original, edits);
  }

  lemma NoOddEndingAtStart(original: seq<string>, edits: seq<Edit>)
    requires WellFormed(edits)
    ensures NoOddEnding(original, edits, 0)
       <==> forall e :: e in edits && Followed(original, edits, e) ==> !OddEnding(e.replacement)
  {
    assert forall e :: e in edits ==> 0 < e.startLine;
  }

  lemma StartIsBetween(original: seq<string>, edits: seq<Edit>)
    requires WellFormed(edits)
    ensures Between(original, edits, 0)
  {
  }

  lemma {:induction false} LinesWithoutReturn(lines: seq<string>)
    requires '\r' !in Join(lines)
    ensures forall i :: 0 <= i < |lines| ==> '\r' !in lines[i]
  {
    if lines != [] {
      var s, rest := Join(lines), Join(lines[1..]);
      assert forall k :: 0 <= k < |lines[0]| ==> s[k] == lines[0][k];
      assert forall k :: 0 <= k < |rest| ==> s[|lines[0]| + k] == rest[k];
      LinesWithoutReturn(lines[1..]);
    }
  }
}
