/**
 Diffs over files: splitting a unified diff into per-file blocks, and the loop that
 reads, patches and writes back every file a diff names.
 */
module DiffFiles {
  import opened Common
  import opened PyStrings
  import opened TextLines
  import opened Workspace
  import opened UnifiedDiff

  // ---------------------------------------------------------------- splitting

  datatype Block = Block(name: string, lines: seq<string>)

  datatype Splitter = Splitter(files: seq<Block>, current: Option<string>, lines: seq<string>)

  /** line starts with "--- " (or "+++ "). */
  predicate IsMarker(line: string, c: char) {
    Starts(line, c, 3) && |line| >= 4 && line[3] == ' '
  }

  function HeaderName(line: string, prefix: string): (r: string)
    requires |line| >= 4 && |prefix| == 2
  {
    var name := Before(TrimRight(line[4..]), '\t');
    if StartsWith(name, prefix) then name[2..] else name
  }

  function SplitStep(line: string, st: Splitter): (r: Splitter) {
    if IsMarker(line, '-') then
      if st.current.Some? then Splitter(Closed(st), Some(HeaderName(line, "a/")), [])
      else st.(current := Some(HeaderName(line, "a/")))
    else if IsMarker(line, '+') then st.(current := Some(HeaderName(line, "b/")))
    else st.(lines := st.lines + [line])
  }

  function Closed(st: Splitter): (r: seq<Block>) {
    if st.current.Some? then st.files + [Block(st.current.value, st.lines)] else st.files
  }

  function SplitFold(lines: seq<string>, st: Splitter): (r: Splitter) {
    if lines == [] then st else SplitFold(lines[1..], SplitStep(lines[0], st))
  }

  const EMPTY_SPLITTER := Splitter([], None, [])

  method SplitDiffFiles(diffText: string) returns (files: seq<Block>)
    ensures files == Closed(SplitFold(SplitLines(diffText), EMPTY_SPLITTER))
  {
    var lines := SplitLines(diffText);
    files := [];
    var currentFile: Option<string> := None;
    var currentLines: seq<string> := [];
    for i := 0 to |lines|
      invariant SplitFold(lines[i..], Splitter(files, currentFile, currentLines)) == SplitFold(lines, EMPTY_SPLITTER)
    {
      var line := lines[i];
      assert lines[i..][0] == line && lines[i..][1..] == lines[i + 1..];
      if IsMarker(line, '-') {
        if currentFile.Some? {
          files := files + [Block(currentFile.value, currentLines)];
          currentLines := [];
        }
        currentFile := Some(HeaderName(line, "a/"));
      } else if IsMarker(line, '+') {
        currentFile := Some(HeaderName(line, "b/"));
      } else {
        currentLines := currentLines + [line];
      }
    }
    if currentFile.Some? {
      files := files + [Block(currentFile.value, currentLines)];
    }
  }

  // ------------------------------------------------------- splitting into files

  datatype FileDiff = FileDiff(name: string, hunks: seq<Hunk>)

  /** A file name that survives being printed in a header line. */
  predicate PlainName(name: string) {
    && (forall k :: 0 <= k < |name| ==> !IsBreak(name[k]) && name[k] != '\t')
    && (name != "" ==> !IsSpace(name[|name| - 1]))
  }

  predicate PrintableFile(d: FileDiff) {
    PlainName(d.name) && Printable(d.hunks)
  }

  /** A plain name and operations on whole lines, whatever their text. */
  predicate WholeFile(d: FileDiff) {
    PlainName(d.name) && WholeHunks(d.hunks)
  }

  predicate WholeHunks(hunks: seq<Hunk>) {
    forall i :: 0 <= i < |hunks| ==> NewlineOps(hunks[i].ops)
  }

  predicate IsMark(line: string) {
    IsMarker(line, '-') || IsMarker(line, '+')
  }

  predicate Unmarked(lines: seq<string>) {
    forall i :: 0 <= i < |lines| ==> !IsMark(lines[i])
  }

  /** No operation prints as a file marker: no deletion of a line "-- ...", no addition of "++ ...". */
  predicate UnmarkedOps(ops: seq<Op>) {
    forall k :: 0 <= k < |ops| ==> !IsMark(RenderOp(ops[k]))
  }

  predicate UnmarkedHunks(hunks: seq<Hunk>) {
    forall i :: 0 <= i < |hunks| ==> UnmarkedOps(hunks[i].ops)
  }

  function NameLine(c: char, prefix: char, name: string): (line: string) {
    [c, c, c, ' ', prefix, '/'] + name + "\n"
  }

  function RenderFile(d: FileDiff): (lines: seq<string>) {
    [NameLine('-', 'a', d.name), NameLine('+', 'b', d.name)] + RenderHunks(d.hunks, 0, 0)
  }

  function RenderFiles(diffs: seq<FileDiff>): (lines: seq<string>) {
    if diffs == [] then [] else RenderFile(diffs[0]) + RenderFiles(diffs[1..])
  }

  function BlockOf(d: FileDiff): Block { Block(d.name, RenderHunks(d.hunks, 0, 0)) }

  function BlocksOf(diffs: seq<FileDiff>): (blocks: seq<Block>) {
    if diffs == [] then [] else [BlockOf(diffs[0])] + BlocksOf(diffs[1..])
  }

  predicate IsBodyLine(line: string) {
    !IsMark(line) && NewlineLine(line)
  }

  lemma NameLineIsOneLine(c: char, prefix: char, name: string)
    requires PlainName(name) && !IsBreak(c) && !IsBreak(prefix)
    ensures NewlineLine(NameLine(c, prefix, name))
  {
    var line := NameLine(c, prefix, name);
    forall k | 0 <= k < |line| - 1 ensures !IsBreak(line[k]) {
      if k >= 6 {
        assert line[k] == name[k - 6];
      }
    }
  }

  lemma ShownName(shown: string)
    requires shown != "" && !IsSpace(shown[|shown| - 1]) && '\t' !in shown
    ensures Before(TrimRight(shown + "\n"), '\t') == shown
  {
    var t := shown + "\n";
    assert t[|t| - 1] == '\n' && t[..|t| - 1] == shown;
    assert TrimRight(t) == TrimRight(shown) == shown;
    BeforeAbsent(shown, '\t');
  }

  lemma NameLineRoundTrip(c: char, prefix: char, name: string)
    requires PlainName(name) && prefix != '\t'
    ensures HeaderName(NameLine(c, prefix, name), [prefix, '/']) == name
  {
    hide TrimRight, Before;
    var line := NameLine(c, prefix, name);
    var shown := [prefix, '/'] + name;
    assert line[4..] == shown + "\n";
    assert shown[|shown| - 1] == if name == "" then '/' else name[|name| - 1];
    ShownName(shown);
    assert shown[0] == prefix && shown[1] == '/' && shown[2..] == name;
  }

  lemma HeaderIsBody(a: string, b: string)
    requires RangeText(a) && RangeText(b)
    ensures IsBodyLine(HeaderText(a, b))
  {
    var inner, line := BothRanges(a, b), HeaderText(a, b);
    assert forall k :: 0 <= k < |inner| ==> !IsBreak(inner[k]);
    assert |line| == |inner| + 7 && line[0] == '@' && line[|line| - 1] == '\n';
    forall k | 0 <= k < |line| - 1 ensures !IsBreak(line[k]) {
      if 3 <= k < 3 + |inner| {
        assert line[k] == inner[k - 3];
      }
    }
  }

  lemma OpIsOneLine(op: Op)
    requires NewlineLine(op.text)
    ensures NewlineLine(RenderOp(op))
  {
    var line, t := RenderOp(op), op.text;
    assert forall k :: 1 <= k < |line| ==> line[k] == t[k - 1];
    forall k | 0 <= k < |line| - 1 && IsBreak(line[k])
      ensures k == |line| - 2 && line[k] == '\r' && line[k + 1] == '\n'
    {
      assert k > 0 && line[k] == t[k - 1];
    }
  }

  /** A line that the applier takes for what it prints is no file marker either. */
  lemma CleanIsUnmarked(op: Op)
    requires Clean(op)
    ensures !IsMark(RenderOp(op))
  {
    var line, t := RenderOp(op), op.text;
    assert line[0] == Sign(op);
    if Starts(line, Sign(op), 3) {
      assert line[1] == t[0] && line[2] == t[1];
      assert Starts(t, Sign(op), 2);
    }
  }

  lemma PrintableIsUnmarked(hunks: seq<Hunk>)
    requires Printable(hunks)
    ensures WholeHunks(hunks) && UnmarkedHunks(hunks)
  {
    hide RenderOp, IsMark, Clean, NewlineLine;
    forall i, k | 0 <= i < |hunks| && 0 <= k < |hunks[i].ops| ensures !IsMark(RenderOp(hunks[i].ops[k])) {
      CleanIsUnmarked(hunks[i].ops[k]);
    }
  }

  lemma {:induction false} OpsLines(ops: seq<Op>)
    requires NewlineOps(ops)
    ensures NewlineLines(RenderOps(ops))
    ensures Unmarked(RenderOps(ops)) <==> UnmarkedOps(ops)
  {
    hide RenderOp, IsMark, NewlineLine;
    if ops != [] {
      OpIsOneLine(ops[0]);
      OpsLines(ops[1..]);
      UnmarkedAppend([RenderOp(ops[0])], RenderOps(ops[1..]));
    }
  }

  lemma RenderedHeaderIsBody(oldPos: nat, m: nat, newPos: nat, n: nat)
    ensures var header := [RenderHeader(oldPos, m, newPos, n)]; NewlineLines(header) && Unmarked(header)
  {
    hide IsMark, NewlineLine;
    RangeIsText(oldPos, m);
    RangeIsText(newPos, n);
    HeaderIsBody(RenderRange(oldPos, m), RenderRange(newPos, n));
  }

  lemma HunksPrinted(hunks: seq<Hunk>, from: nat, newFrom: nat)
    requires hunks != [] && WholeHunks(hunks)
    ensures var h, rest := hunks[0], hunks[1..];
      var m, n := |OldSide(h.ops)|, |NewSide(h.ops)|;
      && NewlineOps(h.ops) && WholeHunks(rest)
      && (UnmarkedHunks(hunks) <==> UnmarkedOps(h.ops) && UnmarkedHunks(rest))
      && RenderHunks(hunks, from, newFrom) ==
         [RenderHeader(from + h.gap, m, newFrom + h.gap, n)] + RenderOps(h.ops)
         + RenderHunks(rest, from + h.gap + m, newFrom + h.gap + n)
  {
    hide RenderHeader, RenderOps, OldSide, NewSide, NewlineOps, UnmarkedOps;
  }

  lemma UnmarkedAppend(a: seq<string>, b: seq<string>)
    ensures Unmarked(a + b) <==> Unmarked(a) && Unmarked(b)
  {
    hide IsMark;
    var both := a + b;
    if Unmarked(both) {
      forall i | 0 <= i < |a| ensures !IsMark(a[i]) {
        assert both[i] == a[i];
      }
      forall i | 0 <= i < |b| ensures !IsMark(b[i]) {
        assert both[|a| + i] == b[i];
      }
    }
  }

  /** The printed hunks hold a file marker exactly when some operation prints as one. */
  lemma {:induction false} HunksLines(hunks: seq<Hunk>, from: nat, newFrom: nat)
    requires WholeHunks(hunks)
    ensures NewlineLines(RenderHunks(hunks, from, newFrom))
    ensures Unmarked(RenderHunks(hunks, from, newFrom)) <==> UnmarkedHunks(hunks)
  {
    hide WholeHunks, RenderHeader, RenderOps, OldSide, NewSide, NewlineOps, UnmarkedOps, IsMark, NewlineLine;
    if hunks != [] {
      var h, rest := hunks[0], hunks[1..];
      var m, n := |OldSide(h.ops)|, |NewSide(h.ops)|;
      var header := [RenderHeader(from + h.gap, m, newFrom + h.gap, n)];
      var tail := RenderHunks(rest, from + h.gap + m, newFrom + h.gap + n);
      HunksPrinted(hunks, from, newFrom);
      RenderedHeaderIsBody(from + h.gap, m, newFrom + h.gap, n);
      OpsLines(h.ops);
      HunksLines(rest, from + h.gap + m, newFrom + h.gap + n);
      hide *;
      UnmarkedAppend(header, RenderOps(h.ops));
      UnmarkedAppend(header + RenderOps(h.ops), tail);
      NewlineAppend(header, RenderOps(h.ops));
      NewlineAppend(header + RenderOps(h.ops), tail);
    }
  }

  lemma {:induction false} SplitFoldAppend(a: seq<string>, b: seq<string>, st: Splitter)
    ensures SplitFold(a + b, st) == SplitFold(b, SplitFold(a, st))
  {
    if a == [] {
      assert a + b == b;
    } else {
      assert (a + b)[1..] == a[1..] + b;
      SplitFoldAppend(a[1..], b, SplitStep(a[0], st));
    }
  }

  lemma {:induction false} SplitFoldBody(lines: seq<string>, st: Splitter)
    requires Unmarked(lines)
    ensures SplitFold(lines, st) == st.(lines := st.lines + lines)
  {
    if lines == [] {
      assert st.lines + [] == st.lines;
    } else {
      SplitFoldBody(lines[1..], SplitStep(lines[0], st));
      assert st.lines + [lines[0]] + lines[1..] == st.lines + lines;
    }
  }

  lemma SplitFoldPair(a: string, b: string, st: Splitter)
    ensures SplitFold([a, b], st) == SplitStep(b, SplitStep(a, st))
  {
    var one: seq<string> := [b];
    assert [a, b][1..] == one && one[1..] == [];
    assert SplitFold(one, SplitStep(a, st)) == SplitStep(b, SplitStep(a, st));
  }

  lemma NameLineIsMarker(c: char, prefix: char, name: string)
    requires c == '-' || c == '+'
    ensures IsMarker(NameLine(c, prefix, name), c) && (c == '+' ==> !IsMarker(NameLine(c, prefix, name), '-'))
  {
    var line := NameLine(c, prefix, name);
    assert line[0] == line[1] == line[2] == c && line[3] == ' ';
  }

  /** The two name lines close the file before them and open one, under the new name. */
  lemma SplitNameLines(old_: string, name: string, st: Splitter)
    requires PlainName(old_) && PlainName(name) && (st.current.None? ==> st.lines == [])
    ensures SplitFold([NameLine('-', 'a', old_), NameLine('+', 'b', name)], st) == Splitter(Closed(st), Some(name), [])
  {
    hide HeaderName, NameLine, PlainName, SplitFold, Starts;
    var a, b := NameLine('-', 'a', old_), NameLine('+', 'b', name);
    NameLineRoundTrip('-', 'a', old_);
    NameLineRoundTrip('+', 'b', name);
    NameLineIsMarker('-', 'a', old_);
    NameLineIsMarker('+', 'b', name);
    var mid := SplitStep(a, st);
    assert mid == Splitter(Closed(st), Some(old_), []);
    assert SplitStep(b, mid) == mid.(current := Some(name));
    SplitFoldPair(a, b, st);
  }

  lemma FileLines(d: FileDiff)
    requires WholeFile(d)
    ensures NewlineLines(RenderFile(d))
    ensures Unmarked(RenderHunks(d.hunks, 0, 0)) <==> UnmarkedHunks(d.hunks)
  {
    hide WholeHunks, RenderHunks, UnmarkedHunks, Unmarked, NameLine, PlainName;
    var names := [NameLine('-', 'a', d.name), NameLine('+', 'b', d.name)];
    HunksLines(d.hunks, 0, 0);
    NameLineIsOneLine('-', 'a', d.name);
    NameLineIsOneLine('+', 'b', d.name);
    NewlineAppend(names, RenderHunks(d.hunks, 0, 0));
  }

  lemma SplitOneFile(d: FileDiff, st: Splitter)
    requires WholeFile(d) && Unmarked(RenderHunks(d.hunks, 0, 0)) && (st.current.None? ==> st.lines == [])
    ensures SplitFold(RenderFile(d), st) == Splitter(Closed(st), Some(d.name), RenderHunks(d.hunks, 0, 0))
  {
    hide SplitFold, RenderHunks, NameLine, PlainName, WholeHunks, Unmarked;
    var names := [NameLine('-', 'a', d.name), NameLine('+', 'b', d.name)];
    var body := RenderHunks(d.hunks, 0, 0);
    SplitFoldAppend(names, body, st);
    SplitNameLines(d.name, d.name, st);
    SplitFoldBody(body, Splitter(Closed(st), Some(d.name), []));
    assert [] + body == body;
  }

  lemma FilesStep(diffs: seq<FileDiff>)
    requires diffs != []
    ensures RenderFiles(diffs) == RenderFile(diffs[0]) + RenderFiles(diffs[1..])
    ensures BlocksOf(diffs) == [BlockOf(diffs[0])] + BlocksOf(diffs[1..])
  {
  }

  lemma {:induction false} FilesLines(diffs: seq<FileDiff>)
    requires forall i :: 0 <= i < |diffs| ==> WholeFile(diffs[i])
    ensures NewlineLines(RenderFiles(diffs))
  {
    hide WholeFile, RenderFile, NewlineLine;
    if diffs != [] {
      FileLines(diffs[0]);
      FilesLines(diffs[1..]);
      NewlineAppend(RenderFile(diffs[0]), RenderFiles(diffs[1..]));
    }
  }

  lemma {:induction false} SplitAllFiles(diffs: seq<FileDiff>, st: Splitter)
    requires forall i :: 0 <= i < |diffs| ==> WholeFile(diffs[i]) && Unmarked(RenderHunks(diffs[i].hunks, 0, 0))
    requires st.current.None? ==> st.lines == []
    ensures Closed(SplitFold(RenderFiles(diffs), st)) == Closed(st) + BlocksOf(diffs)
  {
    hide SplitFold, RenderFile, RenderFiles, WholeFile, Unmarked, BlocksOf, RenderHunks;
    if diffs == [] {
      NoFiles(st);
      return;
    }
    var d, rest := diffs[0], diffs[1..];
    FilesStep(diffs);
    SplitOneFile(d, st);
    var next := Splitter(Closed(st), Some(d.name), RenderHunks(d.hunks, 0, 0));
    SplitFoldAppend(RenderFile(d), RenderFiles(rest), st);
    SplitAllFiles(rest, next);
    ConcatAssociative(Closed(st), [BlockOf(d)], BlocksOf(rest));
  }

  lemma NoFiles(st: Splitter)
    ensures Closed(SplitFold(RenderFiles([]), st)) == Closed(st) + BlocksOf([])
  {
    assert Closed(st) + [] == Closed(st);
  }

  // ---- counting the lines that survive

  /** How many lines are no marker. */
  function PlainLines(lines: seq<string>): (n: nat)
    ensures n <= |lines| && (n == |lines| <==> Unmarked(lines))
  {
    if lines == [] then 0
    else
      assert Unmarked(lines) <==> !IsMark(lines[0]) && Unmarked(lines[1..]) by { UnmarkedFirst(lines); }
      (if IsMark(lines[0]) then 0 else 1) + PlainLines(lines[1..])
  }

  lemma UnmarkedFirst(lines: seq<string>)
    requires lines != []
    ensures Unmarked(lines) <==> !IsMark(lines[0]) && Unmarked(lines[1..])
  {
    hide IsMark;
    var one := [lines[0]];
    assert lines == one + lines[1..];
    UnmarkedAppend(one, lines[1..]);
  }

  function LinesIn(blocks: seq<Block>): (n: nat) {
    if blocks == [] then 0 else LinesIn(blocks[..|blocks| - 1]) + |blocks[|blocks| - 1].lines|
  }

  lemma LinesInSnoc(blocks: seq<Block>, b: Block)
    ensures LinesIn(blocks + [b]) == LinesIn(blocks) + |b.lines|
  {
    assert (blocks + [b])[..|blocks|] == blocks;
  }

  lemma {:induction false} LinesInAppend(a: seq<Block>, b: seq<Block>)
    ensures LinesIn(a + b) == LinesIn(a) + LinesIn(b)
  {
    if b == [] {
      assert a + b == a;
    } else {
      var front, last := b[..|b| - 1], b[|b| - 1];
      assert a + b == (a + front) + [last] && b == front + [last];
      LinesInAppend(a, front);
      LinesInSnoc(a + front, last);
      LinesInSnoc(front, last);
    }
  }

  lemma StepKeepsLines(line: string, st: Splitter)
    requires st.current.Some? || (st.lines == [] && IsMark(line))
    ensures var next := SplitStep(line, st);
      next.current.Some? && LinesIn(Closed(next)) == LinesIn(Closed(st)) + if IsMark(line) then 0 else 1
  {
    hide HeaderName;
    var next := SplitStep(line, st);
    LinesInSnoc(next.files, Block(next.current.value, next.lines));
    if st.current.Some? {
      LinesInSnoc(st.files, Block(st.current.value, st.lines));
    }
  }

  /** Splitting keeps every line that is no marker, once inside a file, and no other. */
  lemma {:induction false} SplitKeepsLines(lines: seq<string>, st: Splitter)
    requires st.current.Some? || (st.lines == [] && lines != [] && IsMark(lines[0]))
    ensures LinesIn(Closed(SplitFold(lines, st))) == LinesIn(Closed(st)) + PlainLines(lines)
  {
    hide LinesIn, SplitStep, IsMark, Closed;
    if lines != [] {
      StepKeepsLines(lines[0], st);
      SplitKeepsLines(lines[1..], SplitStep(lines[0], st));
    }
  }

  lemma {:induction false} PlainAppend(a: seq<string>, b: seq<string>)
    ensures PlainLines(a + b) == PlainLines(a) + PlainLines(b)
  {
    hide IsMark;
    if a == [] {
      assert a + b == b;
    } else {
      assert (a + b)[1..] == a[1..] + b;
      PlainAppend(a[1..], b);
    }
  }

  lemma FilePlainLines(d: FileDiff)
    ensures PlainLines(RenderFile(d)) == PlainLines(RenderHunks(d.hunks, 0, 0))
    ensures RenderFile(d) != [] && IsMark(RenderFile(d)[0])
  {
    hide RenderHunks, NameLine, IsMarker;
    var a, b := NameLine('-', 'a', d.name), NameLine('+', 'b', d.name);
    NameLineIsMarker('-', 'a', d.name);
    NameLineIsMarker('+', 'b', d.name);
    PlainAppend([a, b], RenderHunks(d.hunks, 0, 0));
    assert [a, b][1..] == [b] && [b][1..] == [];
  }

  /** Counting lines, the split can only be right when no file's hunks hold a marker. */
  lemma {:induction false} MarkersLoseLines(diffs: seq<FileDiff>)
    ensures PlainLines(RenderFiles(diffs)) <= LinesIn(BlocksOf(diffs))
    ensures PlainLines(RenderFiles(diffs)) == LinesIn(BlocksOf(diffs))
            <==> forall i :: 0 <= i < |diffs| ==> Unmarked(RenderHunks(diffs[i].hunks, 0, 0))
  {
    hide LinesIn, RenderFile, Unmarked, RenderHunks;
    if diffs == [] {
      NoLines();
    } else {
      var d, rest := diffs[0], diffs[1..];
      FilesStep(diffs);
      MarkersLoseLines(rest);
      FilePlainLines(d);
      PlainAppend(RenderFile(d), RenderFiles(rest));
      LinesInOne(BlockOf(d), BlocksOf(rest));
      assert forall i :: 0 <= i < |rest| ==> rest[i] == diffs[i + 1];
    }
  }

  lemma NoLines()
    ensures LinesIn([]) == 0
  {
  }

  lemma LinesInOne(b: Block, rest: seq<Block>)
    ensures LinesIn([b] + rest) == |b.lines| + LinesIn(rest)
  {
    assert [] + [b] == [b];
    LinesInSnoc([], b);
    LinesInAppend([b], rest);
  }

  /** Splitting the concatenation of printed file diffs gives back the same files and hunk lines,
      if and only if no operation prints as a file marker. */
  lemma SplitRoundTrip(diffs: seq<FileDiff>)
    requires forall i :: 0 <= i < |diffs| ==> WholeFile(diffs[i])
    ensures Closed(SplitFold(SplitLines(Join(RenderFiles(diffs))), EMPTY_SPLITTER)) == BlocksOf(diffs)
            <==> forall i :: 0 <= i < |diffs| ==> UnmarkedHunks(diffs[i].hunks)
  {
    hide WholeFile, Unmarked, UnmarkedHunks, RenderHunks, RenderFile, SplitLines, Join, NewlineLines, SplitFold,
         LinesIn, PlainLines, Closed, BlocksOf;
    var lines := RenderFiles(diffs);
    FilesLines(diffs);
    NewlineLinesAreSplit(lines);
    SplitLinesJoin(lines);
    forall i | 0 <= i < |diffs| ensures Unmarked(RenderHunks(diffs[i].hunks, 0, 0)) <==> UnmarkedHunks(diffs[i].hunks) {
      FileLines(diffs[i]);
    }
    NothingSplit();
    if diffs == [] {
      SplitAllFiles(diffs, EMPTY_SPLITTER);
    } else {
      FilesStep(diffs);
      FilePlainLines(diffs[0]);
      SplitKeepsLines(lines, EMPTY_SPLITTER);
      MarkersLoseLines(diffs);
      if forall i :: 0 <= i < |diffs| ==> Unmarked(RenderHunks(diffs[i].hunks, 0, 0)) {
        SplitAllFiles(diffs, EMPTY_SPLITTER);
      }
    }
    assert [] + BlocksOf(diffs) == BlocksOf(diffs);
  }

  lemma NothingSplit()
    ensures Closed(EMPTY_SPLITTER) == [] && LinesIn([]) == 0
  {
  }

  // ------------------------------------------------------- patching the files

  datatype BlockEnd = Patched | Reported | Propagated

  /** One turn of the file loop: a refused read or a malformed header is reported and
      stops the loop; anything else that fails propagates to the caller. */
  function PatchBlock(disk: Disk, b: Block): (r: (Disk, BlockEnd)) {
    match ReadFile(disk, b.name)
    case None => (disk, if ReadRaises(disk, b.name) then Propagated else Reported)
    case Some(current) =>
      match Applied(current, b.lines)
      case Err(MalformedHeader(_)) => (disk, Reported)
      case Err(IndexOutOfRange) => (disk, Propagated)
      case Ok(updated) =>
        var (next, stored) := WriteFile(disk, b.name, updated);
        (next, if stored then Patched else Propagated)
  }

  /** The whole loop: the disk it leaves, how many files were patched, and how it ended
      (Patched when every block was). */
  function PatchBlocks(disk: Disk, blocks: seq<Block>): (r: (Disk, nat, BlockEnd))
    ensures r.1 <= |blocks| && (r.2 == Patched <==> r.1 == |blocks|)
    decreases |blocks|
  {
    if blocks == [] then (disk, 0, Patched)
    else
      var (next, end) := PatchBlock(disk, blocks[0]);
      if end != Patched then (next, 0, end)
      else
        var (last, n, how) := PatchBlocks(next, blocks[1..]);
        (last, n + 1, how)
  }

  datatype DiffResult = Noop | Success(patched: seq<string>, failed: Option<string>) | Raised

  /** The names of the first n blocks. */
  function Names(blocks: seq<Block>, n: nat): (r: seq<string>)
    requires n <= |blocks|
  {
    if n == 0 then [] else Names(blocks, n - 1) + [blocks[n - 1].name]
  }

  /** The result the caller sees: "success" also when a block was reported as failed. */
  function ResultOf(blocks: seq<Block>, n: nat, end: BlockEnd): DiffResult
    requires n <= |blocks| && (end == Patched <==> n == |blocks|)
  {
    if blocks == [] then Noop
    else if end == Propagated then Raised
    else Success(Names(blocks, n), if end == Reported then Some(blocks[n].name) else None)
  }

  method PatchFile(b: Block, fs: ScopedFileSystem) returns (end: BlockEnd)
    modifies fs
    ensures (fs.disk, end) == PatchBlock(old(fs.disk), b)
  {
    var current, raised := fs.Read(b.name);
    if current.None? {
      return if raised then Propagated else Reported;
    }
    var updated := ApplyHunksToText(current.value, b.lines);
    if updated.Err? {
      return if updated.error.MalformedHeader? then Reported else Propagated;
    }
    var stored := fs.Write(b.name, updated.value);
    end := if stored then Patched else Propagated;
  }

  lemma PatchBlocksStep(disk: Disk, blocks: seq<Block>, i: nat)
    requires i < |blocks|
    ensures var (next, end) := PatchBlock(disk, blocks[i]);
      PatchBlocks(disk, blocks[i..]) ==
      if end != Patched then (next, 0, end)
      else var (last, n, how) := PatchBlocks(next, blocks[i + 1..]); (last, n + 1, how)
  {
    assert blocks[i..][1..] == blocks[i + 1..];
  }

  method ApplyUnifiedDiff(diffText: string, fs: ScopedFileSystem) returns (result: DiffResult)
    modifies fs
    ensures var blocks := Closed(SplitFold(SplitLines(diffText), EMPTY_SPLITTER));
      var run := PatchBlocks(old(fs.disk), blocks);
      fs.disk == run.0 && result == ResultOf(blocks, run.1, run.2) && (result.Noop? <==> blocks == [])
  {
    hide PatchBlock, SplitFold, SplitLines;
    var blocks := SplitDiffFiles(diffText);
    if blocks == [] {
      return Noop;
    }
    var summary: seq<string> := [];
    ghost var run := PatchBlocks(fs.disk, blocks);
    for i := 0 to |blocks|
      invariant summary == Names(blocks, i)
      invariant var rest := PatchBlocks(fs.disk, blocks[i..]); run == (rest.0, rest.1 + i, rest.2)
    {
      PatchBlocksStep(fs.disk, blocks, i);
      var end := PatchFile(blocks[i], fs);
      if end == Reported {
        return Success(summary, Some(blocks[i].name));
      } else if end == Propagated {
        return Raised;
      }
      summary := summary + [blocks[i].name];
    }
    result := Success(summary, None);
  }

  /** The disk that block k finds. */
  function DiskBefore(disk: Disk, blocks: seq<Block>, k: nat): (r: Disk)
    requires k <= |blocks|
  {
    if k == 0 then disk else PatchBlock(DiskBefore(disk, blocks, k - 1), blocks[k - 1]).0
  }

  /** The file can be read, every header of its hunks parses, and the write is stored. */
  predicate GoesThrough(disk: Disk, b: Block) {
    var text := ReadFile(disk, b.name);
    text.Some? && Applied(text.value, b.lines).Ok? && Stores(disk, 0)
  }

  /** The read is refused (a missing file or one too large), or a hunk header is malformed. */
  predicate Refuses(disk: Disk, b: Block) {
    var text := ReadFile(disk, b.name);
    if text.None? then !ReadRaises(disk, b.name)
    else Applied(text.value, b.lines).Err? && Applied(text.value, b.lines).error.MalformedHeader?
  }

  lemma BlockOutcome(disk: Disk, b: Block)
    ensures PatchBlock(disk, b).1 == Patched <==> GoesThrough(disk, b)
    ensures PatchBlock(disk, b).1 == Reported <==> Refuses(disk, b)
  {
    hide Applied, ReadFile, ReadRaises;
  }

  lemma {:induction false} MalformedLine(src: seq<string>, lines: seq<string>, c: Cursor)
    requires RunLines(src, lines, c).Err? && RunLines(src, lines, c).error.MalformedHeader?
    ensures exists l :: l in lines && Starts(l, '@', 2) && HeaderStart(l) == None
  {
    hide HeaderStart, Starts, Slice;
    match StepLine(src, lines[0], c) {
      case Err(_) =>
        assert lines[0] in lines;
      case Ok(next) =>
        MalformedLine(src, lines[1..], next);
    }
  }

  /** A refusal of a readable file names a header line that does not parse. */
  lemma RefusalHasCause(disk: Disk, b: Block)
    requires Refuses(disk, b) && ReadFile(disk, b.name).Some?
    ensures exists l :: l in b.lines && Starts(l, '@', 2) && HeaderStart(l) == None
  {
    hide HeaderStart, Starts, RunLines, ReadFile, SplitLines;
    MalformedLine(SplitLines(ReadFile(disk, b.name).value), b.lines, Cursor([], 0));
  }

  lemma {:induction false} DiskAfterFirst(disk: Disk, blocks: seq<Block>, k: nat)
    requires k < |blocks|
    ensures DiskBefore(disk, blocks, k + 1) == DiskBefore(PatchBlock(disk, blocks[0]).0, blocks[1..], k)
  {
    hide PatchBlock;
    if k > 0 {
      DiskAfterFirst(disk, blocks, k - 1);
    } else {
      assert DiskBefore(disk, blocks, 0) == disk;
    }
  }

  /** Block k is the first that does not go through. */
  predicate FirstStuck(disk: Disk, blocks: seq<Block>, k: nat)
    requires k < |blocks|
  {
    && !GoesThrough(DiskBefore(disk, blocks, k), blocks[k])
    && forall j: nat :: j < k ==> GoesThrough(DiskBefore(disk, blocks, j), blocks[j])
  }

  /** The loop counts the blocks that go through, up to the first that does not. */
  lemma {:induction false} LoopStopsFirst(disk: Disk, blocks: seq<Block>)
    ensures var (_, n, how) := PatchBlocks(disk, blocks);
      && (forall j: nat :: j < n ==> GoesThrough(DiskBefore(disk, blocks, j), blocks[j]))
      && (n < |blocks| ==> FirstStuck(disk, blocks, n)
                           && (how == Reported <==> Refuses(DiskBefore(disk, blocks, n), blocks[n])))
    decreases |blocks|
  {
    hide PatchBlock, GoesThrough, Refuses;
    if blocks != [] {
      var (next, end) := PatchBlock(disk, blocks[0]);
      var rest := blocks[1..];
      BlockOutcome(disk, blocks[0]);
      LoopStopsFirst(next, rest);
      var n := PatchBlocks(disk, blocks).1;
      assert DiskBefore(disk, blocks, 0) == disk;
      forall j: nat | j < |rest|
        ensures DiskBefore(disk, blocks, j + 1) == DiskBefore(next, rest, j) && blocks[j + 1] == rest[j]
      {
        DiskAfterFirst(disk, blocks, j);
      }
      forall j: nat | j < n ensures GoesThrough(DiskBefore(disk, blocks, j), blocks[j]) {
        if j > 0 {
          assert GoesThrough(DiskBefore(next, rest, j - 1), rest[j - 1]);
        }
      }
      if 0 < n < |blocks| {
        assert FirstStuck(next, rest, n - 1);
      }
    }
  }

  lemma {:induction false} NamesOf(blocks: seq<Block>, n: nat)
    requires n <= |blocks|
    ensures |Names(blocks, n)| == n && forall i :: 0 <= i < n ==> Names(blocks, n)[i] == blocks[i].name
  {
    if n > 0 {
      NamesOf(blocks, n - 1);
    }
  }

  /** "success" does not say that the files were patched. It names no failed file exactly when every
      block went through; and it names one exactly when the first block that did not was refused
      (its read, or a header), which is then the file it names, after exactly the files before it. */
  lemma SuccessIsWhole(disk: Disk, blocks: seq<Block>)
    requires blocks != []
    ensures var run := PatchBlocks(disk, blocks);
      var r := ResultOf(blocks, run.1, run.2);
      && (r.Success? && r.failed == None
          <==> forall k: nat :: k < |blocks| ==> GoesThrough(DiskBefore(disk, blocks, k), blocks[k]))
      && (forall k: nat :: k < |blocks| && FirstStuck(disk, blocks, k) ==>
            (r.Success? <==> Refuses(DiskBefore(disk, blocks, k), blocks[k]))
            && (r.Success? ==> r.failed == Some(blocks[k].name) && |r.patched| == k))
      && (r.Success? && r.failed == None ==> |r.patched| == |blocks|)
      && (r.Success? ==> forall i :: 0 <= i < |r.patched| ==> i < |blocks| && r.patched[i] == blocks[i].name)
      && (!r.Success? ==> r == Raised)
  {
    hide PatchBlocks, GoesThrough, Names, DiskBefore, Refuses;
    LoopStopsFirst(disk, blocks);
    var n := PatchBlocks(disk, blocks).1;
    NamesOf(blocks, n);
    forall k: nat | k < |blocks| && FirstStuck(disk, blocks, k) ensures k == n {
      if n < |blocks| {
        OneFirstStuck(disk, blocks, k, n);
      } else {
        StuckDoesNotGo(disk, blocks, k);
      }
    }
  }

  lemma OneFirstStuck(disk: Disk, blocks: seq<Block>, j: nat, k: nat)
    requires j < |blocks| && k < |blocks| && FirstStuck(disk, blocks, j) && FirstStuck(disk, blocks, k)
    ensures j == k
  {
    hide GoesThrough, DiskBefore;
  }

  lemma StuckDoesNotGo(disk: Disk, blocks: seq<Block>, k: nat)
    requires k < |blocks| && FirstStuck(disk, blocks, k)
    ensures !GoesThrough(DiskBefore(disk, blocks, k), blocks[k])
  {
    hide GoesThrough, DiskBefore;
  }

  predicate DistinctNames(blocks: seq<Block>) {
    forall i, j :: 0 <= i < j < |blocks| ==> blocks[i].name != blocks[j].name
  }

  lemma PatchBlockLocal(disk: Disk, b: Block, path: string)
    requires path != b.name
    ensures Lookup(PatchBlock(disk, b).0, path) == Lookup(disk, path)
    ensures ReadFile(PatchBlock(disk, b).0, path) == ReadFile(disk, path)
  {
  }

  /** Paths no block names are never touched. */
  lemma {:induction false} OtherPathsUntouched(disk: Disk, blocks: seq<Block>, path: string)
    requires forall i :: 0 <= i < |blocks| ==> blocks[i].name != path
    ensures Lookup(PatchBlocks(disk, blocks).0, path) == Lookup(disk, path)
    decreases |blocks|
  {
    if blocks != [] {
      PatchBlockLocal(disk, blocks[0], path);
      OtherPathsUntouched(PatchBlock(disk, blocks[0]).0, blocks[1..], path);
    }
  }

  /** Whatever fails, the files before the failing one are patched whole and those after
      it are untouched; a block that was only reported leaves its own file untouched too. */
  lemma {:induction false} PatchesAPrefix(disk: Disk, blocks: seq<Block>, k: nat)
    requires DistinctNames(blocks) && k < |blocks|
    ensures var (last, n, end) := PatchBlocks(disk, blocks);
      var path := blocks[k].name;
      && (k < n ==> ReadFile(disk, path).Some? && Applied(ReadFile(disk, path).value, blocks[k].lines).Ok?
                    && Lookup(last, path) == Some(Text(Applied(ReadFile(disk, path).value, blocks[k].lines).value)))
      && (k > n || (k == n && end == Reported) ==> Lookup(last, path) == Lookup(disk, path))
    decreases |blocks|
  {
    hide Applied, WriteFile;
    var b, rest := blocks[0], blocks[1..];
    var (next, end) := PatchBlock(disk, b);
    if k == 0 {
      if end == Patched {
        OtherPathsUntouched(next, rest, b.name);
      }
    } else {
      PatchBlockLocal(disk, b, blocks[k].name);
      if end == Patched {
        assert rest[k - 1] == blocks[k];
        PatchesAPrefix(next, rest, k - 1);
      }
    }
  }

  /** The file is readable and every hunk matches it. */
  predicate Fits(disk: Disk, d: FileDiff) {
    && Applicable(d.hunks)
    && ReadFile(disk, d.name).Some?
    && Matches(SplitLines(ReadFile(disk, d.name).value), d.hunks, 0)
  }

  function TargetText(disk: Disk, d: FileDiff): string
    requires Fits(disk, d)
  {
    Join(Target(SplitLines(ReadFile(disk, d.name).value), d.hunks, 0))
  }

  lemma PatchFittingBlock(disk: Disk, d: FileDiff)
    requires disk.script == [] && Fits(disk, d)
    ensures PatchBlock(disk, BlockOf(d)) == (Disk(disk.files[d.name := Text(TargetText(disk, d))], []), Patched)
  {
    ApplyIsTarget(ReadFile(disk, d.name).value, d.hunks);
    hide Applied, Target, Matches, RenderHunks, Applicable, SplitLines;
  }

  lemma FitsAfterPatch(disk: Disk, d: FileDiff, next: Disk)
    requires Fits(disk, d) && ReadFile(next, d.name) == ReadFile(disk, d.name)
    ensures Fits(next, d) && TargetText(next, d) == TargetText(disk, d)
  {
  }

  /** A printed diff whose files exist and match patches every file to its target. */
  lemma {:induction false} WholeDiffPatches(disk: Disk, diffs: seq<FileDiff>)
    requires disk.script == []
    requires forall i, j :: 0 <= i < j < |diffs| ==> diffs[i].name != diffs[j].name
    requires forall i :: 0 <= i < |diffs| ==> Fits(disk, diffs[i])
    ensures var run := PatchBlocks(disk, BlocksOf(diffs));
      && run.2 == Patched
      && forall i :: 0 <= i < |diffs| ==>
           Lookup(run.0, diffs[i].name) == Some(Text(TargetText(disk, diffs[i])))
    decreases |diffs|
  {
    hide PatchBlock, Fits, TargetText, RenderHunks, ReadFile;
    if diffs != [] {
      var d, rest := diffs[0], diffs[1..];
      var next := PatchBlock(disk, BlockOf(d)).0;
      PatchFittingBlock(disk, d);
      forall i | 0 <= i < |rest| ensures Fits(next, rest[i]) && TargetText(next, rest[i]) == TargetText(disk, rest[i]) {
        assert rest[i] == diffs[i + 1];
        PatchBlockLocal(disk, BlockOf(d), rest[i].name);
        FitsAfterPatch(disk, rest[i], next);
      }
      WholeDiffPatches(next, rest);
      BlockNames(rest);
      OtherPathsUntouched(next, BlocksOf(rest), d.name);
      FilesStep(diffs);
      assert BlocksOf(diffs)[1..] == BlocksOf(rest);
    }
  }

  lemma {:induction false} BlockNames(diffs: seq<FileDiff>)
    ensures |BlocksOf(diffs)| == |diffs|
    ensures forall i :: 0 <= i < |diffs| ==> BlocksOf(diffs)[i].name == diffs[i].name
  {
    if diffs != [] {
      BlockNames(diffs[1..]);
    }
  }

  /** From the text of a printed diff to the patched disk. */
  lemma DiffTextPatches(disk: Disk, diffs: seq<FileDiff>)
    requires disk.script == []
    requires forall i, j :: 0 <= i < j < |diffs| ==> diffs[i].name != diffs[j].name
    requires forall i :: 0 <= i < |diffs| ==> PrintableFile(diffs[i]) && Fits(disk, diffs[i])
    ensures var run := PatchBlocks(disk, Closed(SplitFold(SplitLines(Join(RenderFiles(diffs))), EMPTY_SPLITTER)));
      && run.2 == Patched
      && forall i :: 0 <= i < |diffs| ==> Lookup(run.0, diffs[i].name) == Some(Text(TargetText(disk, diffs[i])))
  {
    hide *;
    AllPrintable(disk, diffs);
    SplitRoundTrip(diffs);
    WholeDiffPatches(disk, diffs);
  }

  lemma AllPrintable(disk: Disk, diffs: seq<FileDiff>)
    requires forall i :: 0 <= i < |diffs| ==> PrintableFile(diffs[i]) && Fits(disk, diffs[i])
    ensures forall i :: 0 <= i < |diffs| ==> WholeFile(diffs[i]) && UnmarkedHunks(diffs[i].hunks)
  {
    hide PlainName, Fits, Printable, WholeHunks, UnmarkedHunks;
    forall i | 0 <= i < |diffs| ensures WholeFile(diffs[i]) && UnmarkedHunks(diffs[i].hunks) {
      PrintableIsUnmarked(diffs[i].hunks);
    }
  }
}
