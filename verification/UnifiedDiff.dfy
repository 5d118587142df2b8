/**
 The unified-diff applier for one text: the cursor that rebuilds it from `@@` hunks.
 Correctness is stated against abstract hunks: the diff text they print to is run
 through the applier and must give the text in which every hunk's old lines are
 replaced by its new ones.
 */
module UnifiedDiff {
  import opened Common
  import opened PyStrings
  import opened TextLines

  // ---------------------------------------------------------------- the code

  datatype DiffError = MalformedHeader(line: string) | IndexOutOfRange

  datatype Cursor = Cursor(out: seq<string>, idx: int)

  /** The first place of "@@" in s from i on, or |s|. */
  function FindAts(s: string, i: nat): (p: nat)
    requires i <= |s|
    ensures i <= p <= |s| && (p < |s| ==> p + 1 < |s| && s[p] == s[p + 1] == '@')
    ensures forall k :: i <= k < p && k + 1 < |s| ==> !(s[k] == s[k + 1] == '@')
    decreases |s| - i
  {
    if i + 1 >= |s| then |s| else if s[i] == s[i + 1] == '@' then i else FindAts(s, i + 1)
  }

  /** The text between the leading "@@" and the next one (or the end). */
  function BeforeAts(s: string): (r: string) {
    s[..FindAts(s, 0)]
  }

  /** The 0-based first old line a hunk header names. */
  function HeaderStart(line: string): (r: Option<int>)
    requires |line| >= 2
  {
    var oldPart := Before(Strip(BeforeAts(line[2..])), ' ');
    match ParseInt(Before(DropDashes(oldPart), ','))
    case None => None
    case Some(v) => Some(v - 1)
  }

  /** line starts with c repeated n times. */
  predicate Starts(line: string, c: char, n: nat) {
    |line| >= n && forall k :: 0 <= k < n ==> line[k] == c
  }

  /** What one hunk line does to the output and the source cursor. */
  function StepLine(src: seq<string>, line: string, c: Cursor): (r: Result<Cursor, DiffError>) {
    if Starts(line, '@', 2) then
      match HeaderStart(line)
      case None => Err(MalformedHeader(line))
      case Some(start) => Ok(Cursor(c.out + Slice(src, c.idx, start), start))
    else if Starts(line, '-', 3) || Starts(line, '+', 3) then Ok(c)
    else if Starts(line, '+', 1) then Ok(c.(out := c.out + [line[1..]]))
    else if Starts(line, '-', 1) then Ok(c.(idx := c.idx + 1))
    else if Starts(line, ' ', 1) then
      if c.idx >= |src| then Ok(c.(idx := c.idx + 1))
      else
        var at := if c.idx < 0 then |src| + c.idx else c.idx;
        if at < 0 then Err(IndexOutOfRange) else Ok(Cursor(c.out + [src[at]], c.idx + 1))
    else Ok(c)
  }

  function RunLines(src: seq<string>, lines: seq<string>, c: Cursor): (r: Result<Cursor, DiffError>) {
    if lines == [] then Ok(c)
    else match StepLine(src, lines[0], c)
         case Err(e) => Err(e)
         case Ok(next) => RunLines(src, lines[1..], next)
  }

  /** The lines that are joined into the patched text. */
  function AppliedLines(src: seq<string>, hunkLines: seq<string>): (r: Result<seq<string>, DiffError>) {
    match RunLines(src, hunkLines, Cursor([], 0))
    case Err(e) => Err(e)
    case Ok(c) => Ok(c.out + SliceFrom(src, c.idx))
  }

  function Applied(original: string, hunkLines: seq<string>): (r: Result<string, DiffError>) {
    match AppliedLines(SplitLines(original), hunkLines)
    case Err(e) => Err(e)
    case Ok(lines) => Ok(Join(lines))
  }

  method ApplyHunksToText(original: string, hunkLines: seq<string>) returns (r: Result<string, DiffError>)
    ensures r == Applied(original, hunkLines)
  {
    var srcLines := SplitLines(original);
    var cursor := Cursor([], 0);
    for i := 0 to |hunkLines|
      invariant RunLines(srcLines, hunkLines[i..], cursor) == RunLines(srcLines, hunkLines, Cursor([], 0))
    {
      assert hunkLines[i..][0] == hunkLines[i] && hunkLines[i..][1..] == hunkLines[i + 1..];
      match StepLine(srcLines, hunkLines[i], cursor) {
        case Err(e) => return Err(e);
        case Ok(next) => cursor := next;
      }
    }
    r := Ok(Join(cursor.out + SliceFrom(srcLines, cursor.idx)));
  }

  // ---------------------------------------------------- abstract hunks, printed

  datatype Op = Context(text: string) | Delete(text: string) | Add(text: string)

  /** A hunk: gap untouched source lines after the previous hunk, then its operations.
      Gaps are never negative, so a list of hunks is ordered and non-overlapping. */
  datatype Hunk = Hunk(gap: nat, ops: seq<Op>)

  function OldSide(ops: seq<Op>): (r: seq<string>) {
    if ops == [] then [] else OldOf(ops[0]) + OldSide(ops[1..])
  }

  function NewSide(ops: seq<Op>): (r: seq<string>) {
    if ops == [] then [] else NewOf(ops[0]) + NewSide(ops[1..])
  }

  function OldOf(op: Op): seq<string> { if op.Add? then [] else [op.text] }

  function NewOf(op: Op): seq<string> { if op.Delete? then [] else [op.text] }

  /** From source line `from` on, each hunk's context and deletions are the lines it covers. */
  predicate Matches(src: seq<string>, hunks: seq<Hunk>, from: nat) {
    if hunks == [] then from <= |src|
    else
      var start := from + hunks[0].gap;
      var end := start + |OldSide(hunks[0].ops)|;
      end <= |src| && src[start..end] == OldSide(hunks[0].ops) && Matches(src, hunks[1..], end)
  }

  /** The intended result from source line `from` on: gaps kept, old sides replaced by new sides. */
  function Target(src: seq<string>, hunks: seq<Hunk>, from: nat): (r: seq<string>)
    requires Matches(src, hunks, from)
  {
    if hunks == [] then src[from..]
    else
      var start := from + hunks[0].gap;
      src[from..start] + NewSide(hunks[0].ops) + Target(src, hunks[1..], start + |OldSide(hunks[0].ops)|)
  }

  function Sign(op: Op): char {
    match op
    case Context(_) => ' '
    case Delete(_) => '-'
    case Add(_) => '+'
  }

  function RenderOp(op: Op): (line: string) { [Sign(op)] + op.text }

  function RenderOps(ops: seq<Op>): (lines: seq<string>) {
    if ops == [] then [] else [RenderOp(ops[0])] + RenderOps(ops[1..])
  }

  /** "start,length" as unified diffs print it: 1-based, except that an empty range names the line before it. */
  function RenderRange(pos: nat, length: nat): string {
    Decimal(if length == 0 then pos else pos + 1) + "," + Decimal(length)
  }

  /** The text "@@ -old +new @@" of two printed ranges. */
  function HeaderText(oldRange: string, newRange: string): string {
    "@@" + (PaddedRanges(oldRange, newRange) + "@@" + "\n")
  }

  function PaddedRanges(oldRange: string, newRange: string): string {
    " " + BothRanges(oldRange, newRange) + " "
  }

  function BothRanges(oldRange: string, newRange: string): string {
    ("-" + oldRange) + [' '] + ("+" + newRange)
  }

  function RenderHeader(oldPos: nat, oldLength: nat, newPos: nat, newLength: nat): string {
    HeaderText(RenderRange(oldPos, oldLength), RenderRange(newPos, newLength))
  }

  /** The hunk lines of a diff; newFrom is where source line `from` ends up in the new text. */
  function RenderHunks(hunks: seq<Hunk>, from: nat, newFrom: nat): (lines: seq<string>) {
    if hunks == [] then []
    else
      var h := hunks[0];
      var m, n := |OldSide(h.ops)|, |NewSide(h.ops)|;
      [RenderHeader(from + h.gap, m, newFrom + h.gap, n)] + RenderOps(h.ops)
      + RenderHunks(hunks[1..], from + h.gap + m, newFrom + h.gap + n)
  }

  /** A printed deletion must not look like "---", nor a printed addition like "+++". */
  predicate Clean(op: Op) {
    op.Context? || !Starts(op.text, Sign(op), 2)
  }

  predicate CleanOps(ops: seq<Op>) {
    forall k :: 0 <= k < |ops| ==> Clean(ops[k])
  }

  /** Every hunk prints clean lines and covers at least one source line. */
  predicate Applicable(hunks: seq<Hunk>) {
    forall i :: 0 <= i < |hunks| ==> CleanOps(hunks[i].ops) && OldSide(hunks[i].ops) != []
  }

  // ------------------------------------------------------- reading a header back

  lemma BeforeAtsClean(a: string, b: string)
    requires '@' !in a
    ensures BeforeAts(a + "@@" + b) == a
  {
    var s := a + "@@" + b;
    assert s[|a|] == '@' && s[|a| + 1] == '@';
    assert forall k :: 0 <= k < |a| ==> s[k] == a[k] && a[k] in a;
    assert FindAts(s, 0) == |a| && s[..|a|] == a;
  }

  lemma TrimPadded(x: string)
    requires x != "" && !IsSpace(x[0]) && !IsSpace(x[|x| - 1])
    ensures Strip(" " + x + " ") == x
  {
    hide IsSpace;
    var s := " " + x + " ";
    SpaceIsSpace();
    assert s[0] == ' ' && s[1] == x[0] && s[|s| - 1] == ' ' && s[|s| - 2] == x[|x| - 1];
    assert LeftEdge(s, 1) == 1 && LeftEdge(s, 0) == 1;
    var t := s[1..];
    assert t[|t| - 1] == ' ' && t[|t| - 2] == x[|x| - 1];
    assert RightEdge(t, |t| - 1) == |t| - 1 && RightEdge(t, |t|) == |t| - 1;
    assert t[..|t| - 1] == x;
  }

  lemma SpaceIsSpace()
    ensures IsSpace(' ')
  {
  }

  /** The characters of a printed range. */
  predicate RangeText(r: string) {
    r != "" && forall k :: 0 <= k < |r| ==> IsDigit(r[k]) || (r[k] == ',' && 0 < k < |r| - 1)
  }

  lemma RangeIsText(pos: nat, length: nat)
    ensures RangeText(RenderRange(pos, length))
  {
    var a, b := Decimal(if length == 0 then pos else pos + 1), Decimal(length);
    var r := RenderRange(pos, length);
    assert r == a + "," + b;
    forall k | 0 <= k < |r| ensures IsDigit(r[k]) || (r[k] == ',' && 0 < k < |r| - 1) {
      if k < |a| {
        assert r[k] == a[k];
      } else if k > |a| {
        assert r[k] == b[k - |a| - 1];
      }
    }
  }

  lemma RangeStart(pos: nat, length: nat)
    ensures ParseInt(Before(DropDashes("-" + RenderRange(pos, length)), ',')) ==
            Some(if length == 0 then pos as int else pos + 1)
  {
    var n := if length == 0 then pos else pos + 1;
    var a := Decimal(n);
    var r := RenderRange(pos, length);
    assert r == a + [','] + Decimal(length);
    assert r[0] == a[0];
    var d := "-" + r;
    assert d[0] == '-' && d[1] == r[0] != '-' && d[1..] == r;
    assert DashEdge(d, 1) == 1 && DropDashes(d) == r;
    BeforeAppend(a, ',', Decimal(length));
    ParseIntDecimal(n);
  }

  lemma HeaderOldPart(a: string, b: string)
    requires RangeText(a) && RangeText(b)
    ensures Before(Strip(BeforeAts(HeaderText(a, b)[2..])), ' ') == "-" + a
  {
    var inner := BothRanges(a, b);
    assert '@' !in inner && ' ' !in "-" + a;
    assert HeaderText(a, b)[2..] == PaddedRanges(a, b) + "@@" + "\n";
    BeforeAtsClean(PaddedRanges(a, b), "\n");
    assert inner[|inner| - 1] == b[|b| - 1];
    TrimPadded(inner);
    BeforeAppend("-" + a, ' ', "+" + b);
  }

  lemma HeaderTextStarts(a: string, b: string)
    ensures Starts(HeaderText(a, b), '@', 2)
  {
  }

  /** A printed header sends the cursor to the hunk's first old line, or one line short of it when the old
      range is empty. */
  lemma HeaderRoundTrip(pos: nat, m: nat, newPos: nat, n: nat)
    ensures Starts(RenderHeader(pos, m, newPos, n), '@', 2)
    ensures HeaderStart(RenderHeader(pos, m, newPos, n)) == Some(if m == 0 then pos - 1 else pos)
  {
    hide RenderRange, HeaderText, RangeText, ParseInt, Strip, BeforeAts;
    var a, b := RenderRange(pos, m), RenderRange(newPos, n);
    RangeIsText(pos, m);
    RangeIsText(newPos, n);
    HeaderOldPart(a, b);
    HeaderTextStarts(a, b);
    RangeStart(pos, m);
  }

  // --------------------------------------------------------------- correctness

  /** The cursor after one operation has been carried out. */
  function Advance(op: Op, c: Cursor): (d: Cursor)
    ensures d.out == c.out + NewOf(op) && d.idx == c.idx + |OldOf(op)|
  {
    Cursor(c.out + NewOf(op), c.idx + |OldOf(op)|)
  }

  /** A printed body line acts as the operation it prints exactly when it is clean. */
  lemma BodyLineActs(src: seq<string>, op: Op, c: Cursor)
    requires op.Context? ==> 0 <= c.idx < |src| && src[c.idx] == op.text
    ensures (StepLine(src, RenderOp(op), c) == Ok(Advance(op, c))) <==> Clean(op)
  {
    var line := RenderOp(op);
    assert line[0] == Sign(op) && line[1..] == op.text;
    assert forall k :: 1 <= k < |line| ==> line[k] == op.text[k - 1];
    assert c.out + [] == c.out;
    if !op.Context? {
      assert Starts(line, Sign(op), 3) <==> Starts(op.text, Sign(op), 2) by {
        if Starts(line, Sign(op), 3) {
          assert line[1] == op.text[0] && line[2] == op.text[1];
        }
      }
      assert Starts(line, Sign(op), 1);
      assert !Starts(line, if op.Add? then '-' else '+', 1);
      assert |c.out + NewOf(op)| == |c.out| + |NewOf(op)|;
    }
  }

  lemma {:induction false} RunLinesAppend(src: seq<string>, a: seq<string>, b: seq<string>, c: Cursor)
    ensures RunLines(src, a + b, c) ==
            match RunLines(src, a, c) case Err(e) => Err(e) case Ok(d) => RunLines(src, b, d)
  {
    if a == [] {
      assert a + b == b;
    } else {
      assert (a + b)[1..] == a[1..] + b;
      match StepLine(src, a[0], c) {
        case Err(_) =>
        case Ok(next) => RunLinesAppend(src, a[1..], b, next);
      }
    }
  }

  lemma RunLinesCons(src: seq<string>, line: string, rest: seq<string>, c: Cursor, d: Cursor)
    requires StepLine(src, line, c) == Ok(d)
    ensures RunLines(src, [line] + rest, c) == RunLines(src, rest, d)
  {
    assert ([line] + rest)[1..] == rest;
  }

  lemma OpsStep(ops: seq<Op>)
    requires ops != [] && CleanOps(ops)
    ensures RenderOps(ops) == [RenderOp(ops[0])] + RenderOps(ops[1..])
    ensures OldSide(ops) == OldOf(ops[0]) + OldSide(ops[1..])
    ensures NewSide(ops) == NewOf(ops[0]) + NewSide(ops[1..])
    ensures Clean(ops[0]) && CleanOps(ops[1..])
    ensures ops[0].Context? ==> OldOf(ops[0]) == [ops[0].text]
  {
  }

  lemma RunNoOps(src: seq<string>, c: Cursor)
    ensures RunLines(src, RenderOps([]), c) == Ok(Cursor(c.out + NewSide([]), c.idx + |OldSide([])|))
  {
    assert c.out + [] == c.out;
  }

  lemma RunOpsStep(src: seq<string>, ops: seq<Op>, c: Cursor)
    requires ops != [] && CleanOps(ops)
    requires 0 <= c.idx && c.idx + |OldSide(ops)| <= |src|
    requires src[c.idx..c.idx + |OldSide(ops)|] == OldSide(ops)
    ensures RunLines(src, RenderOps(ops), c) == RunLines(src, RenderOps(ops[1..]), Advance(ops[0], c))
    ensures var d, rest := Advance(ops[0], c), ops[1..];
      && d.out + NewSide(rest) == c.out + NewSide(ops)
      && d.idx + |OldSide(rest)| == c.idx + |OldSide(ops)|
      && c.idx <= d.idx && src[d.idx..d.idx + |OldSide(rest)|] == OldSide(rest)
      && CleanOps(rest)
  {
    hide *;
    OpsStep(ops);
    var op, rest := ops[0], ops[1..];
    CoverStep(src, c.idx, OldOf(op), OldSide(rest));
    BodyLineActs(src, op, c);
    RunLinesCons(src, RenderOp(op), RenderOps(rest), c, Advance(op, c));
    ConcatAssociative(c.out, NewOf(op), NewSide(rest));
  }

  lemma {:induction false} RunOps(src: seq<string>, ops: seq<Op>, c: Cursor)
    requires 0 <= c.idx && c.idx + |OldSide(ops)| <= |src|
    requires src[c.idx..c.idx + |OldSide(ops)|] == OldSide(ops)
    requires CleanOps(ops)
    ensures RunLines(src, RenderOps(ops), c) == Ok(Cursor(c.out + NewSide(ops), c.idx + |OldSide(ops)|))
  {
    hide *;
    if ops == [] {
      RunNoOps(src, c);
    } else {
      RunOpsStep(src, ops, c);
      RunOps(src, ops[1..], Advance(ops[0], c));
    }
  }

  lemma HeaderActs(src: seq<string>, header: string, start: nat, c: Cursor)
    requires Starts(header, '@', 2) && HeaderStart(header) == Some(start as int)
    requires 0 <= c.idx <= start <= |src|
    ensures StepLine(src, header, c) == Ok(Cursor(c.out + src[c.idx..start], start))
  {
  }

  lemma RunHunk(src: seq<string>, ops: seq<Op>, start: nat, header: string, c: Cursor)
    requires Starts(header, '@', 2) && HeaderStart(header) == Some(start as int)
    requires 0 <= c.idx <= start && start + |OldSide(ops)| <= |src|
    requires src[start..start + |OldSide(ops)|] == OldSide(ops)
    requires CleanOps(ops)
    ensures RunLines(src, [header] + RenderOps(ops), c) ==
            Ok(Cursor(c.out + src[c.idx..start] + NewSide(ops), start + |OldSide(ops)|))
  {
    hide *;
    var d := Cursor(c.out + src[c.idx..start], start);
    HeaderActs(src, header, start, c);
    RunLinesCons(src, header, RenderOps(ops), c, d);
    RunOps(src, ops, d);
  }

  lemma HunksStep(src: seq<string>, hunks: seq<Hunk>, from: nat, newFrom: nat)
    requires hunks != [] && Matches(src, hunks, from)
    ensures var h, rest := hunks[0], hunks[1..];
      var start, m, n := from + h.gap, |OldSide(h.ops)|, |NewSide(h.ops)|;
      && start + m <= |src| && src[start..start + m] == OldSide(h.ops)
      && Matches(src, rest, start + m)
      && Target(src, hunks, from) == src[from..start] + NewSide(h.ops) + Target(src, rest, start + m)
      && RenderHunks(hunks, from, newFrom) ==
         [RenderHeader(start, m, newFrom + h.gap, n)] + RenderOps(h.ops)
         + RenderHunks(rest, start + m, newFrom + h.gap + n)
  {
    hide RenderHeader, RenderOps, OldSide, NewSide;
  }

  lemma ApplicableStep(hunks: seq<Hunk>)
    requires hunks != [] && Applicable(hunks)
    ensures CleanOps(hunks[0].ops) && |OldSide(hunks[0].ops)| > 0 && Applicable(hunks[1..])
  {
  }

  lemma RunFirstHunk(src: seq<string>, hunks: seq<Hunk>, newFrom: nat, c: Cursor)
    requires hunks != [] && 0 <= c.idx && Matches(src, hunks, c.idx) && Applicable(hunks)
    ensures var h, start := hunks[0], c.idx + hunks[0].gap;
      var m, n := |OldSide(h.ops)|, |NewSide(h.ops)|;
      && start + m <= |src|
      && RunLines(src, RenderHunks(hunks, c.idx, newFrom), c)
         == RunLines(src, RenderHunks(hunks[1..], start + m, newFrom + h.gap + n),
                     Cursor(c.out + src[c.idx..start] + NewSide(h.ops), start + m))
  {
    hide *;
    var h, rest := hunks[0], hunks[1..];
    ApplicableStep(hunks);
    HunksStep(src, hunks, c.idx, newFrom);
    var start := c.idx + h.gap;
    var m, n := |OldSide(h.ops)|, |NewSide(h.ops)|;
    var header := RenderHeader(start, m, newFrom + h.gap, n);
    HeaderRoundTrip(start, m, newFrom + h.gap, n);
    RunHunk(src, h.ops, start, header, c);
    RunLinesAppend(src, [header] + RenderOps(h.ops), RenderHunks(rest, start + m, newFrom + h.gap + n), c);
  }

  /** The first hunk, its header included, takes the cursor past its old lines. */
  lemma RunHunksStep(src: seq<string>, hunks: seq<Hunk>, newFrom: nat, c: Cursor) returns (d: Cursor, newEnd: nat)
    requires hunks != [] && 0 <= c.idx && Matches(src, hunks, c.idx) && Applicable(hunks)
    ensures 0 <= d.idx && Matches(src, hunks[1..], d.idx) && Applicable(hunks[1..])
    ensures RunLines(src, RenderHunks(hunks, c.idx, newFrom), c)
         == RunLines(src, RenderHunks(hunks[1..], d.idx, newEnd), d)
    ensures d.out + Target(src, hunks[1..], d.idx) == c.out + Target(src, hunks, c.idx)
  {
    hide *;
    ApplicableStep(hunks);
    HunksStep(src, hunks, c.idx, newFrom);
    RunFirstHunk(src, hunks, newFrom, c);
    var h, start := hunks[0], c.idx + hunks[0].gap;
    var m := |OldSide(h.ops)|;
    d, newEnd := Cursor(c.out + src[c.idx..start] + NewSide(h.ops), start + m), newFrom + h.gap + |NewSide(h.ops)|;
    FourConcat(c.out, src[c.idx..start], NewSide(h.ops), Target(src, hunks[1..], start + m));
  }

  lemma RunNoHunks(src: seq<string>, newFrom: nat, c: Cursor)
    requires 0 <= c.idx && Matches(src, [], c.idx)
    ensures RunLines(src, RenderHunks([], c.idx, newFrom), c) == Ok(c)
    ensures c.idx <= |src| && Target(src, [], c.idx) == src[c.idx..]
  {
  }

  lemma {:induction false} RunHunks(src: seq<string>, hunks: seq<Hunk>, newFrom: nat, c: Cursor)
    requires 0 <= c.idx && Matches(src, hunks, c.idx) && Applicable(hunks)
    ensures var r := RunLines(src, RenderHunks(hunks, c.idx, newFrom), c);
      && r.Ok? && 0 <= r.value.idx <= |src|
      && r.value.out + src[r.value.idx..] == c.out + Target(src, hunks, c.idx)
  {
    hide *;
    if hunks == [] {
      RunNoHunks(src, newFrom, c);
    } else {
      var d, newEnd := RunHunksStep(src, hunks, newFrom, c);
      RunHunks(src, hunks[1..], newEnd, d);
    }
  }

  /** Applying a printed diff gives exactly the intended text. */
  lemma ApplyIsTarget(original: string, hunks: seq<Hunk>)
    requires Matches(SplitLines(original), hunks, 0) && Applicable(hunks)
    ensures Applied(original, RenderHunks(hunks, 0, 0)) == Ok(Join(Target(SplitLines(original), hunks, 0)))
  {
    var src := SplitLines(original);
    RunHunks(src, hunks, 0, Cursor([], 0));
    assert [] + Target(src, hunks, 0) == Target(src, hunks, 0);
  }

  // ------------------------------------------------------------------ inversion

  function Swap(op: Op): (r: Op) {
    match op
    case Context(t) => Context(t)
    case Delete(t) => Add(t)
    case Add(t) => Delete(t)
  }

  function SwapAll(ops: seq<Op>): (r: seq<Op>)
    ensures |r| == |ops| && forall k :: 0 <= k < |ops| ==> r[k] == Swap(ops[k])
    ensures OldSide(r) == NewSide(ops) && NewSide(r) == OldSide(ops)
  {
    if ops == [] then [] else
      var r := [Swap(ops[0])] + SwapAll(ops[1..]);
      assert r[1..] == SwapAll(ops[1..]);
      r
  }

  /** The reverse diff: signs swapped. Its hunks start where the new sides are. */
  function Inverse(hunks: seq<Hunk>): (r: seq<Hunk>)
    ensures |r| == |hunks|
    ensures forall k :: 0 <= k < |hunks| ==> r[k] == Hunk(hunks[k].gap, SwapAll(hunks[k].ops))
  {
    seq(|hunks|, k requires 0 <= k < |hunks| => Hunk(hunks[k].gap, SwapAll(hunks[k].ops)))
  }

  lemma InverseStep(hunks: seq<Hunk>)
    requires hunks != []
    ensures var h := hunks[0];
      && Inverse(hunks) == [Hunk(h.gap, SwapAll(h.ops))] + Inverse(hunks[1..])
      && OldSide(SwapAll(h.ops)) == NewSide(h.ops) && NewSide(SwapAll(h.ops)) == OldSide(h.ops)
  {
    var a, b := Inverse(hunks), [Hunk(hunks[0].gap, SwapAll(hunks[0].ops))] + Inverse(hunks[1..]);
    assert |a| == |b| && forall k :: 0 <= k < |a| ==> a[k] == b[k];
  }

  lemma MatchesCons(src: seq<string>, h: Hunk, rest: seq<Hunk>, from: nat)
    requires var end := from + h.gap + |OldSide(h.ops)|;
      end <= |src| && src[from + h.gap..end] == OldSide(h.ops) && Matches(src, rest, end)
    ensures Matches(src, [h] + rest, from)
    ensures var start := from + h.gap;
      Target(src, [h] + rest, from)
      == src[from..start] + NewSide(h.ops) + Target(src, rest, start + |OldSide(h.ops)|)
  {
    hide OldSide, NewSide;
    var hunks := [h] + rest;
    assert hunks[0] == h && hunks[1..] == rest;
  }

  lemma InverseOfNone(src: seq<string>, from: nat, patched: seq<string>, newFrom: nat)
    requires Matches(src, [], from) && newFrom <= |patched| && patched[newFrom..] == Target(src, [], from)
    ensures Matches(patched, Inverse([]), newFrom) && Target(patched, Inverse([]), newFrom) == src[from..]
  {
  }

  lemma {:induction false} InverseUndoes(src: seq<string>, hunks: seq<Hunk>, from: nat, patched: seq<string>,
      newFrom: nat)
    requires Matches(src, hunks, from)
    requires newFrom <= |patched| && patched[newFrom..] == Target(src, hunks, from)
    ensures Matches(patched, Inverse(hunks), newFrom)
    ensures Target(patched, Inverse(hunks), newFrom) == src[from..]
  {
    hide *;
    if hunks == [] {
      InverseOfNone(src, from, patched, newFrom);
    } else {
      var h, rest := hunks[0], hunks[1..];
      var start := from + h.gap;
      var end := start + |OldSide(h.ops)|;
      HunksStep(src, hunks, from, 0);
      SplitThree(patched, newFrom, src[from..start], NewSide(h.ops), Target(src, rest, end));
      InverseUndoes(src, rest, end, patched, newFrom + h.gap + |NewSide(h.ops)|);
      InverseStep(hunks);
      MatchesCons(patched, Hunk(h.gap, SwapAll(h.ops)), Inverse(rest), newFrom);
      SuffixInThree(src, from, start, end);
    }
  }

  predicate NewlineOps(ops: seq<Op>) {
    forall k :: 0 <= k < |ops| ==> NewlineLine(ops[k].text)
  }

  /** What a diff has to satisfy to be printed and read back: whole lines only. */
  predicate Printable(hunks: seq<Hunk>) {
    Applicable(hunks) && forall i :: 0 <= i < |hunks| ==> NewlineOps(hunks[i].ops)
  }

  lemma {:induction false} NewSideLines(ops: seq<Op>)
    requires NewlineOps(ops)
    ensures NewlineLines(NewSide(ops))
  {
    if ops != [] {
      NewSideLines(ops[1..]);
    }
  }

  lemma NewlineAppend(a: seq<string>, b: seq<string>)
    requires NewlineLines(a) && NewlineLines(b)
    ensures NewlineLines(a + b)
  {
  }

  lemma {:induction false} TargetLines(src: seq<string>, hunks: seq<Hunk>, from: nat)
    requires Matches(src, hunks, from) && NewlineLines(src)
    requires forall i :: 0 <= i < |hunks| ==> NewlineOps(hunks[i].ops)
    ensures NewlineLines(Target(src, hunks, from))
  {
    hide *;
    if hunks == [] {
      RunNoHunks(src, 0, Cursor([], from));
      NewlineSlice(src, from, |src|);
      assert src[from..] == src[from..|src|];
    } else {
      var start := from + hunks[0].gap;
      var end := start + |OldSide(hunks[0].ops)|;
      var rest := hunks[1..];
      HunksStep(src, hunks, from, 0);
      NewSideLines(hunks[0].ops);
      TargetLines(src, rest, end);
      NewlineSlice(src, from, start);
      NewlineAppend(src[from..start], NewSide(hunks[0].ops));
      NewlineAppend(src[from..start] + NewSide(hunks[0].ops), Target(src, rest, end));
    }
  }

  lemma NewlineSlice(a: seq<string>, i: nat, j: nat)
    requires i <= j <= |a| && NewlineLines(a)
    ensures NewlineLines(a[i..j])
  {
  }

  /** Applying a diff and then its sign-swapped diff gives the text back. */
  lemma PatchThenRevert(original: string, hunks: seq<Hunk>)
    requires NewlineLines(SplitLines(original))
    requires Matches(SplitLines(original), hunks, 0)
    requires Printable(hunks) && Applicable(Inverse(hunks))
    ensures var forward := Applied(original, RenderHunks(hunks, 0, 0));
      && forward.Ok?
      && SplitLines(forward.value) == Target(SplitLines(original), hunks, 0)
      && Applied(forward.value, RenderHunks(Inverse(hunks), 0, 0)) == Ok(original)
  {
    var src := SplitLines(original);
    var patched := Target(src, hunks, 0);
    ApplyIsTarget(original, hunks);
    TargetLines(src, hunks, 0);
    NewlineLinesAreSplit(patched);
    SplitLinesJoin(patched);
    assert patched[0..] == patched;
    InverseUndoes(src, hunks, 0, patched, 0);
    ApplyIsTarget(Join(patched), Inverse(hunks));
    assert src[0..] == src;
    JoinSplitLines(original);
  }
}
