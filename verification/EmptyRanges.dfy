/**
 What the applier does with hunks whose old range is empty. Their header names the line before the
 insertion, which the code takes for the line to start at, so the cursor stands one line short; at
 the top of the file it stands at -1, which Python counts from the end. This is worked out for
 every list of hunks: what is produced, and exactly when that is the intended text.
 */
module EmptyRanges {
  import opened Common
  import opened TextLines
  import opened UnifiedDiff

  // ------------------------------------------------------------- what the applier produces

  lemma {:induction false} AddsOnly(adds: seq<string>, ops: seq<Op>)
    requires |ops| == |adds| && forall k :: 0 <= k < |adds| ==> ops[k] == Add(adds[k])
    ensures OldSide(ops) == [] && NewSide(ops) == adds
  {
    if ops != [] {
      AddsOnly(adds[1..], ops[1..]);
      assert adds == [adds[0]] + adds[1..];
    }
  }

  lemma {:induction false} RunAdds(src: seq<string>, adds: seq<string>, ops: seq<Op>, c: Cursor)
    requires CleanOps(ops) && |ops| == |adds| && forall k :: 0 <= k < |adds| ==> ops[k] == Add(adds[k])
    ensures RunLines(src, RenderOps(ops), c) == Ok(c.(out := c.out + adds))
  {
    hide *;
    if ops == [] {
      RunNoOps(src, c);
      AddsOnly(adds, ops);
      assert adds == [] && c.out + [] == c.out;
    } else {
      OpsStep(ops);
      BodyLineActs(src, ops[0], c);
      AddAdvances(ops[0], c);
      RunLinesCons(src, RenderOp(ops[0]), RenderOps(ops[1..]), c, Advance(ops[0], c));
      RunAdds(src, adds[1..], ops[1..], Advance(ops[0], c));
      assert c.out + [adds[0]] + adds[1..] == c.out + adds;
    }
  }

  lemma AddAdvances(op: Op, c: Cursor)
    requires op.Add?
    ensures Advance(op, c) == c.(out := c.out + [op.text])
  {
  }


  // ------------------------------------------------------------- lists of hunks

  predicate CleanHunks(hunks: seq<Hunk>) {
    forall i :: 0 <= i < |hunks| ==> CleanOps(hunks[i].ops)
  }

  /** The hunk's old range is empty: it only adds. */
  predicate Inserts(h: Hunk) {
    OldSide(h.ops) == []
  }

  /** Where the header of the first hunk after source line `from` puts the cursor. */
  function FirstCursor(h: Hunk, from: nat): (idx: int) {
    if Inserts(h) then from + h.gap - 1 else from + h.gap
  }

  /** What the applier still puts out for these hunks when its cursor is at idx. */
  function Produced(src: seq<string>, hunks: seq<Hunk>, from: nat, idx: int): (r: seq<string>) {
    if hunks == [] then SliceFrom(src, idx)
    else
      var h, cursor := hunks[0], FirstCursor(hunks[0], from);
      var m := |OldSide(h.ops)|;
      Slice(src, idx, cursor) + NewSide(h.ops) + Produced(src, hunks[1..], from + h.gap + m, cursor + m)
  }

  lemma {:induction false} InsertsOnlyAdds(ops: seq<Op>)
    requires OldSide(ops) == []
    ensures |NewSide(ops)| == |ops| && forall k :: 0 <= k < |ops| ==> ops[k] == Add(NewSide(ops)[k])
  {
    if ops != [] {
      InsertsOnlyAdds(ops[1..]);
      var text, rest := ops[0].text, NewSide(ops[1..]);
      assert ops[0] == Add(text) && NewSide(ops) == [text] + rest;
      hide OldSide, NewSide;
      forall k | 0 <= k < |ops| ensures ops[k] == Add(NewSide(ops)[k]) {
        assert k > 0 ==> ops[k] == ops[1..][k - 1];
      }
    }
  }

  lemma RunHeader(src: seq<string>, h: Hunk, from: nat, newPos: nat, c: Cursor)
    ensures var cursor := FirstCursor(h, from);
      RunLines(src, [RenderHeader(from + h.gap, |OldSide(h.ops)|, newPos, |NewSide(h.ops)|)] + RenderOps(h.ops), c)
      == RunLines(src, RenderOps(h.ops), Cursor(c.out + Slice(src, c.idx, cursor), cursor))
  {
    hide *;
    var cursor := FirstCursor(h, from);
    var header := RenderHeader(from + h.gap, |OldSide(h.ops)|, newPos, |NewSide(h.ops)|);
    HeaderRoundTrip(from + h.gap, |OldSide(h.ops)|, newPos, |NewSide(h.ops)|);
    CursorOf(h, from);
    HeaderMoves(src, header, cursor, c);
    RunLinesCons(src, header, RenderOps(h.ops), c, Cursor(c.out + Slice(src, c.idx, cursor), cursor));
  }

  lemma RunBody(src: seq<string>, ops: seq<Op>, start: nat, d: Cursor)
    requires CleanOps(ops) && (|OldSide(ops)| > 0 ==> d.idx == start)
    requires start + |OldSide(ops)| <= |src| && src[start..start + |OldSide(ops)|] == OldSide(ops)
    ensures RunLines(src, RenderOps(ops), d) == Ok(Cursor(d.out + NewSide(ops), d.idx + |OldSide(ops)|))
  {
    hide *;
    if |OldSide(ops)| == 0 {
      RunInsertion(src, ops, d);
    } else {
      RunOps(src, ops, d);
    }
  }

  /** The first hunk, its header included. */
  lemma RunOneHunk(src: seq<string>, hunks: seq<Hunk>, from: nat, newPos: nat, c: Cursor, d: Cursor)
    requires hunks != [] && Matches(src, hunks, from) && CleanOps(hunks[0].ops)
    requires d == Cursor(c.out + Slice(src, c.idx, FirstCursor(hunks[0], from)), FirstCursor(hunks[0], from))
    ensures var h := hunks[0];
      var m := |OldSide(h.ops)|;
      RunLines(src, [RenderHeader(from + h.gap, m, newPos, |NewSide(h.ops)|)] + RenderOps(h.ops), c)
      == Ok(Cursor(d.out + NewSide(h.ops), d.idx + m))
  {
    hide *;
    RunHeader(src, hunks[0], from, newPos, c);
    CursorOf(hunks[0], from);
    HunksStep(src, hunks, from, 0);
    RunBody(src, hunks[0].ops, from + hunks[0].gap, d);
  }

  lemma RunInsertion(src: seq<string>, ops: seq<Op>, d: Cursor)
    requires CleanOps(ops) && |OldSide(ops)| == 0
    ensures RunLines(src, RenderOps(ops), d) == Ok(Cursor(d.out + NewSide(ops), d.idx))
  {
    hide RunLines, RenderOps, OldSide, NewSide;
    InsertsOnlyAdds(ops);
    RunAdds(src, NewSide(ops), ops, d);
  }

  lemma ProducedStep(src: seq<string>, hunks: seq<Hunk>, from: nat, idx: int)
    requires hunks != []
    ensures var h, cursor := hunks[0], FirstCursor(hunks[0], from);
      var m := |OldSide(h.ops)|;
      Produced(src, hunks, from, idx)
      == Slice(src, idx, cursor) + NewSide(h.ops) + Produced(src, hunks[1..], from + h.gap + m, cursor + m)
  {
    hide OldSide, NewSide, FirstCursor, Slice, SliceFrom;
  }

  lemma RunProducesNothing(src: seq<string>, newFrom: nat, c: Cursor, from: nat)
    ensures RunLines(src, RenderHunks([], from, newFrom), c) == Ok(c)
    ensures Produced(src, [], from, c.idx) == SliceFrom(src, c.idx)
  {
  }

  lemma CleanTail(hunks: seq<Hunk>)
    requires hunks != [] && CleanHunks(hunks)
    ensures CleanOps(hunks[0].ops) && CleanHunks(hunks[1..])
  {
  }

  /** The applier puts out exactly that, for every matching list of hunks. */
  lemma {:induction false} RunProduces(src: seq<string>, hunks: seq<Hunk>, from: nat, newFrom: nat, c: Cursor)
    requires Matches(src, hunks, from) && CleanHunks(hunks)
    ensures var r := RunLines(src, RenderHunks(hunks, from, newFrom), c);
      r.Ok? && r.value.out + SliceFrom(src, r.value.idx) == c.out + Produced(src, hunks, from, c.idx)
  {
    hide *;
    if hunks == [] {
      RunProducesNothing(src, newFrom, c, from);
    } else {
      var h, rest := hunks[0], hunks[1..];
      CleanTail(hunks);
      HunksStep(src, hunks, from, newFrom);
      ProducedStep(src, hunks, from, c.idx);
      var start, m, cursor := from + h.gap, |OldSide(h.ops)|, FirstCursor(h, from);
      var newEnd := newFrom + h.gap + |NewSide(h.ops)|;
      var header := RenderHeader(start, m, newFrom + h.gap, |NewSide(h.ops)|);
      var entered := Cursor(c.out + Slice(src, c.idx, cursor), cursor);
      var d := Cursor(entered.out + NewSide(h.ops), cursor + m);
      RunOneHunk(src, hunks, from, newFrom + h.gap, c, entered);
      RunLinesAppend(src, [header] + RenderOps(h.ops), RenderHunks(rest, start + m, newEnd), c);
      RunProduces(src, rest, start + m, newEnd, d);
      FourConcat(c.out, Slice(src, c.idx, cursor), NewSide(h.ops), Produced(src, rest, start + m, cursor + m));
    }
  }

  lemma AppliedIsProduced(src: seq<string>, hunks: seq<Hunk>)
    requires Matches(src, hunks, 0) && CleanHunks(hunks)
    ensures AppliedLines(src, RenderHunks(hunks, 0, 0)) == Ok(Produced(src, hunks, 0, 0))
  {
    hide RunLines, RenderHunks, Produced, SliceFrom, CleanHunks, Matches;
    RunProduces(src, hunks, 0, 0, Cursor([], 0));
    assert [] + Produced(src, hunks, 0, 0) == Produced(src, hunks, 0, 0);
  }

  // ------------------------------------------------------------- below the top

  predicate AllEqual(lines: seq<string>, x: string) {
    forall k :: 0 <= k < |lines| ==> lines[k] == x
  }

  /** Nothing is inserted before the first source line. */
  predicate BelowTop(hunks: seq<Hunk>, from: nat) {
    hunks != [] && Inserts(hunks[0]) ==> from + hunks[0].gap > 0
  }

  /** Each insertion equals the line it follows, and follows no changed line; `early` says that the
      hunk before was an insertion too. */
  predicate Settled(src: seq<string>, hunks: seq<Hunk>, from: nat, early: bool)
    requires Matches(src, hunks, from) && BelowTop(hunks, from)
  {
    hunks == []
    || (var h, start, m := hunks[0], from + hunks[0].gap, |OldSide(hunks[0].ops)|;
        && (Inserts(h) ==> (early || h.gap > 0) && AllEqual(NewSide(h.ops), src[start - 1]))
        && Settled(src, hunks[1..], start + m, Inserts(h)))
  }

  /** The source line where the k-th hunk starts. */
  function StartOf(hunks: seq<Hunk>, k: nat, from: nat): (start: nat)
    requires k < |hunks|
  {
    if k == 0 then from + hunks[0].gap
    else StartOf(hunks[1..], k - 1, from + hunks[0].gap + |OldSide(hunks[0].ops)|)
  }

  /** The k-th hunk is fine: if it inserts, it comes after an untouched line or after another
      insertion, and all it inserts equals the source line before. */
  predicate Fits(src: seq<string>, hunks: seq<Hunk>, k: nat, from: nat, early: bool)
    requires k < |hunks|
  {
    Inserts(hunks[k]) ==>
      && (hunks[k].gap > 0 || (if k == 0 then early else Inserts(hunks[k - 1])))
      && 0 < StartOf(hunks, k, from) <= |src|
      && AllEqual(NewSide(hunks[k].ops), src[StartOf(hunks, k, from) - 1])
  }

  ghost predicate AllFit(src: seq<string>, hunks: seq<Hunk>, from: nat, early: bool) {
    forall k: nat :: k < |hunks| ==> Fits(src, hunks, k, from, early)
  }

  lemma FitsTail(src: seq<string>, hunks: seq<Hunk>, k: nat, from: nat, early: bool)
    requires 0 < k < |hunks|
    ensures Fits(src, hunks, k, from, early)
            <==> Fits(src, hunks[1..], k - 1, from + hunks[0].gap + |OldSide(hunks[0].ops)|, Inserts(hunks[0]))
  {
    hide OldSide, NewSide, AllEqual;
    var rest := hunks[1..];
    assert rest[k - 1] == hunks[k] && (k > 1 ==> rest[k - 2] == hunks[k - 1]);
  }

  lemma AllFitStep(src: seq<string>, hunks: seq<Hunk>, from: nat, early: bool)
    requires hunks != []
    ensures AllFit(src, hunks, from, early)
            <==> Fits(src, hunks, 0, from, early)
                 && AllFit(src, hunks[1..], from + hunks[0].gap + |OldSide(hunks[0].ops)|, Inserts(hunks[0]))
  {
    hide Fits, OldSide, NewSide, Inserts;
    var rest, end := hunks[1..], from + hunks[0].gap + |OldSide(hunks[0].ops)|;
    if AllFit(src, hunks, from, early) {
      forall k: nat | k < |rest| ensures Fits(src, rest, k, end, Inserts(hunks[0])) {
        FitsTail(src, hunks, k + 1, from, early);
      }
    }
    if Fits(src, hunks, 0, from, early) && AllFit(src, rest, end, Inserts(hunks[0])) {
      forall k: nat | k < |hunks| ensures Fits(src, hunks, k, from, early) {
        if k > 0 {
          FitsTail(src, hunks, k, from, early);
        }
      }
    }
  }

  lemma FitsFirst(src: seq<string>, hunks: seq<Hunk>, from: nat, early: bool)
    requires hunks != [] && Matches(src, hunks, from) && BelowTop(hunks, from)
    ensures var h, start := hunks[0], from + hunks[0].gap;
      && (|OldSide(h.ops)| == 0 ==> 0 < start <= |src|)
      && (Fits(src, hunks, 0, from, early) <==>
            (|OldSide(h.ops)| == 0 ==> (early || h.gap > 0) && AllEqual(NewSide(h.ops), src[start - 1])))
  {
    hide OldSide, NewSide, AllEqual;
  }

  /** Hunk by hunk, or all at once. */
  lemma {:induction false} SettledIsAllFit(src: seq<string>, hunks: seq<Hunk>, from: nat, early: bool)
    requires Matches(src, hunks, from) && BelowTop(hunks, from)
    ensures Settled(src, hunks, from, early) <==> AllFit(src, hunks, from, early)
  {
    hide *;
    if hunks == [] {
      NoneToFit(src, from, early);
    } else {
      var m := |OldSide(hunks[0].ops)|;
      SettledStep(src, hunks, from, early);
      AllFitStep(src, hunks, from, early);
      FitsFirst(src, hunks, from, early);
      CursorOf(hunks[0], from);
      SettledIsAllFit(src, hunks[1..], from + hunks[0].gap + m, m == 0);
    }
  }

  lemma NoneToFit(src: seq<string>, from: nat, early: bool)
    requires Matches(src, [], from) && BelowTop([], from)
    ensures Settled(src, [], from, early) && AllFit(src, [], from, early)
  {
  }

  lemma ShiftOne(w: seq<string>, x: string, e: seq<string>, t: seq<string>)
    ensures w + e == [x] + w + t <==> AllEqual(w, x) && e == [x] + t
  {
    var a, b := w + e, [x] + w + t;
    if AllEqual(w, x) && e == [x] + t {
      assert w + [x] == [x] + w;
      assert a == w + [x] + t;
    }
    if a == b {
      var k := 0;
      while k < |w|
        invariant 0 <= k <= |w| && forall j :: 0 <= j < k ==> w[j] == x
      {
        assert a[k] == w[k];
        assert b[k] == if k == 0 then x else w[k - 1];
        k := k + 1;
      }
      assert a[|w|..] == e;
      assert b[|w|..] == [x] + t by {
        assert |b| == 1 + |w| + |t|;
        assert b[|w|] == if |w| == 0 then x else w[|w| - 1];
        assert b[|w| + 1..] == t;
      }
    }
  }

  lemma PrefixCancels(p: seq<string>, a: seq<string>, b: seq<string>)
    ensures p + a == p + b <==> a == b
  {
    if p + a == p + b {
      assert (p + a)[|p|..] == a && (p + b)[|p|..] == b;
    }
  }

  /** The lines from idx up to the cursor of a hunk at `start`, and what they lack up to `start`. */
  lemma SliceUpTo(src: seq<string>, idx: nat, from: nat, start: nat)
    requires idx <= from <= start <= |src|
    ensures src[idx..from] + src[from..start] == src[idx..start] == Slice(src, idx, start)
    ensures idx < start ==> Slice(src, idx, start - 1) + [src[start - 1]] == src[idx..start]
    ensures idx == start && start > 0 ==> Slice(src, idx, start - 1) == []
  {
  }

  /** What SettledExactly says of the hunks from source line `from` on. */
  ghost predicate SettledFrom(src: seq<string>, hunks: seq<Hunk>, from: nat, idx: nat)
    requires Matches(src, hunks, from) && BelowTop(hunks, from) && idx <= from <= |src|
  {
    && |Produced(src, hunks, from, idx)| >= |Target(src, hunks, from)| + from - idx
    && (Produced(src, hunks, from, idx) == src[idx..from] + Target(src, hunks, from)
        <==> Settled(src, hunks, from, idx < from))
  }

  lemma MatchesWithin(src: seq<string>, hunks: seq<Hunk>, from: nat)
    requires Matches(src, hunks, from)
    ensures from <= |src|
    decreases |hunks|
  {
    if hunks != [] {
      MatchesWithin(src, hunks[1..], from + hunks[0].gap + |OldSide(hunks[0].ops)|);
    }
  }

  /** A changed hunk: what follows it must agree. */
  lemma SameTail(p: seq<string>, a: seq<string>, u: seq<string>, w: seq<string>, e: seq<string>, t: seq<string>)
    requires u == p + a
    ensures u + w + e == p + (a + w + t) <==> e == t
    ensures |u + w + e| - |p + (a + w + t)| == |e| - |t|
  {
    assert p + (a + w + t) == u + w + t;
    PrefixCancels(u + w, e, t);
  }

  /** An insertion put before line x instead of after it. */
  lemma InsertedBefore(p: seq<string>, a: seq<string>, b: seq<string>, x: string, w: seq<string>, e: seq<string>,
      t: seq<string>)
    requires b + [x] == p + a
    ensures b + w + e == p + (a + w + t) <==> AllEqual(w, x) && e == [x] + t
    ensures |b + w + e| - |p + (a + w + t)| == |e| - |t| - 1
  {
    hide AllEqual;
    assert |b| + 1 == |p| + |a|;
    assert p + (a + w + t) == (p + a) + w + t == b + ([x] + w + t);
    assert b + w + e == b + (w + e);
    PrefixCancels(b, w + e, [x] + w + t);
    ShiftOne(w, x, e, t);
  }

  lemma EmptyPart(src: seq<string>, i: nat, t: seq<string>)
    requires i <= |src|
    ensures src[i..i] + t == t
  {
  }

  lemma SettledAtChange(src: seq<string>, hunks: seq<Hunk>, from: nat, idx: nat)
    requires hunks != [] && Matches(src, hunks, from) && BelowTop(hunks, from) && (idx == from || idx + 1 == from)
    requires !Inserts(hunks[0]) && from <= |src|
    requires var end, rest := from + hunks[0].gap + |OldSide(hunks[0].ops)|, hunks[1..];
      end <= |src| && Matches(src, rest, end) && BelowTop(rest, end) && SettledFrom(src, rest, end, end)
    ensures SettledFrom(src, hunks, from, idx)
  {
    hide Produced, Target, Settled, Matches, BelowTop, Inserts, OldSide, NewSide, FirstCursor, Slice;
    var h, rest := hunks[0], hunks[1..];
    var start, m := from + h.gap, |OldSide(h.ops)|;
    HunksStep(src, hunks, from, 0);
    ProducedStep(src, hunks, from, idx);
    SettledStep(src, hunks, from, idx < from);
    SliceUpTo(src, idx, from, start);
    CursorOf(h, from);
    var e, t := Produced(src, rest, start + m, start + m), Target(src, rest, start + m);
    EmptyPart(src, start + m, t);
    SameTail(src[idx..from], src[from..start], Slice(src, idx, start), NewSide(h.ops), e, t);
  }

  lemma SettledAtInsertion(src: seq<string>, hunks: seq<Hunk>, from: nat, idx: nat)
    requires hunks != [] && Matches(src, hunks, from) && BelowTop(hunks, from) && (idx == from || idx + 1 == from)
    requires Inserts(hunks[0]) && from <= |src|
    requires var start, rest := from + hunks[0].gap, hunks[1..];
      && 0 < start <= |src| && Matches(src, rest, start) && BelowTop(rest, start)
      && SettledFrom(src, rest, start, start - 1)
    ensures SettledFrom(src, hunks, from, idx)
  {
    hide Produced, Target, Settled, Matches, BelowTop, Inserts, OldSide, NewSide, FirstCursor, Slice, AllEqual;
    var h, rest, start := hunks[0], hunks[1..], from + hunks[0].gap;
    HunksStep(src, hunks, from, 0);
    ProducedStep(src, hunks, from, idx);
    SettledStep(src, hunks, from, idx < from);
    SliceUpTo(src, idx, from, start);
    CursorOf(h, from);
    var e, t, x := Produced(src, rest, start, start - 1), Target(src, rest, start), src[start - 1];
    assert src[start - 1..start] == [x];
    if idx < start {
      InsertedBefore(src[idx..from], src[from..start], Slice(src, idx, start - 1), x, NewSide(h.ops), e, t);
    } else {
      Longer(src[idx..from], src[from..start], Slice(src, idx, start - 1), NewSide(h.ops), e, t);
    }
  }

  lemma Longer(p: seq<string>, a: seq<string>, b: seq<string>, w: seq<string>, e: seq<string>, t: seq<string>)
    requires |e| > |t| && |p| == |a| == |b| == 0
    ensures |b + w + e| > |p + (a + w + t)|
  {
  }

  /** Below the top the applier never puts out less than it should; it puts out just that, in
      the right order, exactly when every insertion is settled. */
  lemma {:induction false} SettledExactly(src: seq<string>, hunks: seq<Hunk>, from: nat, idx: nat)
    requires Matches(src, hunks, from) && BelowTop(hunks, from) && (idx == from || idx + 1 == from)
    ensures from <= |src| && SettledFrom(src, hunks, from, idx)
  {
    hide *;
    MatchesWithin(src, hunks, from);
    if hunks == [] {
      NothingIsSettled(src, from, idx);
    } else {
      var h, rest := hunks[0], hunks[1..];
      var start, m := from + h.gap, |OldSide(h.ops)|;
      HunksStep(src, hunks, from, 0);
      StepStaysBelow(src, hunks, from);
      CursorOf(h, from);
      if Inserts(h) {
        SettledExactly(src, rest, start, start - 1);
        SettledAtInsertion(src, hunks, from, idx);
      } else {
        SettledExactly(src, rest, start + m, start + m);
        SettledAtChange(src, hunks, from, idx);
      }
    }
  }

  lemma CursorOf(h: Hunk, from: nat)
    ensures FirstCursor(h, from) == if |OldSide(h.ops)| == 0 then from + h.gap - 1 else from + h.gap
    ensures Inserts(h) <==> |OldSide(h.ops)| == 0
  {
  }

  lemma NothingIsSettled(src: seq<string>, from: nat, idx: nat)
    requires idx <= from && Matches(src, [], from) && BelowTop([], from)
    ensures from <= |src| && SettledFrom(src, [], from, idx)
  {
    assert src[idx..] == src[idx..from] + src[from..];
  }

  lemma StepStaysBelow(src: seq<string>, hunks: seq<Hunk>, from: nat)
    requires hunks != [] && Matches(src, hunks, from) && BelowTop(hunks, from)
    ensures from + hunks[0].gap + |OldSide(hunks[0].ops)| > 0
    ensures BelowTop(hunks[1..], from + hunks[0].gap + |OldSide(hunks[0].ops)|)
  {
  }

  lemma SettledStep(src: seq<string>, hunks: seq<Hunk>, from: nat, early: bool)
    requires hunks != [] && Matches(src, hunks, from) && BelowTop(hunks, from)
    ensures var h, start, m := hunks[0], from + hunks[0].gap, |OldSide(hunks[0].ops)|;
      && Matches(src, hunks[1..], start + m) && BelowTop(hunks[1..], start + m)
      && (m == 0 ==> 0 < start <= |src|)
      && (Settled(src, hunks, from, early) <==>
            && (m == 0 ==> (early || h.gap > 0) && AllEqual(NewSide(h.ops), src[start - 1]))
            && Settled(src, hunks[1..], start + m, m == 0))
  {
  }

  // ------------------------------------------------------------- sequences that commute

  /** A sequence repeated n times. */
  function Repeat<T>(w: seq<T>, n: nat): (r: seq<T>) {
    if n == 0 then [] else w + Repeat(w, n - 1)
  }

  lemma {:induction false} RepeatSum<T>(w: seq<T>, i: nat, j: nat)
    ensures Repeat(w, i) + Repeat(w, j) == Repeat(w, i + j)
  {
    if i > 0 {
      RepeatSum(w, i - 1, j);
      assert w + Repeat(w, i - 1) + Repeat(w, j) == w + (Repeat(w, i - 1) + Repeat(w, j));
    } else {
      assert [] + Repeat(w, j) == Repeat(w, j);
    }
  }

  /** Both sequences repeat one block. */
  ghost predicate ShareBlock(a: seq<string>, b: seq<string>) {
    exists w: seq<string>, i: nat, j: nat :: a == Repeat(w, i) && b == Repeat(w, j)
  }

  lemma Cancel<T>(a: seq<T>, c: seq<T>)
    requires a + (a + c) == a + c + a
    ensures a + c == c + a
  {
    assert a + c + a == a + (c + a);
    assert (a + (a + c))[|a|..] == a + c && (a + (c + a))[|a|..] == c + a;
  }

  lemma {:induction false} CommonBlock<T>(a: seq<T>, b: seq<T>) returns (w: seq<T>, i: nat, j: nat)
    requires a + b == b + a
    ensures a == Repeat(w, i) && b == Repeat(w, j)
    decreases |a| + |b|, |a|
  {
    if a == [] {
      w, i, j := b, 0, 1;
      assert Repeat(b, 1) == b + Repeat(b, 0) == b;
    } else if |a| > |b| {
      w, j, i := CommonBlock(b, a);
    } else {
      var c := b[|a|..];
      assert b[..|a|] == (b + a)[..|a|] == (a + b)[..|a|] == a;
      assert b == a + c;
      Cancel(a, c);
      w, i, j := CommonBlock(a, c);
      RepeatSum(w, i, j);
      j := i + j;
    }
  }

  /** Two sequences commute exactly when both repeat one block. */
  lemma CommuteExactly(a: seq<string>, b: seq<string>)
    ensures a + b == b + a <==> ShareBlock(a, b)
  {
    if a + b == b + a {
      var w, i, j := CommonBlock(a, b);
    }
    if ShareBlock(a, b) {
      var w: seq<string>, i: nat, j: nat :| a == Repeat(w, i) && b == Repeat(w, j);
      RepeatSum(w, i, j);
      RepeatSum(w, j, i);
    }
  }

  lemma TailCancels<T>(a: seq<T>, b: seq<T>, tail: seq<T>)
    ensures a + tail == b + tail <==> a == b
  {
    if a + tail == b + tail {
      assert |a| == |b|;
      assert (a + tail)[..|a|] == a && (b + tail)[..|a|] == b;
    }
  }

  // ------------------------------------------------------------- at the top

  /** How many of the first hunks insert before the first source line. */
  function TopHunks(hunks: seq<Hunk>): (t: nat)
    ensures t <= |hunks|
  {
    if hunks != [] && Inserts(hunks[0]) && hunks[0].gap == 0 then 1 + TopHunks(hunks[1..]) else 0
  }

  /** All they insert. */
  function TopLines(hunks: seq<Hunk>, t: nat): (r: seq<string>)
    requires t <= |hunks|
  {
    if t == 0 then [] else NewSide(hunks[0].ops) + TopLines(hunks[1..], t - 1)
  }

  lemma TopCounts(hunks: seq<Hunk>)
    requires TopHunks(hunks) > 0
    ensures hunks != [] && Inserts(hunks[0]) && hunks[0].gap == 0 && |OldSide(hunks[0].ops)| == 0
    ensures var t, rest := TopHunks(hunks), hunks[1..];
      && t == 1 + TopHunks(rest) && rest[t - 1..] == hunks[t..]
      && TopLines(hunks, t) == NewSide(hunks[0].ops) + TopLines(rest, t - 1)
  {
    hide OldSide, NewSide;
  }

  lemma NoneAtTop(hunks: seq<Hunk>)
    requires TopHunks(hunks) == 0
    ensures BelowTop(hunks, 0) && TopLines(hunks, 0) == [] && hunks[0..] == hunks
  {
    hide OldSide, NewSide;
  }

  lemma TopMatches(src: seq<string>, hunks: seq<Hunk>)
    requires Matches(src, hunks, 0) && TopHunks(hunks) > 0
    ensures Matches(src, hunks[1..], 0)
    ensures Target(src, hunks, 0) == NewSide(hunks[0].ops) + Target(src, hunks[1..], 0)
  {
    hide *;
    TopCounts(hunks);
    HunksStep(src, hunks, 0, 0);
    EmptyPart(src, 0, NewSide(hunks[0].ops));
  }

  lemma TopProducesFirst(src: seq<string>, hunks: seq<Hunk>, idx: int)
    requires TopHunks(hunks) > 0
    ensures Produced(src, hunks, 0, idx) == Slice(src, idx, -1) + NewSide(hunks[0].ops)
        + Produced(src, hunks[1..], 0, -1)
  {
    hide *;
    TopCounts(hunks);
    CursorOf(hunks[0], 0);
    ProducedStep(src, hunks, 0, idx);
  }

  lemma {:induction false} RestIsBelowTop(src: seq<string>, hunks: seq<Hunk>)
    requires Matches(src, hunks, 0)
    ensures var t := TopHunks(hunks);
      && Matches(src, hunks[t..], 0) && BelowTop(hunks[t..], 0)
      && Target(src, hunks, 0) == TopLines(hunks, t) + Target(src, hunks[t..], 0)
  {
    hide *;
    if TopHunks(hunks) > 0 {
      var t, rest := TopHunks(hunks), hunks[1..];
      TopCounts(hunks);
      TopMatches(src, hunks);
      RestIsBelowTop(src, rest);
      ConcatAssociative(NewSide(hunks[0].ops), TopLines(rest, t - 1), Target(src, hunks[t..], 0));
    } else {
      NoneAtTop(hunks);
      assert [] + Target(src, hunks, 0) == Target(src, hunks, 0);
    }
  }

  /** With its cursor at -1 the applier puts out what the top hunks insert and nothing of the source. */
  lemma {:induction false} TopProduces(src: seq<string>, hunks: seq<Hunk>)
    ensures var t := TopHunks(hunks);
      Produced(src, hunks, 0, -1) == TopLines(hunks, t) + Produced(src, hunks[t..], 0, -1)
  {
    hide *;
    if TopHunks(hunks) > 0 {
      var t, rest := TopHunks(hunks), hunks[1..];
      TopCounts(hunks);
      TopProducesFirst(src, hunks, -1);
      TopProduces(src, rest);
      SliceAtEnd(src);
      assert [] + NewSide(hunks[0].ops) == NewSide(hunks[0].ops);
      ConcatAssociative(NewSide(hunks[0].ops), TopLines(rest, t - 1), Produced(src, hunks[t..], 0, -1));
    } else {
      NoneAtTop(hunks);
      assert [] + Produced(src, hunks, 0, -1) == Produced(src, hunks, 0, -1);
    }
  }

  lemma SliceAtEnd(src: seq<string>)
    ensures Slice(src, -1, -1) == []
    ensures src != [] ==> Slice(src, 0, -1) == src[..|src| - 1]
    ensures src != [] ==> SliceFrom(src, -1) == src[|src| - 1..] && SliceFrom(src, 0) == src
    ensures forall q :: 0 <= q < |src| ==> Slice(src, 0, q) == src[..q] && Slice(src, -1, q) == []
  {
  }

  /** Where the cursor goes first after the top hunks: their next header's line, or the last line. */
  function NextCursor(src: seq<string>, rest: seq<Hunk>): (idx: int) {
    if rest == [] then |src| - 1 else FirstCursor(rest[0], 0)
  }

  /** What follows the top hunks leaves out the source up to the next cursor. */
  lemma AfterTop(src: seq<string>, rest: seq<Hunk>)
    requires src != [] && Matches(src, rest, 0) && BelowTop(rest, 0)
    ensures 0 <= NextCursor(src, rest) < |src|
    ensures Produced(src, rest, 0, 0) == src[..NextCursor(src, rest)] + Produced(src, rest, 0, -1)
  {
    hide *;
    SliceAtEnd(src);
    NextCursorIs(src, rest);
    var q := NextCursor(src, rest);
    if rest == [] {
      RunProducesNothing(src, 0, Cursor([], 0), 0);
      RunProducesNothing(src, 0, Cursor([], -1), 0);
      assert src == src[..q] + src[q..];
    } else {
      HunksStep(src, rest, 0, 0);
      ProducedStep(src, rest, 0, 0);
      ProducedStep(src, rest, 0, -1);
      CursorOf(rest[0], 0);
      var h, m := rest[0], |OldSide(rest[0].ops)|;
      LeaveOut(src[..q], NewSide(h.ops), Produced(src, rest[1..], h.gap + m, q + m));
    }
  }

  lemma LeaveOut(a: seq<string>, w: seq<string>, tail: seq<string>)
    ensures a + w + tail == a + ([] + w + tail)
  {
  }

  lemma NextCursorIs(src: seq<string>, rest: seq<Hunk>)
    requires src != [] && Matches(src, rest, 0) && BelowTop(rest, 0)
    ensures NextCursor(src, rest) == if rest == [] then |src| - 1 else FirstCursor(rest[0], 0)
    ensures 0 <= NextCursor(src, rest) < |src|
  {
    hide NewSide;
  }

  /** The intended text begins with the source up to the first changed line. */
  lemma TargetKeeps(src: seq<string>, rest: seq<Hunk>)
    requires src != [] && Matches(src, rest, 0) && BelowTop(rest, 0) && NextCursor(src, rest) == |src| - 1
    ensures |Target(src, rest, 0)| >= |src| - 1 && Target(src, rest, 0)[..|src| - 1] == src[..|src| - 1]
  {
    hide OldSide, NewSide;
    if rest != [] {
      HunksStep(src, rest, 0, 0);
      CursorOf(rest[0], 0);
      var start := rest[0].gap;
      assert start >= |src| - 1 && src[0..start][..|src| - 1] == src[..|src| - 1];
    } else {
      assert Target(src, rest, 0) == src[0..] == src;
    }
  }

  /** Two texts that both consist of s, a block w and something else, in different orders. */
  lemma Commuted(s: seq<string>, w: seq<string>, e: seq<string>, t: seq<string>)
    requires |t| >= |s| && t[..|s|] == s
    ensures s + w + e == w + t <==> s + w == w + s && s + e == t
  {
    var y := t[|s|..];
    assert t == s + y;
    if s + w + e == w + t {
      assert w + t == (w + s) + y;
      assert (s + w + e)[..|s| + |w|] == s + w && ((w + s) + y)[..|s| + |w|] == w + s;
      assert (s + w + e)[|s| + |w|..] == e && ((w + s) + y)[|s| + |w|..] == y;
    }
    if s + w == w + s && s + e == t {
      assert e == y by { assert (s + e)[|s|..] == e; }
      assert w + t == (w + s) + y;
    }
  }

  /** The intended text when hunks at the top insert something before a source that is not empty:
      it comes out exactly when the source without its last line and what is inserted repeat one
      block, the next hunk changes no line but the last, and the rest is settled. */
  lemma TopExactly(src: seq<string>, hunks: seq<Hunk>)
    requires src != [] && Matches(src, hunks, 0) && TopHunks(hunks) > 0
    ensures Matches(src, hunks[TopHunks(hunks)..], 0) && BelowTop(hunks[TopHunks(hunks)..], 0)
    ensures var t := TopHunks(hunks);
      Produced(src, hunks, 0, 0) == Target(src, hunks, 0) <==>
        && ShareBlock(src[..|src| - 1], TopLines(hunks, t))
        && NextCursor(src, hunks[t..]) == |src| - 1
        && Settled(src, hunks[t..], 0, false)
  {
    hide Produced, Target, Matches, BelowTop, Settled, TopLines, NextCursor, OldSide, NewSide, ShareBlock, TopHunks;
    var t := TopHunks(hunks);
    var rest, w, s := hunks[t..], TopLines(hunks, t), src[..|src| - 1];
    RestIsBelowTop(src, hunks);
    TopStarts(src, hunks);
    AfterTop(src, rest);
    SettledExactly(src, rest, 0, 0);
    WholeSettled(src, rest);
    CommuteExactly(s, w);
    var q, e, target := NextCursor(src, rest), Produced(src, rest, 0, -1), Target(src, rest, 0);
    assert Produced(src, hunks, 0, 0) == s + w + e;
    assert |src[..q]| + |e| >= |target|;
    if q == |src| - 1 {
      TargetKeeps(src, rest);
      Commuted(s, w, e, target);
    } else {
      assert |s + w + e| > |w + target|;
    }
  }

  lemma TopStarts(src: seq<string>, hunks: seq<Hunk>)
    requires src != [] && Matches(src, hunks, 0) && TopHunks(hunks) > 0
    ensures var t := TopHunks(hunks);
      Produced(src, hunks, 0, 0) == src[..|src| - 1] + TopLines(hunks, t) + Produced(src, hunks[t..], 0, -1)
  {
    hide *;
    var t, rest := TopHunks(hunks), hunks[1..];
    TopCounts(hunks);
    TopProducesFirst(src, hunks, 0);
    TopProduces(src, rest);
    SliceAtEnd(src);
    Regrouped(src[..|src| - 1], NewSide(hunks[0].ops), TopLines(rest, t - 1), Produced(src, hunks[t..], 0, -1));
  }

  lemma Regrouped(s: seq<string>, w: seq<string>, more: seq<string>, e: seq<string>)
    ensures s + w + (more + e) == s + (w + more) + e
  {
  }

  lemma WholeSettled(src: seq<string>, rest: seq<Hunk>)
    requires Matches(src, rest, 0) && BelowTop(rest, 0) && SettledFrom(src, rest, 0, 0)
    ensures |Produced(src, rest, 0, 0)| >= |Target(src, rest, 0)|
    ensures Produced(src, rest, 0, 0) == Target(src, rest, 0) <==> Settled(src, rest, 0, false)
  {
    hide Produced, Target, Matches, BelowTop, Settled;
    assert src[0..0] + Target(src, rest, 0) == Target(src, rest, 0);
  }

  /** An empty source: everything is inserted at the top, and right. */
  lemma {:induction false} EmptySource(hunks: seq<Hunk>, idx: int)
    requires Matches([], hunks, 0) && idx <= 0
    ensures Produced([], hunks, 0, idx) == Target([], hunks, 0)
  {
    hide NewSide;
    if hunks != [] {
      HunksStep([], hunks, 0, 0);
      EmptySource(hunks[1..], -1);
      var none: seq<string> := [];
      assert none[0..0] == [];
    }
  }

  /** Whether a list of hunks is applied as intended. Below the top every insertion has to equal
      the line it follows and must not follow a changed line; hunks at the top of a source that is
      not empty have to insert what repeats a block of the source without its last line, and the
      next hunk must change nothing before the last line. */
  ghost predicate PlacedRight(src: seq<string>, hunks: seq<Hunk>) {
    var t := TopHunks(hunks);
    src == []
    || (&& AllFit(src, hunks[t..], 0, false)
        && (t > 0 ==> ShareBlock(src[..|src| - 1], TopLines(hunks, t)) && NextCursor(src, hunks[t..]) == |src| - 1))
  }

  /** For every list of clean hunks that matches the source, empty old ranges or not, the applier
      produces the intended lines if and only if they are placed right. */
  lemma PlacedRightExactly(src: seq<string>, hunks: seq<Hunk>)
    requires Matches(src, hunks, 0) && CleanHunks(hunks)
    ensures AppliedLines(src, RenderHunks(hunks, 0, 0)) == Ok(Target(src, hunks, 0)) <==> PlacedRight(src, hunks)
  {
    hide Produced, Target, Matches, BelowTop, Settled, AllFit, TopLines, TopHunks, NextCursor, ShareBlock, AppliedLines,
         CleanHunks;
    AppliedIsProduced(src, hunks);
    RestIsBelowTop(src, hunks);
    SettledIsAllFit(src, hunks[TopHunks(hunks)..], 0, false);
    if src == [] {
      EmptySource(hunks, 0);
    } else if TopHunks(hunks) > 0 {
      TopExactly(src, hunks);
    } else {
      NoneAtTop(hunks);
      SettledExactly(src, hunks, 0, 0);
      WholeSettled(src, hunks);
    }
  }

  // ------------------------------------------------------------- the text

  lemma SliceLines(src: seq<string>, i: int, j: int)
    requires NewlineLines(src)
    ensures NewlineLines(Slice(src, i, j)) && NewlineLines(SliceFrom(src, i))
  {
  }

  lemma {:induction false} ProducedLines(src: seq<string>, hunks: seq<Hunk>, from: nat, idx: int)
    requires NewlineLines(src) && forall i :: 0 <= i < |hunks| ==> NewlineOps(hunks[i].ops)
    ensures NewlineLines(Produced(src, hunks, from, idx))
  {
    hide *;
    if hunks == [] {
      RunProducesNothing(src, 0, Cursor([], idx), from);
      SliceLines(src, idx, idx);
    } else {
      var h, cursor := hunks[0], FirstCursor(hunks[0], from);
      var m := |OldSide(h.ops)|;
      ProducedStep(src, hunks, from, idx);
      SliceLines(src, idx, cursor);
      NewSideLines(h.ops);
      ProducedLines(src, hunks[1..], from + h.gap + m, cursor + m);
      NewlineAppend(Slice(src, idx, cursor), NewSide(h.ops));
      NewlineAppend(Slice(src, idx, cursor) + NewSide(h.ops), Produced(src, hunks[1..], from + h.gap + m, cursor + m));
    }
  }

  lemma JoinInjective(a: seq<string>, b: seq<string>)
    requires NewlineLines(a) && NewlineLines(b)
    ensures Join(a) == Join(b) <==> a == b
  {
    hide NewlineLines, IsSplit, Join, SplitLines;
    NewlineLinesAreSplit(a);
    NewlineLinesAreSplit(b);
    SplitLinesJoin(a);
    SplitLinesJoin(b);
  }

  /** The same of the whole call, for texts and hunks of newline-terminated lines. */
  lemma PatchedRightExactly(original: string, hunks: seq<Hunk>)
    requires var src := SplitLines(original); NewlineLines(src) && Matches(src, hunks, 0)
    requires CleanHunks(hunks) && forall i :: 0 <= i < |hunks| ==> NewlineOps(hunks[i].ops)
    ensures var src := SplitLines(original);
      Applied(original, RenderHunks(hunks, 0, 0)) == Ok(Join(Target(src, hunks, 0))) <==> PlacedRight(src, hunks)
  {
    hide SplitLines, NewlineLines, Matches, CleanHunks, NewlineOps, RenderHunks, Target, PlacedRight, AppliedLines,
         Join, Produced;
    var src := SplitLines(original);
    PlacedRightExactly(src, hunks);
    AppliedIsProduced(src, hunks);
    ProducedLines(src, hunks, 0, 0);
    TargetLines(src, hunks, 0);
    JoinInjective(Produced(src, hunks, 0, 0), Target(src, hunks, 0));
  }

  // ------------------------------------------------------------- one insertion

  /** The lines the applier makes of a hunk that only adds, printed with its empty old range. */
  function InsertionResult(src: seq<string>, pos: nat, ops: seq<Op>, newPos: nat): Result<seq<string>, DiffError> {
    match RunLines(src, [RenderHeader(pos, 0, newPos, |ops|)] + RenderOps(ops), Cursor([], 0))
    case Err(e) => Err(e)
    case Ok(c) => Ok(c.out + SliceFrom(src, c.idx))
  }

  /** Where the applier puts the lines of a hunk that only adds after source line pos. */
  function InsertedAt(src: seq<string>, pos: nat): (at: nat)
    requires pos <= |src|
    ensures at <= |src|
  {
    if pos > 0 then pos - 1 else if src == [] then 0 else |src| - 1
  }

  /** The header's cursor, as the slices around it see it. */
  lemma EmptyRangeHeader(src: seq<string>, pos: nat, header: string)
    requires pos <= |src| && Starts(header, '@', 2) && HeaderStart(header) == Some(pos - 1)
    ensures StepLine(src, header, Cursor([], 0)) == Ok(Cursor(src[..InsertedAt(src, pos)], pos - 1))
    ensures SliceFrom(src, pos - 1) == src[InsertedAt(src, pos)..]
  {
    hide HeaderStart, Starts;
    SlicesAround(src, pos);
    HeaderMoves(src, header, pos - 1, Cursor([], 0));
    assert [] + src[..InsertedAt(src, pos)] == src[..InsertedAt(src, pos)];
  }

  lemma SlicesAround(src: seq<string>, pos: nat)
    requires pos <= |src|
    ensures Slice(src, 0, pos - 1) == src[..InsertedAt(src, pos)]
    ensures SliceFrom(src, pos - 1) == src[InsertedAt(src, pos)..]
  {
  }

  lemma HeaderMoves(src: seq<string>, header: string, start: int, c: Cursor)
    requires Starts(header, '@', 2) && HeaderStart(header) == Some(start)
    ensures StepLine(src, header, c) == Ok(Cursor(c.out + Slice(src, c.idx, start), start))
  {
    hide HeaderStart, Slice;
  }

  /** Whether a pure insertion ends where it should. After a source line: all that is added equals
      that line. Before the first: what is added and the source without its last line repeat one block. */
  ghost predicate InsertsRight(src: seq<string>, pos: nat, adds: seq<string>)
    requires pos <= |src|
  {
    if pos > 0 then forall k :: 0 <= k < |adds| ==> adds[k] == src[pos - 1]
    else src == [] || ShareBlock(src[..|src| - 1], adds)
  }

  lemma MisplacedExactly(src: seq<string>, pos: nat, adds: seq<string>)
    requires pos <= |src|
    ensures var at := InsertedAt(src, pos);
      src[..at] + adds + src[at..] == src[..pos] + adds + src[pos..] <==> InsertsRight(src, pos, adds)
  {
    if pos > 0 {
      CommuteWithOne(src[..pos - 1], src[pos - 1], adds, src[pos..]);
      assert src[pos - 1..] == [src[pos - 1]] + src[pos..];
      assert src[..pos] == src[..pos - 1] + [src[pos - 1]];
    } else if src != [] {
      var a, last := src[..|src| - 1], src[|src| - 1..];
      assert src == a + last && src[..0] == [] && src[0..] == src;
      CommuteExactly(a, adds);
      assert [] + adds + src == adds + a + last;
      TailCancels(a + adds, adds + a, last);
    }
  }

  /** A pure insertion after source line pos lands one line early, and one before the first line
      lands before the last. It is right exactly when the lines happen to agree, as said above. */
  lemma EmptyRangeInsertsEarly(src: seq<string>, pos: nat, adds: seq<string>, ops: seq<Op>, newPos: nat)
    requires pos <= |src| && CleanOps(ops)
    requires |ops| == |adds| && forall k :: 0 <= k < |adds| ==> ops[k] == Add(adds[k])
    ensures var at := InsertedAt(src, pos);
      && InsertionResult(src, pos, ops, newPos) == Ok(src[..at] + adds + src[at..])
      && (InsertionResult(src, pos, ops, newPos) == Ok(src[..pos] + adds + src[pos..])
          <==> InsertsRight(src, pos, adds))
  {
    hide RunLines, HeaderStart, RenderHeader, RenderOps, StepLine, SliceFrom, InsertsRight, InsertedAt;
    HeaderRoundTrip(pos, 0, newPos, |ops|);
    var header := RenderHeader(pos, 0, newPos, |ops|);
    EmptyRangeHeader(src, pos, header);
    var c := Cursor(src[..InsertedAt(src, pos)], pos - 1);
    RunLinesCons(src, header, RenderOps(ops), Cursor([], 0), c);
    RunAdds(src, adds, ops, c);
    MisplacedExactly(src, pos, adds);
  }
}
