/**
 The batch editor: writes files one by one, remembering what each held before, and
 on the first failing write replays those notes in reverse.
 */
module MultiFileEditor {
  import opened Common
  import opened Workspace

  datatype Edit = Edit(path: string, content: string)

  /** What a path held just before an edit; None when it could not be read. */
  datatype Backup = Backup(path: string, previous: Option<string>)

  // ---------------------------------------------------------------- the code

  /** The write loop's end: `torn` when the failing write left something else in its file. */
  datatype Batch = Batch(disk: Disk, backups: seq<Backup>, failed: bool, torn: bool)

  /** The write loop from edit i on. */
  function RunEdits(disk: Disk, edits: seq<Edit>, i: nat, backups: seq<Backup>): (r: Batch)
    requires i <= |edits|
    decreases |edits| - i
  {
    if i == |edits| then Batch(disk, backups, false, false)
    else
      var noted := backups + [Backup(edits[i].path, ReadFile(disk, edits[i].path))];
      var (next, stored) := WriteFile(disk, edits[i].path, edits[i].content);
      if stored then RunEdits(next, edits, i + 1, noted)
      else Batch(next, noted, true, disk.script[0].Torn?)
  }

  /** Writing back the first n notes, last one first; failures are ignored. */
  function Restore(disk: Disk, backups: seq<Backup>, n: nat): (r: Disk)
    requires n <= |backups|
    decreases n
  {
    if n == 0 then disk else Restore(RestoreOne(disk, backups[n - 1]), backups, n - 1)
  }

  function RestoreOne(disk: Disk, b: Backup): (r: Disk) {
    if b.previous.Some? then WriteFile(disk, b.path, b.previous.value).0 else disk
  }

  datatype BatchResult = Success(written: seq<Edit>) | RolledBack(appliedBefore: seq<Edit>, touched: seq<Backup>)

  /** What the caller gets: the edits written, and on failure also every path noted. */
  function ResultOf(edits: seq<Edit>, run: Batch): BatchResult
    requires |run.backups| <= |edits| && (run.failed ==> run.backups != [])
  {
    if run.failed then RolledBack(edits[..|run.backups| - 1], run.backups) else Success(edits)
  }

  lemma {:induction false} RunEditsShape(disk: Disk, edits: seq<Edit>, i: nat, backups: seq<Backup>)
    requires i <= |edits| && |backups| == i
    requires forall k :: 0 <= k < i ==> backups[k].path == edits[k].path
    ensures var run := RunEdits(disk, edits, i, backups);
      && i <= |run.backups| <= |edits| && run.backups[..i] == backups
      && (run.failed ==> i < |run.backups|) && (!run.failed ==> |run.backups| == |edits|)
      && forall k :: 0 <= k < |run.backups| ==> run.backups[k].path == edits[k].path
    decreases |edits| - i
  {
    if i < |edits| {
      var noted := backups + [Backup(edits[i].path, ReadFile(disk, edits[i].path))];
      var (next, stored) := WriteFile(disk, edits[i].path, edits[i].content);
      if stored {
        RunEditsShape(next, edits, i + 1, noted);
        assert noted[..i] == backups;
      }
    }
  }

  lemma RunEditsStep(disk: Disk, edits: seq<Edit>, i: nat, backups: seq<Backup>)
    requires i < |edits|
    ensures var noted := backups + [Backup(edits[i].path, ReadFile(disk, edits[i].path))];
      var (next, stored) := WriteFile(disk, edits[i].path, edits[i].content);
      && (stored ==> RunEdits(disk, edits, i, backups) == RunEdits(next, edits, i + 1, noted))
      && (!stored ==>
            var run := RunEdits(disk, edits, i, backups);
            run.failed && run.disk == next && run.backups == noted)
  {
  }

  lemma RunEditsEnd(disk: Disk, edits: seq<Edit>, backups: seq<Backup>)
    ensures RunEdits(disk, edits, |edits|, backups) == Batch(disk, backups, false, false)
  {
  }

  lemma ResultIs(edits: seq<Edit>, run: Batch, applied: seq<Edit>)
    requires |run.backups| <= |edits| && (run.failed ==> run.backups != [])
    requires applied == edits[..if run.failed then |run.backups| - 1 else |edits|]
    ensures ResultOf(edits, run) == if run.failed then RolledBack(applied, run.backups) else Success(applied)
  {
    assert edits[..|edits|] == edits;
  }

  method RollBack(backups: seq<Backup>, fs: ScopedFileSystem)
    modifies fs
    ensures fs.disk == Restore(old(fs.disk), backups, |backups|)
  {
    var n := |backups|;
    while n > 0
      invariant 0 <= n <= |backups|
      invariant Restore(fs.disk, backups, n) == Restore(old(fs.disk), backups, |backups|)
    {
      n := n - 1;
      if backups[n].previous.Some? {
        var _ := fs.Write(backups[n].path, backups[n].previous.value);
      }
    }
  }

  method Apply(edits: seq<Edit>, fs: ScopedFileSystem) returns (r: BatchResult)
    modifies fs
    ensures var run := RunEdits(old(fs.disk), edits, 0, []);
      && |run.backups| <= |edits| && (run.failed ==> run.backups != [])
      && fs.disk == (if run.failed then Restore(run.disk, run.backups, |run.backups|) else run.disk)
      && r == ResultOf(edits, run)
  {
    hide *;
    var backups: seq<Backup> := [];
    var applied: seq<Edit> := [];
    RunEditsShape(fs.disk, edits, 0, []);
    for i := 0 to |edits|
      invariant RunEdits(fs.disk, edits, i, backups) == RunEdits(old(fs.disk), edits, 0, [])
      invariant applied == edits[..i] && |backups| == i
    {
      var edit := edits[i];
      RunEditsStep(fs.disk, edits, i, backups);
      var previous, _ := fs.Read(edit.path);
      backups := backups + [Backup(edit.path, previous)];
      var stored := fs.Write(edit.path, edit.content);
      if !stored {
        RollBack(backups, fs);
        ResultIs(edits, RunEdits(old(fs.disk), edits, 0, []), applied);
        return RolledBack(applied, backups);
      }
      applied := applied + [edit];
    }
    RunEditsEnd(fs.disk, edits, backups);
    ResultIs(edits, RunEdits(old(fs.disk), edits, 0, []), applied);
    r := Success(applied);
  }

  // ---------------------------------------------------------------- the answer

  lemma {:induction false} LoopStopsAtFirstFailure(disk: Disk, edits: seq<Edit>, i: nat, backups: seq<Backup>)
    requires i <= |edits| && |backups| == i
    ensures var run := RunEdits(disk, edits, i, backups);
      && i <= |run.backups| <= |edits|
      && (run.failed ==> i < |run.backups| && !Stores(disk, |run.backups| - 1 - i))
      && (!run.failed ==> |run.backups| == |edits|)
      && forall k: nat :: k < |run.backups| - i - (if run.failed then 1 else 0) ==> Stores(disk, k)
    decreases |edits| - i
  {
    hide ReadFile;
    if i < |edits| {
      var noted := backups + [Backup(edits[i].path, ReadFile(disk, edits[i].path))];
      var (next, stored) := WriteFile(disk, edits[i].path, edits[i].content);
      assert Stores(disk, 0) == stored && forall k: nat :: Stores(next, k) == Stores(disk, k + 1);
      if stored {
        LoopStopsAtFirstFailure(next, edits, i + 1, noted);
        var run := RunEdits(disk, edits, i, backups);
        forall k: nat | k < |run.backups| - i - (if run.failed then 1 else 0) ensures Stores(disk, k) {
          assert k > 0 ==> Stores(next, k - 1);
        }
      }
    }
  }

  /** The answer is a success exactly when every write is stored, and then lists all the edits.
      Otherwise it lists the edits before the first write that fails, and notes the paths up to it. */
  lemma AnswerIsExact(disk: Disk, edits: seq<Edit>)
    ensures var run := RunEdits(disk, edits, 0, []);
      |run.backups| <= |edits| && (run.failed ==> run.backups != [])
    ensures var r := ResultOf(edits, RunEdits(disk, edits, 0, []));
      && (r.Success? <==> forall k: nat :: k < |edits| ==> Stores(disk, k))
      && (r.Success? ==> r.written == edits)
      && (r.RolledBack? ==>
            var k := |r.appliedBefore|;
            && k < |edits| && !Stores(disk, k) && (forall j: nat :: j < k ==> Stores(disk, j))
            && r.appliedBefore == edits[..k] && |r.touched| == k + 1
            && forall j :: 0 <= j <= k ==> r.touched[j].path == edits[j].path)
  {
    hide RunEdits, Stores;
    RunEditsShape(disk, edits, 0, []);
    LoopStopsAtFirstFailure(disk, edits, 0, []);
    var run := RunEdits(disk, edits, 0, []);
    if run.failed {
      var k: nat := |run.backups| - 1;
      assert !Stores(disk, k);
    }
  }

  // ---------------------------------------------------------------- success

  /** The content the edits from i on leave at a path: the last one written there. */
  function LastWrite(edits: seq<Edit>, i: nat, path: string): (r: Option<string>)
    requires i <= |edits|
    ensures r.None? <==> forall k :: i <= k < |edits| ==> edits[k].path != path
    ensures r.Some? ==> exists k :: i <= k < |edits| && edits[k] == Edit(path, r.value)
                                    && forall j :: k < j < |edits| ==> edits[j].path != path
    decreases |edits| - i
  {
    if i == |edits| then None
    else
      var later := LastWrite(edits, i + 1, path);
      if later.Some? then later
      else if edits[i].path == path then
        assert edits[i] == Edit(path, edits[i].content);
        Some(edits[i].content)
      else None
  }

  /** On success every path holds the last content written to it, or what it held before. */
  lemma {:induction false} SuccessIsLastWrite(disk: Disk, edits: seq<Edit>, i: nat, backups: seq<Backup>, path: string)
    requires i <= |edits| && !RunEdits(disk, edits, i, backups).failed
    ensures Lookup(RunEdits(disk, edits, i, backups).disk, path) ==
            match LastWrite(edits, i, path) case Some(text) => Some(Text(text)) case None => Lookup(disk, path)
    decreases |edits| - i
  {
    if i < |edits| {
      var noted := backups + [Backup(edits[i].path, ReadFile(disk, edits[i].path))];
      var (next, stored) := WriteFile(disk, edits[i].path, edits[i].content);
      SuccessIsLastWrite(next, edits, i + 1, noted, path);
    }
  }

  // ---------------------------------------------------------------- rollback

  /** k is the first note about path. */
  predicate FirstNote(backups: seq<Backup>, k: nat, path: string) {
    k < |backups| && backups[k].path == path && forall j :: 0 <= j < k ==> backups[j].path != path
  }

  lemma WriteLocal(disk: Disk, path: string, text: string, other: string)
    requires path != other
    ensures var next := WriteFile(disk, path, text).0;
      Lookup(next, other) == Lookup(disk, other) && ReadFile(next, other) == ReadFile(disk, other)
  {
  }

  /** A path's first note is what the path held before the batch; a path without one is untouched. */
  lemma {:induction false} FirstNoteIsOriginal(disk: Disk, edits: seq<Edit>, i: nat, backups: seq<Backup>, path: string)
    requires i <= |edits| && |backups| == i
    requires forall j :: 0 <= j < i ==> backups[j].path != path && backups[j].path == edits[j].path
    ensures var run := RunEdits(disk, edits, i, backups);
      && (forall k: nat :: FirstNote(run.backups, k, path) ==> run.backups[k].previous == ReadFile(disk, path))
      && ((forall j :: 0 <= j < |run.backups| ==> run.backups[j].path != path) ==>
          Lookup(run.disk, path) == Lookup(disk, path))
    decreases |edits| - i
  {
    if i < |edits| {
      var e := edits[i];
      var noted := backups + [Backup(e.path, ReadFile(disk, e.path))];
      var (next, stored) := WriteFile(disk, e.path, e.content);
      if e.path == path {
        var run := RunEdits(disk, edits, i, backups);
        if stored {
          RunEditsShape(next, edits, i + 1, noted);
          assert run.backups[i] == run.backups[..i + 1][i];
        }
        assert run.backups[i] == noted[i] && noted[i].path == path;
      } else {
        WriteLocal(disk, e.path, e.content, path);
        if stored {
          FirstNoteIsOriginal(next, edits, i + 1, noted, path);
        }
      }
    }
  }

  lemma {:induction false} RestoreLocal(disk: Disk, backups: seq<Backup>, n: nat, path: string)
    requires n <= |backups| && forall j :: 0 <= j < n ==> backups[j].path != path
    ensures Lookup(Restore(disk, backups, n), path) == Lookup(disk, path)
    decreases n
  {
    if n > 0 {
      if backups[n - 1].previous.Some? {
        WriteLocal(disk, backups[n - 1].path, backups[n - 1].previous.value, path);
      }
      RestoreLocal(RestoreOne(disk, backups[n - 1]), backups, n - 1, path);
    }
  }

  /** Whether the write that restores note k succeeds. */
  predicate RestoreStored(disk: Disk, backups: seq<Backup>, n: nat, k: nat)
    requires k < n <= |backups|
    decreases n
  {
    if k == n - 1 then backups[k].previous.Some? ==> WriteFile(disk, backups[k].path, backups[k].previous.value).1
    else RestoreStored(RestoreOne(disk, backups[n - 1]), backups, n - 1, k)
  }

  lemma {:induction false} RestoreReachesFirstNote(disk: Disk, backups: seq<Backup>, n: nat, k: nat, path: string)
    requires k < n <= |backups| && FirstNote(backups, k, path) && backups[k].previous.Some?
    requires RestoreStored(disk, backups, n, k)
    ensures Lookup(Restore(disk, backups, n), path) == Some(Text(backups[k].previous.value))
    decreases n
  {
    if k == n - 1 {
      RestoreLocal(RestoreOne(disk, backups[k]), backups, k, path);
    } else {
      RestoreReachesFirstNote(RestoreOne(disk, backups[n - 1]), backups, n - 1, k, path);
    }
  }

  function RolledBackDisk(disk: Disk, edits: seq<Edit>): Disk {
    var run := RunEdits(disk, edits, 0, []);
    Restore(run.disk, run.backups, |run.backups|)
  }

  /** After a failed batch a path that was readable before holds its text again, however
      often it occurs and whatever the failing write left in it: it only takes that
      path's own last restore write to succeed. */
  lemma RollbackRestores(disk: Disk, edits: seq<Edit>, k: nat, path: string)
    requires var run := RunEdits(disk, edits, 0, []);
      && run.failed && FirstNote(run.backups, k, path)
      && RestoreStored(run.disk, run.backups, |run.backups|, k)
    requires ReadFile(disk, path).Some?
    ensures Lookup(RolledBackDisk(disk, edits), path) == Some(Text(ReadFile(disk, path).value))
    ensures Lookup(RolledBackDisk(disk, edits), path) == Lookup(disk, path) <==> '\r' !in disk.files[path].text
  {
    var run := RunEdits(disk, edits, 0, []);
    FirstNoteIsOriginal(disk, edits, 0, [], path);
    RestoreReachesFirstNote(run.disk, run.backups, |run.backups|, k, path);
    TranslateIsIdentity(disk.files[path].text);
  }

  /** Paths outside the batch never change. */
  lemma OutsideUntouched(disk: Disk, edits: seq<Edit>, path: string)
    requires forall i :: 0 <= i < |edits| ==> edits[i].path != path
    ensures Lookup(RunEdits(disk, edits, 0, []).disk, path) == Lookup(disk, path)
    ensures Lookup(RolledBackDisk(disk, edits), path) == Lookup(disk, path)
  {
    var run := RunEdits(disk, edits, 0, []);
    RunEditsShape(disk, edits, 0, []);
    FirstNoteIsOriginal(disk, edits, 0, [], path);
    RestoreLocal(run.disk, run.backups, |run.backups|, path);
  }

  // ------------------------------------------- when the batch is undone completely

  /** Every restore write succeeds. */
  predicate AllRestored(disk: Disk, backups: seq<Backup>, n: nat)
    requires n <= |backups|
    decreases n
  {
    n == 0 ||
    (RestoreStored(disk, backups, n, n - 1) && AllRestored(RestoreOne(disk, backups[n - 1]), backups, n - 1))
  }

  lemma {:induction false} EachRestored(disk: Disk, backups: seq<Backup>, n: nat, k: nat)
    requires k < n <= |backups| && AllRestored(disk, backups, n)
    ensures RestoreStored(disk, backups, n, k)
    decreases n
  {
    if k < n - 1 {
      EachRestored(RestoreOne(disk, backups[n - 1]), backups, n - 1, k);
    }
  }

  predicate HoldsText(disk: Disk, path: string) {
    path in disk.files && disk.files[path].Text?
  }

  /** The file can be put back exactly: it is text without carriage returns. */
  predicate Restorable(disk: Disk, path: string) {
    HoldsText(disk, path) && '\r' !in disk.files[path].text
  }

  /** A path written in the batch, or text before it, still holds text when the batch breaks off. */
  lemma {:induction false} WrittenHoldsText(disk: Disk, edits: seq<Edit>, i: nat, backups: seq<Backup>, path: string)
    requires i <= |edits| && |backups| == i && forall k :: 0 <= k < i ==> backups[k].path == edits[k].path
    requires var run := RunEdits(disk, edits, i, backups);
      && run.failed && !run.torn
      && (HoldsText(disk, path) || exists j :: i <= j < |run.backups| - 1 && run.backups[j].path == path)
    ensures HoldsText(RunEdits(disk, edits, i, backups).disk, path)
    decreases |edits| - i
  {
    if i < |edits| {
      var e := edits[i];
      var noted := backups + [Backup(e.path, ReadFile(disk, e.path))];
      var (next, stored) := WriteFile(disk, e.path, e.content);
      if stored {
        RunEditsShape(next, edits, i + 1, noted);
        var run := RunEdits(next, edits, i + 1, noted);
        assert run.backups[i] == run.backups[..i + 1][i] == noted[i];
        WrittenHoldsText(next, edits, i + 1, noted, path);
      }
    }
  }

  lemma {:induction false} RestoreKeepsText(disk: Disk, backups: seq<Backup>, n: nat, path: string)
    requires n <= |backups| && HoldsText(disk, path) && AllRestored(disk, backups, n)
    ensures HoldsText(Restore(disk, backups, n), path)
    decreases n
  {
    if n > 0 {
      RestoreKeepsText(RestoreOne(disk, backups[n - 1]), backups, n - 1, path);
    }
  }

  /** The failing edit's own path, when nothing was noted for it, is left as it was. */
  lemma {:induction false} UnreadableLastUntouched(disk: Disk, edits: seq<Edit>, i: nat, backups: seq<Backup>,
      path: string)
    requires i <= |edits| && |backups| == i
    requires forall k :: 0 <= k < i ==> backups[k].path == edits[k].path
    requires var run := RunEdits(disk, edits, i, backups);
      run.failed && !run.torn && forall k :: i <= k < |run.backups| - 1 ==> run.backups[k].path != path
    ensures Lookup(RunEdits(disk, edits, i, backups).disk, path) == Lookup(disk, path)
    decreases |edits| - i
  {
    if i < |edits| {
      var e := edits[i];
      var noted := backups + [Backup(e.path, ReadFile(disk, e.path))];
      var (next, stored) := WriteFile(disk, e.path, e.content);
      if stored {
        RunEditsShape(next, edits, i + 1, noted);
        var run := RunEdits(next, edits, i + 1, noted);
        assert run.backups[i] == run.backups[..i + 1][i] == noted[i];
        UnreadableLastUntouched(next, edits, i + 1, noted, path);
      }
    }
  }

  lemma FirstNoteOf(backups: seq<Backup>, i: nat, path: string) returns (k: nat)
    requires i < |backups| && backups[i].path == path
    ensures k <= i && FirstNote(backups, k, path)
  {
    k := 0;
    while backups[k].path != path
      invariant k <= i && forall j :: 0 <= j < k ==> backups[j].path != path
      decreases i - k
    {
      k := k + 1;
    }
  }

  /** Whether the rollback has to put note k back exactly for the batch to be undone:
      always, except for a failing last edit on a path that could not be read. */
  predicate PutBack(disk: Disk, backups: seq<Backup>, k: nat)
    requires k < |backups|
  {
    Restorable(disk, backups[k].path) || (k == |backups| - 1 && !HoldsText(disk, backups[k].path))
  }

  lemma PathUndone(disk: Disk, edits: seq<Edit>, k: nat, path: string)
    requires var run := RunEdits(disk, edits, 0, []);
      && run.failed && !run.torn && AllRestored(run.disk, run.backups, |run.backups|)
      && FirstNote(run.backups, k, path)
    ensures var run := RunEdits(disk, edits, 0, []);
      Lookup(RolledBackDisk(disk, edits), path) == Lookup(disk, path) <==> PutBack(disk, run.backups, k)
  {
    var run := RunEdits(disk, edits, 0, []);
    var n := |run.backups|;
    FirstNoteIsOriginal(disk, edits, 0, [], path);
    if HoldsText(disk, path) {
      EachRestored(run.disk, run.backups, n, k);
      RollbackRestores(disk, edits, k, path);
    } else if k == n - 1 {
      UnreadableLastUntouched(disk, edits, 0, [], path);
      RestoreLocal(RestoreOne(run.disk, run.backups[k]), run.backups, k, path);
    } else {
      WrittenHoldsText(disk, edits, 0, [], path);
      RestoreKeepsText(run.disk, run.backups, n, path);
    }
  }

  /** With a cleanly refused write and successful restores, a failed batch leaves every
      file as it was exactly when each path it wrote held text without carriage returns
      before (files it created stay, carriage returns are lost), and so does the failing
      path if it could be read. */
  lemma UndoneExactly(disk: Disk, edits: seq<Edit>)
    requires var run := RunEdits(disk, edits, 0, []);
      run.failed && !run.torn && AllRestored(run.disk, run.backups, |run.backups|)
    ensures var run := RunEdits(disk, edits, 0, []);
      (forall path :: Lookup(RolledBackDisk(disk, edits), path) == Lookup(disk, path))
      <==> (forall k: nat :: k < |run.backups| ==> PutBack(disk, run.backups, k))
  {
    var run := RunEdits(disk, edits, 0, []);
    RunEditsShape(disk, edits, 0, []);
    hide RunEdits, RolledBackDisk, Lookup, AllRestored;
    if forall path :: Lookup(RolledBackDisk(disk, edits), path) == Lookup(disk, path) {
      forall k: nat | k < |run.backups| ensures PutBack(disk, run.backups, k) {
        var path := run.backups[k].path;
        var first := FirstNoteOf(run.backups, k, path);
        PathUndone(disk, edits, first, path);
      }
    }
    if forall k: nat :: k < |run.backups| ==> PutBack(disk, run.backups, k) {
      forall path ensures Lookup(RolledBackDisk(disk, edits), path) == Lookup(disk, path) {
        if i: nat :| i < |run.backups| && run.backups[i].path == path {
          var first := FirstNoteOf(run.backups, i, path);
          PathUndone(disk, edits, first, path);
        } else {
          FirstNoteIsOriginal(disk, edits, 0, [], path);
          UnnotedUntouched(disk, edits, path);
        }
      }
    }
  }

  lemma UnnotedUntouched(disk: Disk, edits: seq<Edit>, path: string)
    requires forall j :: 0 <= j < |RunEdits(disk, edits, 0, []).backups| ==>
        RunEdits(disk, edits, 0, []).backups[j].path != path
    ensures Lookup(RolledBackDisk(disk, edits), path) == Lookup(disk, path)
  {
    var run := RunEdits(disk, edits, 0, []);
    FirstNoteIsOriginal(disk, edits, 0, [], path);
    RestoreLocal(run.disk, run.backups, |run.backups|, path);
  }
}
