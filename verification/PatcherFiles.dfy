/** Line-range edits over files: grouping a batch by path and patching each file as a whole. */
module PatcherFiles {
  import opened Common
  import opened TextLines
  import opened Workspace
  import opened LinePatcher

  datatype PatchError =
    BadRange(path: string) | Unreadable(path: string) | OutOfRange(path: string) | WriteFailed(path: string)

  /** The paths of the first n edits, in order of first appearance. */
  function PathsUpTo(edits: seq<Edit>, n: nat): (r: seq<string>)
    requires n <= |edits|
    ensures Distinct(r)
    ensures forall p :: p in r <==> exists k :: 0 <= k < n && edits[k].path == p
  {
    if n == 0 then []
    else
      var before := PathsUpTo(edits, n - 1);
      if edits[n - 1].path in before then before else before + [edits[n - 1].path]
  }

  function EditsUpTo(edits: seq<Edit>, n: nat, path: string): (r: seq<Edit>)
    requires n <= |edits|
    ensures WellFormed(edits) ==> WellFormed(r)
    ensures r != [] ==> path in PathsUpTo(edits, n)
  {
    if n == 0 then []
    else if edits[n - 1].path == path then EditsUpTo(edits, n - 1, path) + [edits[n - 1]]
    else EditsUpTo(edits, n - 1, path)
  }

  function Paths(edits: seq<Edit>): seq<string> { PathsUpTo(edits, |edits|) }

  function EditsOf(edits: seq<Edit>, path: string): (r: seq<Edit>)
    ensures WellFormed(edits) ==> WellFormed(r)
  {
    EditsUpTo(edits, |edits|, path)
  }

  /** The path of the first edit, from index i on, whose range ends before it starts. */
  function FirstBad(edits: seq<Edit>, i: nat): (r: Option<string>)
    requires i <= |edits|
    ensures r.None? <==> forall k :: i <= k < |edits| ==> edits[k].startLine <= edits[k].endLine
    ensures r.Some? ==> exists k :: i <= k < |edits| && r.value == edits[k].path
                                    && edits[k].endLine < edits[k].startLine
                                    && forall j :: i <= j < k ==> edits[j].startLine <= edits[j].endLine
    decreases |edits| - i
  {
    if i == |edits| then None
    else if edits[i].endLine < edits[i].startLine then Some(edits[i].path)
    else FirstBad(edits, i + 1)
  }

  function PatchPath(disk: Disk, path: string, fileEdits: seq<Edit>): (r: (Disk, Option<PatchError>))
    requires WellFormed(fileEdits)
  {
    match ReadFile(disk, path)
    case None => (disk, Some(PatchError.Unreadable(path)))
    case Some(content) =>
      match SpliceAll(SplitLines(content), SortDescending(fileEdits))
      case None => (disk, Some(OutOfRange(path)))
      case Some(lines) =>
        var (next, stored) := WriteFile(disk, path, Join(lines));
        (next, if stored then None else Some(WriteFailed(path)))
  }

  /** The file loop from the i-th path on: the disk it leaves, the number of paths dealt
      with, and the error it stopped on. */
  function PatchPaths(disk: Disk, edits: seq<Edit>, paths: seq<string>, i: nat): (r: (Disk, nat, Option<PatchError>))
    requires WellFormed(edits) && i <= |paths|
    ensures i <= r.1 <= |paths| && (r.2.None? <==> r.1 == |paths|)
    decreases |paths| - i
  {
    if i == |paths| then (disk, i, None)
    else
      var (next, error) := PatchPath(disk, paths[i], EditsOf(edits, paths[i]));
      if error.Some? then (next, i, error) else PatchPaths(next, edits, paths, i + 1)
  }

  ghost predicate Grouped(edits: seq<Edit>, n: nat, order: seq<string>, grouped: map<string, seq<Edit>>)
    requires n <= |edits|
  {
    && order == PathsUpTo(edits, n)
    && (forall p :: p in order <==> p in grouped)
    && (forall p :: p in grouped ==> grouped[p] == EditsUpTo(edits, n, p))
  }

  lemma GroupStep(edits: seq<Edit>, n: nat, order: seq<string>, grouped: map<string, seq<Edit>>)
    requires n < |edits| && Grouped(edits, n, order, grouped)
    ensures var p := edits[n].path;
      Grouped(edits, n + 1, if p in grouped then order else order + [p],
              grouped[p := (if p in grouped then grouped[p] else []) + [edits[n]]])
  {
  }

  method GroupByPath(edits: seq<Edit>) returns (r: Result<(seq<string>, map<string, seq<Edit>>), PatchError>)
    ensures FirstBad(edits, 0).Some? ==> r == Err(BadRange(FirstBad(edits, 0).value))
    ensures FirstBad(edits, 0).None? ==> r.Ok? && r.value.0 == Paths(edits)
    ensures r.Ok? ==> forall p :: p in r.value.0 ==> p in r.value.1 && r.value.1[p] == EditsOf(edits, p)
  {
    hide *;
    var order: seq<string> := [];
    var grouped: map<string, seq<Edit>> := map[];
    NothingGrouped(edits);
    for i := 0 to |edits|
      invariant Grouped(edits, i, order, grouped)
      invariant FirstBad(edits, i) == FirstBad(edits, 0)
    {
      var edit := edits[i];
      FirstBadStep(edits, i);
      if edit.endLine < edit.startLine {
        return Err(BadRange(edit.path));
      }
      GroupStep(edits, i, order, grouped);
      var before := if edit.path in grouped then grouped[edit.path] else [];
      if edit.path !in grouped {
        order := order + [edit.path];
      }
      grouped := grouped[edit.path := before + [edit]];
    }
    AllGrouped(edits, order, grouped);
    FirstBadEnd(edits);
    r := Ok((order, grouped));
  }

  lemma NothingGrouped(edits: seq<Edit>)
    ensures Grouped(edits, 0, [], map[])
  {
  }

  lemma AllGrouped(edits: seq<Edit>, order: seq<string>, grouped: map<string, seq<Edit>>)
    requires Grouped(edits, |edits|, order, grouped)
    ensures order == Paths(edits) && forall p :: p in order ==> p in grouped && grouped[p] == EditsOf(edits, p)
  {
    hide PathsUpTo, EditsUpTo;
  }

  lemma FirstBadStep(edits: seq<Edit>, i: nat)
    requires i < |edits|
    ensures FirstBad(edits, i)
            == if edits[i].endLine < edits[i].startLine then Some(edits[i].path) else FirstBad(edits, i + 1)
  {
  }

  lemma FirstBadEnd(edits: seq<Edit>)
    ensures FirstBad(edits, |edits|) == None
  {
  }

  method PatchFile(path: string, fileEdits: seq<Edit>, fs: ScopedFileSystem) returns (error: Option<PatchError>)
    requires WellFormed(fileEdits)
    modifies fs
    ensures (fs.disk, error) == PatchPath(old(fs.disk), path, fileEdits)
  {
    var current, _ := fs.Read(path);
    if current.None? {
      return Some(PatchError.Unreadable(path));
    }
    var lines := SpliceEdits(current.value, fileEdits);
    if lines.None? {
      return Some(OutOfRange(path));
    }
    var stored := fs.Write(path, Join(lines.value));
    error := if stored then None else Some(WriteFailed(path));
  }

  method Apply(edits: seq<Edit>, fs: ScopedFileSystem) returns (r: Result<seq<string>, PatchError>)
    requires forall k :: 0 <= k < |edits| ==> 1 <= edits[k].startLine && 1 <= edits[k].endLine
    modifies fs
    ensures FirstBad(edits, 0).Some? ==> fs.disk == old(fs.disk) && r == Err(BadRange(FirstBad(edits, 0).value))
    ensures FirstBad(edits, 0).None? ==> WellFormed(edits)
    ensures FirstBad(edits, 0).None? ==>
      var run := PatchPaths(old(fs.disk), edits, Paths(edits), 0);
      fs.disk == run.0 && r == if run.2.Some? then Err(run.2.value) else Ok(Paths(edits))
  {
    hide PatchPath, SortDescending, EditsOf, Paths;
    var groups := GroupByPath(edits);
    if groups.Err? {
      return Err(groups.error);
    }
    assert WellFormed(edits);
    var (order, grouped) := groups.value;
    var written: seq<string> := [];
    for i := 0 to |order|
      invariant written == order[..i]
      invariant PatchPaths(fs.disk, edits, order, i) == PatchPaths(old(fs.disk), edits, order, 0)
    {
      var path := order[i];
      assert path in order;
      var error := PatchFile(path, grouped[path], fs);
      if error.Some? {
        return Err(error.value);
      }
      written := written + [path];
    }
    assert order[..|order|] == order;
    r := Ok(written);
  }

  // ---- what the grouping gives

  /** `picked` are the edits of the first n that name the path, in the order given: the k-th is edit at[k]. */
  predicate Picks(edits: seq<Edit>, n: nat, path: string, picked: seq<Edit>, at: seq<nat>) {
    && |at| == |picked|
    && (forall k: nat :: k < |at| ==>
          at[k] < n && at[k] < |edits| && edits[at[k]].path == path && picked[k] == edits[at[k]])
    && (forall j: nat, k: nat :: j < k < |at| ==> at[j] < at[k])
    && (forall i: nat :: i < n && i < |edits| && edits[i].path == path ==> i in at)
  }

  lemma PicksStep(edits: seq<Edit>, n: nat, path: string, picked: seq<Edit>, at: seq<nat>)
    requires n < |edits| && Picks(edits, n, path, picked, at)
    ensures edits[n].path == path ==> Picks(edits, n + 1, path, picked + [edits[n]], at + [n])
    ensures edits[n].path != path ==> Picks(edits, n + 1, path, picked, at)
  {
    forall i: nat | i < n + 1 && edits[i].path == path ensures i in at + [n] {
      if i == n {
        assert (at + [n])[|at|] == n;
      }
    }
  }

  lemma NothingPicked(edits: seq<Edit>, path: string)
    ensures Picks(edits, 0, path, EditsUpTo(edits, 0, path), [])
  {
  }

  lemma EditsUpToStep(edits: seq<Edit>, n: nat, path: string)
    requires n < |edits|
    ensures edits[n].path == path ==> EditsUpTo(edits, n + 1, path) == EditsUpTo(edits, n, path) + [edits[n]]
    ensures edits[n].path != path ==> EditsUpTo(edits, n + 1, path) == EditsUpTo(edits, n, path)
  {
  }

  lemma {:induction false} EditsKeepTheirOrder(edits: seq<Edit>, n: nat, path: string) returns (at: seq<nat>)
    requires n <= |edits|
    ensures Picks(edits, n, path, EditsUpTo(edits, n, path), at)
  {
    hide *;
    if n == 0 {
      at := [];
      NothingPicked(edits, path);
    } else {
      var before := EditsKeepTheirOrder(edits, n - 1, path);
      PicksStep(edits, n - 1, path, EditsUpTo(edits, n - 1, path), before);
      at := if edits[n - 1].path == path then before + [n - 1] else before;
      EditsUpToStep(edits, n - 1, path);
    }
  }

  /** The paths come in order of first appearance: path j is named before path k is for the first time. */
  lemma {:induction false} PathsByFirstAppearance(edits: seq<Edit>, n: nat, j: nat, k: nat) returns (first: nat)
    requires n <= |edits| && j < k < |PathsUpTo(edits, n)|
    ensures first < n && edits[first].path == PathsUpTo(edits, n)[j]
    ensures forall i :: 0 <= i <= first ==> edits[i].path != PathsUpTo(edits, n)[k]
  {
    var before := PathsUpTo(edits, n - 1);
    if k < |before| {
      first := PathsByFirstAppearance(edits, n - 1, j, k);
    } else {
      assert before[j] in before;
      first :| 0 <= first < n - 1 && edits[first].path == before[j];
    }
  }

  // ---- each file is patched whole or not at all

  lemma PatchPathLocal(disk: Disk, path: string, fileEdits: seq<Edit>, other: string)
    requires WellFormed(fileEdits) && other != path
    ensures Lookup(PatchPath(disk, path, fileEdits).0, other) == Lookup(disk, other)
    ensures ReadFile(PatchPath(disk, path, fileEdits).0, other) == ReadFile(disk, other)
  {
    hide SpliceAll;
  }

  lemma {:induction false} OtherPathsUntouched(disk: Disk, edits: seq<Edit>, paths: seq<string>, i: nat, other: string)
    requires WellFormed(edits) && i <= |paths| && other !in paths[i..]
    ensures Lookup(PatchPaths(disk, edits, paths, i).0, other) == Lookup(disk, other)
    decreases |paths| - i
  {
    hide PatchPath, SortDescending, WellFormed, SpliceAll, EditsOf;
    if i < |paths| {
      assert paths[i..] == [paths[i]] + paths[i + 1..];
      PatchOnePathLocal(disk, edits, paths[i], other);
      OtherPathsUntouched(PatchPath(disk, paths[i], EditsOf(edits, paths[i])).0, edits, paths, i + 1, other);
    }
  }

  lemma PatchOnePathLocal(disk: Disk, edits: seq<Edit>, path: string, other: string)
    requires WellFormed(edits) && other != path
    ensures var next := PatchPath(disk, path, EditsOf(edits, path)).0;
      Lookup(next, other) == Lookup(disk, other) && ReadFile(next, other) == ReadFile(disk, other)
  {
    PatchPathLocal(disk, path, EditsOf(edits, path), other);
  }

  /** The text a file's edits make of it, all ranges replaced at once. */
  function Patched(content: string, fileEdits: seq<Edit>): string
    requires WellFormed(fileEdits)
  {
    Join(Rebuild(SplitLines(content), fileEdits, 0))
  }

  predicate Targets(disk: Disk, edits: seq<Edit>, path: string) {
    && ReadFile(disk, path).Some?
    && InRange(SplitLines(ReadFile(disk, path).value), EditsOf(edits, path))
  }

  /** One file: written with all its ranges replaced at once, or left alone with an error. */
  lemma PatchPathOutcome(disk: Disk, path: string, fileEdits: seq<Edit>)
    requires WellFormed(fileEdits) && Disjoint(fileEdits)
    ensures var (next, error) := PatchPath(disk, path, fileEdits);
      var content := ReadFile(disk, path);
      && (error.None? ==> content.Some? && InRange(SplitLines(content.value), fileEdits)
                          && Lookup(next, path) == Some(Text(Patched(content.value, fileEdits))))
      && (content.None? <==> error == Some(PatchError.Unreadable(path)))
      && (content.Some? && !InRange(SplitLines(content.value), fileEdits) <==> error == Some(OutOfRange(path)))
      && (error.Some? && !error.value.WriteFailed? ==> next == disk)
      && (error.Some? ==> error.value.path == path && !error.value.BadRange?)
      && (error.None? <==> content.Some? && InRange(SplitLines(content.value), fileEdits) && Stores(disk, 0))
  {
    var content := ReadFile(disk, path);
    if content.Some? {
      var original := SplitLines(content.value);
      if InRange(original, fileEdits) {
        SplicesAreSimultaneous(original, fileEdits);
      } else {
        OutOfRangeFails(original, fileEdits);
      }
    }
    hide SplitLines, SortDescending, SpliceAll, Rebuild, InRange, Join;
  }

  lemma PatchUsesOneOutcome(disk: Disk, path: string, fileEdits: seq<Edit>)
    requires WellFormed(fileEdits) && PatchPath(disk, path, fileEdits).1.None?
    ensures forall k: nat :: Stores(PatchPath(disk, path, fileEdits).0, k) == Stores(disk, k + 1)
  {
    hide SpliceAll, SplitLines, SortDescending, Join, ReadFile;
  }

  /** Over a whole batch: the files before the failing one hold exactly their patched text,
      those after it are untouched, and so is the failing one unless its write broke off.
      A file fails when it cannot be read, when an edit lies outside it, or when its write fails. */
  lemma {:induction false} PatchesAPrefix(disk: Disk, edits: seq<Edit>, paths: seq<string>, i: nat, k: nat)
    requires WellFormed(edits) && Distinct(paths) && i <= k < |paths|
    requires Disjoint(EditsOf(edits, paths[k]))
    ensures var (last, n, error) := PatchPaths(disk, edits, paths, i);
      var path := paths[k];
      && (k < n ==> Targets(disk, edits, path) && Stores(disk, k - i)
                    && Lookup(last, path) == Some(Text(Patched(ReadFile(disk, path).value, EditsOf(edits, path)))))
      && (k > n || (k == n && !error.value.WriteFailed?) ==> Lookup(last, path) == Lookup(disk, path))
      && (k == n ==>
            && !(Targets(disk, edits, path) && Stores(disk, k - i))
            && error == Some(if ReadFile(disk, path).None? then PatchError.Unreadable(path)
                             else if !Targets(disk, edits, path) then OutOfRange(path) else WriteFailed(path)))
    decreases |paths| - i
  {
    hide PatchPath, SortDescending, Disjoint, Patched, SplitLines, InRange, EditsOf, Stores;
    var path := paths[i];
    var fileEdits := EditsOf(edits, path);
    var (next, error) := PatchPath(disk, path, fileEdits);
    if k == i {
      PatchPathOutcome(disk, path, fileEdits);
      if error.None? {
        OtherPathsUntouched(next, edits, paths, i + 1, path);
      }
    } else {
      PatchOnePathLocal(disk, edits, path, paths[k]);
      if error.None? {
        PatchUsesOneOutcome(disk, path, fileEdits);
        PatchesAPrefix(next, edits, paths, i + 1, k);
      }
    }
  }

  /** The same, said of a whole batch in the order its paths first appear. */
  lemma BatchPatchesAPrefix(disk: Disk, edits: seq<Edit>, k: nat)
    requires WellFormed(edits) && k < |Paths(edits)| && Disjoint(EditsOf(edits, Paths(edits)[k]))
    ensures var (last, n, error) := PatchPaths(disk, edits, Paths(edits), 0);
      var path := Paths(edits)[k];
      && (k < n ==> Targets(disk, edits, path) && Stores(disk, k)
                    && Lookup(last, path) == Some(Text(Patched(ReadFile(disk, path).value, EditsOf(edits, path)))))
      && (k > n || (k == n && !error.value.WriteFailed?) ==> Lookup(last, path) == Lookup(disk, path))
      && (k == n ==>
            && !(Targets(disk, edits, path) && Stores(disk, k))
            && error == Some(if ReadFile(disk, path).None? then PatchError.Unreadable(path)
                             else if !Targets(disk, edits, path) then OutOfRange(path) else WriteFailed(path)))
  {
    PatchesAPrefix(disk, edits, Paths(edits), 0, k);
  }
}
