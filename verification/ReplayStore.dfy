/**
 The write-behind replay store: one SQLite connection writes, another reads what is
 committed. Step rows are committed in batches, everything else at once. The store is
 proved against the plain log of the statements it was given: what the reader sees,
 and what survives a crash.
 */
module ReplayStore {
  import opened Common
  import opened PyStrings

  // ------------------------------------------------------------- the database

  datatype RunRow = RunRow(tenant: string, goal: string, startUrl: Option<string>, maxSteps: int, status: string,
                           startedAt: real, completedAt: Option<real>, finalUrl: Option<string>,
                           error: Option<string>, extracted: Option<string>)

  datatype StepRow = StepRow(ts: real, action: string, reasoning: string, url: string,
                             screenshot: Option<string>, extracted: string)

  datatype Db = Db(runs: map<string, RunRow>, steps: map<(string, int), StepRow>)

  const EMPTY := Db(map[], map[])

  datatype Statement =
    | InsertRun(id: string, row: RunRow)
    | InsertStep(id: string, index: int, step: StepRow)
    | FinishRun(id: string, success: bool, at: real, finalUrl: string, error: Option<string>, extracted: string)
    | DeleteOlder(cutoff: real)

  function OlderThan(db: Db, cutoff: real): (ids: set<string>) {
    set id | id in db.runs && db.runs[id].startedAt < cutoff
  }

  function Execute(db: Db, st: Statement): (r: Db) {
    match st
    case InsertRun(id, row) => db.(runs := db.runs[id := row])
    case InsertStep(id, index, row) => db.(steps := db.steps[(id, index) := row])
    case FinishRun(id, success, at, url, error, data) =>
      if id !in db.runs then db
      else db.(runs := db.runs[id := db.runs[id].(status := if success then "completed" else "failed",
                                                  completedAt := Some(at), finalUrl := Some(url),
                                                  error := error, extracted := Some(data))])
    case DeleteOlder(cutoff) =>
      var ids := OlderThan(db, cutoff);
      Db(map id | id in db.runs && id !in ids :: db.runs[id],
         map k | k in db.steps && k.0 !in ids :: db.steps[k])
  }

  /** The plain map of all writes in a log. */
  function Replay(log: seq<Statement>): (db: Db) {
    if log == [] then EMPTY else Execute(Replay(log[..|log| - 1]), log[|log| - 1])
  }

  // ------------------------------------------------------- the store as a value

  const STEP_COMMIT_BATCH := 5

  /** `log` and `durable` record history: every statement so far, and how many are committed. */
  datatype State = State(committed: Db, working: Db, pending: nat, log: seq<Statement>, durable: nat)

  const INITIAL := State(EMPTY, EMPTY, 0, [], 0)

  function Write(s: State, st: Statement): (r: State) {
    s.(working := Execute(s.working, st), log := s.log + [st])
  }

  function Commit(s: State): (r: State) {
    s.(committed := s.working, durable := |s.log|)
  }

  datatype Op = Start(id: string, row: RunRow) | AddStep(id: string, index: int, step: StepRow)
    | Finish(id: string, success: bool, at: real, finalUrl: string, error: Option<string>, extracted: string)
    | Prune(cutoff: real) | Flush | Crash

  /** The statements that are committed. */
  function Durable(s: State): (log: seq<Statement>) {
    if s.durable <= |s.log| then s.log[..s.durable] else s.log
  }

  /** A crash, or any end of the process, and a new store on the same file: what was not committed
      is gone. */
  function Reopened(s: State): (r: State) {
    State(s.committed, s.committed, 0, Durable(s), |Durable(s)|)
  }

  function Step(s: State, op: Op): (r: State) {
    match op
    case Start(id, row) => Commit(Write(s, InsertRun(id, row))).(pending := 0)
    case AddStep(id, index, row) =>
      var w := Write(s, InsertStep(id, index, row)).(pending := s.pending + 1);
      if w.pending >= STEP_COMMIT_BATCH then Commit(w).(pending := 0) else w
    case Finish(id, success, at, url, error, data) =>
      Commit(Write(s, FinishRun(id, success, at, url, error, data))).(pending := 0)
    case Prune(cutoff) =>
      if OlderThan(s.working, cutoff) == {} then s else Commit(Write(s, DeleteOlder(cutoff)))
    case Flush => if s.pending > 0 then Commit(s).(pending := 0) else s
    case Crash => Reopened(s)
  }

  function Run(ops: seq<Op>): (s: State) {
    if ops == [] then INITIAL else Step(Run(ops[..|ops| - 1]), ops[|ops| - 1])
  }

  function Uncommitted(s: State): int { |s.log| - s.durable }

  predicate Inv(s: State) {
    && s.durable <= |s.log|
    && s.committed == Replay(s.log[..s.durable])
    && s.working == Replay(s.log)
    && |s.log| - s.durable <= s.pending < STEP_COMMIT_BATCH
    && forall k :: s.durable <= k < |s.log| ==> s.log[k].InsertStep?
  }

  lemma WriteLogs(s: State, st: Statement)
    requires s.working == Replay(s.log)
    ensures Write(s, st).working == Replay(Write(s, st).log)
  {
    assert (s.log + [st])[..|s.log|] == s.log;
  }

  lemma StepKeepsInv(s: State, op: Op)
    requires Inv(s)
    ensures Inv(Step(s, op))
  {
    hide Execute, Replay;
    assert s.log[..|s.log|] == s.log;
    match op {
      case Start(id, row) =>
        WriteLogs(s, InsertRun(id, row));
        assert Step(s, op).log[..|s.log| + 1] == Step(s, op).log;
      case AddStep(id, index, row) =>
        WriteLogs(s, InsertStep(id, index, row));
        var log := s.log + [InsertStep(id, index, row)];
        assert log[..s.durable] == s.log[..s.durable];
        assert log[..|log|] == log;
      case Finish(id, success, at, url, error, data) =>
        WriteLogs(s, FinishRun(id, success, at, url, error, data));
        assert Step(s, op).log[..|s.log| + 1] == Step(s, op).log;
      case Prune(cutoff) =>
        WriteLogs(s, DeleteOlder(cutoff));
        var log := s.log + [DeleteOlder(cutoff)];
        assert log[..|log|] == log;
      case Flush =>
      case Crash =>
        var log := s.log[..s.durable];
        assert log[..|log|] == log;
    }
  }

  /** Over any sequence of calls: the committed database is the log minus at most four
      trailing step inserts, and the counter never undercounts them. */
  lemma {:induction false} RunInv(ops: seq<Op>)
    ensures Inv(Run(ops))
  {
    if ops != [] {
      RunInv(ops[..|ops| - 1]);
      StepKeepsInv(Run(ops[..|ops| - 1]), ops[|ops| - 1]);
    } else {
      assert INITIAL.log[..0] == [];
    }
  }

  lemma {:induction false} StepInsertsKeepRuns(log: seq<Statement>, n: nat)
    requires n <= |log| && forall k :: n <= k < |log| ==> log[k].InsertStep?
    ensures Replay(log).runs == Replay(log[..n]).runs
  {
    if n < |log| {
      var front := log[..|log| - 1];
      StepInsertsKeepRuns(front, n);
      assert front[..n] == log[..n];
    } else {
      assert log[..n] == log;
    }
  }

  /** A crash after any calls and crashes loses at most four writes, all of them steps: every run
      row, every finish and every pruning survives, and the store that is opened next has exactly
      what is left. */
  lemma CrashLosesOnlySteps(ops: seq<Op>)
    ensures var s, next := Run(ops), Run(ops + [Crash]);
      && |s.log| - 4 <= s.durable <= |s.log|
      && (forall k :: s.durable <= k < |s.log| ==> s.log[k].InsertStep?)
      && next.log == s.log[..s.durable] && next.durable == |next.log| && next.pending == 0
      && next.working == next.committed == s.committed == Replay(s.log[..s.durable])
      && next.working.runs == Replay(s.log).runs
  {
    hide Replay;
    RunInv(ops);
    RunSnoc(ops, Crash);
    StepInsertsKeepRuns(Run(ops).log, Run(ops).durable);
  }

  /** Right after a start, a finish, a flush or a pruning that removed something, nothing is at risk. */
  lemma CommittingOps(ops: seq<Op>, op: Op)
    requires op.Start? || op.Finish? || op.Flush? || (op.Prune? && OlderThan(Run(ops).working, op.cutoff) != {})
    ensures var s := Step(Run(ops), op); s.durable == |s.log| && s.committed == Replay(s.log)
  {
    RunInv(ops);
    StepKeepsInv(Run(ops), op);
    var s := Step(Run(ops), op);
    assert s.log[..|s.log|] == s.log;
  }

  /** A pruning that removes rows commits but leaves the counter, so the counter equals the
      number of uncommitted writes afterwards exactly when it was zero before. */
  lemma PruneLeavesCounter(ops: seq<Op>, cutoff: real)
    requires OlderThan(Run(ops).working, cutoff) != {}
    ensures var s := Step(Run(ops), Prune(cutoff));
      s.pending == Uncommitted(s) <==> Run(ops).pending == 0
  {
  }

  /** Such a run: one run with one uncommitted step, pruned away. The counter still says one. */
  lemma CounterGoesStale(id: string, row: RunRow, step: StepRow, cutoff: real)
    requires row.startedAt < cutoff
    ensures var before := Run([Start(id, row), AddStep(id, 0, step)]);
      var s := Step(before, Prune(cutoff));
      && before.pending == Uncommitted(before) == 1 && OlderThan(before.working, cutoff) == {id}
      && s.pending == 1 && Uncommitted(s) == 0
  {
    hide Replay;
    var one, two := [Start(id, row)], [Start(id, row), AddStep(id, 0, step)];
    assert one[..0] == [] && two[..1] == one;
    var first := Step(INITIAL, Start(id, row));
    assert Run(one) == first && first.working.runs == map[id := row];
    var before := Step(first, AddStep(id, 0, step));
    assert Run(two) == before && before.working.runs == map[id := row];
    assert OlderThan(before.working, cutoff) == {id};
  }

  lemma RunSnoc(ops: seq<Op>, op: Op)
    ensures Run(ops + [op]) == Step(Run(ops), op)
  {
    hide Step;
    assert (ops + [op])[..|ops|] == ops;
  }

  /** What is committed stays committed, crash or not. */
  lemma StepMonotone(s: State, op: Op)
    requires Inv(s)
    ensures s.durable <= Step(s, op).durable && s.log[..s.durable] <= Step(s, op).log
  {
    hide Replay, Execute;
  }

  lemma FlushCommits(s: State)
    requires Inv(s)
    ensures Step(s, Flush).durable == |s.log| && Step(s, Flush).log == s.log
  {
    hide Replay, Execute;
  }

  /** A reader that flushed sees at least every write made before the flush, whatever other calls
      and crashes come in between. */
  lemma {:induction false} FlushedReadIsCurrent(before: seq<Op>, after: seq<Op>)
    ensures var s0, s1 := Run(before), Run(before + [Flush] + after);
      && |s0.log| <= s1.durable <= |s1.log| && s0.log <= s1.log
      && s1.committed == Replay(s1.log[..s1.durable])
  {
    hide Run, Step, Replay;
    RunInv(before);
    RunInv(before + [Flush] + after);
    if after == [] {
      RunSnoc(before, Flush);
      FlushCommits(Run(before));
      assert before + [Flush] + after == before + [Flush];
    } else {
      var front, op := after[..|after| - 1], after[|after| - 1];
      var ops := before + [Flush] + front;
      FlushedReadIsCurrent(before, front);
      RunInv(ops);
      RunSnoc(ops, op);
      StepMonotone(Run(ops), op);
      assert before + [Flush] + after == ops + [op];
    }
  }

  /** Pruning removes exactly the runs started before the cutoff, and their steps. */
  lemma PruneIsExact(s: State, cutoff: real)
    requires Inv(s)
    ensures var old_, new_ := s.working, Step(s, Prune(cutoff)).working;
      && (forall id :: id in new_.runs <==> id in old_.runs && old_.runs[id].startedAt >= cutoff)
      && (forall id :: id in new_.runs ==> new_.runs[id] == old_.runs[id])
      && (forall k :: k in new_.steps <==> k in old_.steps && !(k.0 in old_.runs && old_.runs[k.0].startedAt < cutoff))
      && (forall k :: k in new_.steps ==> new_.steps[k] == old_.steps[k])
  {
    var ids := OlderThan(s.working, cutoff);
    if ids == {} {
      forall id | id in s.working.runs ensures s.working.runs[id].startedAt >= cutoff {
        assert id !in ids;
      }
    }
  }

  // ------------------------------------------------------- what the tables hold

  /** The latest of the first n statements that inserts the run, or -1. */
  function LastStart(log: seq<Statement>, n: nat, id: string): (i: int)
    requires n <= |log|
    ensures -1 <= i < n && (i >= 0 ==> log[i].InsertRun? && log[i].id == id)
    ensures forall j :: i < j < n ==> !(log[j].InsertRun? && log[j].id == id)
  {
    if n == 0 then -1 else if log[n - 1].InsertRun? && log[n - 1].id == id then n - 1 else LastStart(log, n - 1, id)
  }

  /** The latest of the first n statements that finishes the run, or -1. */
  function LastFinish(log: seq<Statement>, n: nat, id: string): (i: int)
    requires n <= |log|
    ensures -1 <= i < n && (i >= 0 ==> log[i].FinishRun? && log[i].id == id)
    ensures forall j :: i < j < n ==> !(log[j].FinishRun? && log[j].id == id)
  {
    if n == 0 then -1 else if log[n - 1].FinishRun? && log[n - 1].id == id then n - 1 else LastFinish(log, n - 1, id)
  }

  /** The latest of the first n statements that inserts the step, or -1. */
  function LastStep(log: seq<Statement>, n: nat, id: string, index: int): (i: int)
    requires n <= |log|
    ensures -1 <= i < n && (i >= 0 ==> log[i].InsertStep? && log[i].id == id && log[i].index == index)
    ensures forall j :: i < j < n ==> !(log[j].InsertStep? && log[j].id == id && log[j].index == index)
  {
    if n == 0 then -1
    else if log[n - 1].InsertStep? && log[n - 1].id == id && log[n - 1].index == index then n - 1
    else LastStep(log, n - 1, id, index)
  }

  /** A pruning between statements i and n whose cutoff is later than `at`. */
  predicate CutAfter(log: seq<Statement>, i: int, n: nat, at: real)
    requires -1 <= i && n <= |log|
  {
    exists j :: i < j < n && log[j].DeleteOlder? && at < log[j].cutoff
  }

  /** The row a run should have after n statements: that of its latest start, unless it was pruned
      since, with what the latest finish after that start says. */
  function RunAfter(log: seq<Statement>, n: nat, id: string): (r: Option<RunRow>)
    requires n <= |log|
  {
    var i, f := LastStart(log, n, id), LastFinish(log, n, id);
    if i < 0 || CutAfter(log, i, n, log[i].row.startedAt) then None
    else if f < i then Some(log[i].row)
    else
      Some(RunRow(log[i].row.tenant, log[i].row.goal, log[i].row.startUrl, log[i].row.maxSteps,
                  if log[f].success then "completed" else "failed", log[i].row.startedAt, Some(log[f].at),
                  Some(log[f].finalUrl), log[f].error, Some(log[f].extracted)))
  }

  /** A pruning between statements i and n that takes the run away. */
  predicate StepCut(log: seq<Statement>, i: int, n: nat, id: string)
    requires -1 <= i && n <= |log|
  {
    exists j: nat :: i < j < n && log[j].DeleteOlder? && RunAfter(log, j, id).Some?
                     && RunAfter(log, j, id).value.startedAt < log[j].cutoff
  }

  /** The row a step should have: that of its latest insert, unless its run was pruned since. */
  function StepAfter(log: seq<Statement>, n: nat, id: string, index: int): (r: Option<StepRow>)
    requires n <= |log|
  {
    var i := LastStep(log, n, id, index);
    if i < 0 || StepCut(log, i, n, id) then None else Some(log[i].step)
  }

  lemma CutStep(log: seq<Statement>, i: int, n: nat, at: real)
    requires -1 <= i < n <= |log| && 0 < n
    ensures CutAfter(log, i, n, at)
            <==> CutAfter(log, i, n - 1, at) || (i < n - 1 && log[n - 1].DeleteOlder? && at < log[n - 1].cutoff)
  {
  }

  lemma ReplayStep(log: seq<Statement>, n: nat)
    requires 0 < n <= |log|
    ensures Replay(log[..n]) == Execute(Replay(log[..n - 1]), log[n - 1])
  {
    hide Execute;
    assert log[..n][..n - 1] == log[..n - 1];
  }

  /** Over any log, a run is in the table exactly when its latest start has not been pruned since,
      and its row is then that start's with the values of the latest finish after it. */
  lemma {:induction false} RunsAreExactly(log: seq<Statement>, n: nat, id: string)
    requires n <= |log|
    ensures var db := Replay(log[..n]);
      RunAfter(log, n, id) == if id in db.runs then Some(db.runs[id]) else None
  {
    hide Replay, CutAfter;
    if n == 0 {
      NothingReplayed(log);
    } else {
      RunsAreExactly(log, n - 1, id);
      ReplayStep(log, n);
      var i := LastStart(log, n, id);
      if 0 <= i {
        CutStep(log, i, n, log[i].row.startedAt);
      }
      if i == n - 1 {
        NotCutYet(log, i, n, log[i].row.startedAt);
      }
    }
  }

  lemma NothingReplayed(log: seq<Statement>)
    ensures Replay(log[..0]) == EMPTY
  {
  }

  lemma NotCutYet(log: seq<Statement>, i: int, n: nat, at: real)
    requires 0 <= i && n == i + 1 <= |log|
    ensures !CutAfter(log, i, n, at)
  {
  }

  lemma StepCutStep(log: seq<Statement>, i: int, n: nat, id: string)
    requires -1 <= i < n <= |log| && 0 < n
    ensures StepCut(log, i, n, id)
            <==> StepCut(log, i, n - 1, id)
                 || (i < n - 1 && log[n - 1].DeleteOlder? && RunAfter(log, n - 1, id).Some?
                     && RunAfter(log, n - 1, id).value.startedAt < log[n - 1].cutoff)
  {
    hide RunAfter;
  }

  /** A step is in the table exactly when its run has not been pruned since its latest insert. */
  lemma {:induction false} StepsAreExactly(log: seq<Statement>, n: nat, id: string, index: int)
    requires n <= |log|
    ensures var db := Replay(log[..n]);
      StepAfter(log, n, id, index) == if (id, index) in db.steps then Some(db.steps[(id, index)]) else None
  {
    hide Replay, RunAfter, StepCut;
    if n == 0 {
      NothingReplayed(log);
    } else {
      StepsAreExactly(log, n - 1, id, index);
      RunsAreExactly(log, n - 1, id);
      ReplayStep(log, n);
      var i := LastStep(log, n, id, index);
      if 0 <= i {
        StepCutStep(log, i, n, id);
      }
      if i == n - 1 {
        StepNotCutYet(log, i, n, id);
      }
    }
  }

  lemma StepNotCutYet(log: seq<Statement>, i: int, n: nat, id: string)
    requires 0 <= i && n == i + 1 <= |log|
    ensures !StepCut(log, i, n, id)
  {
    hide RunAfter;
  }

  /** The rows after a finish: none is added or removed, the finished one is as said, the others stay. */
  ghost predicate Finished(old_: Db, new_: Db, id: string, success: bool, at: real, url: string, error: Option<string>,
                           data: string) {
    && new_.steps == old_.steps && new_.runs.Keys == old_.runs.Keys
    && (forall r :: r in old_.runs && r != id ==> new_.runs[r] == old_.runs[r])
    && (id in old_.runs ==>
          var a, b := old_.runs[id], new_.runs[id];
          && b.status == (if success then "completed" else "failed") && b.completedAt == Some(at)
          && b.finalUrl == Some(url) && b.error == error && b.extracted == Some(data)
          && b.tenant == a.tenant && b.goal == a.goal && b.startUrl == a.startUrl && b.maxSteps == a.maxSteps
          && b.startedAt == a.startedAt)
  }

  /** Finishing a run that is there sets its status, end, final URL, error and data, and nothing
      else; finishing one that is not there changes nothing. */
  lemma FinishIsExact(s: State, id: string, success: bool, at: real, url: string, error: Option<string>, data: string)
    ensures Finished(s.working, Step(s, Finish(id, success, at, url, error, data)).working, id, success, at, url, error,
                     data)
  {
    hide Replay;
  }

  /** A step insert is committed at once only when it is the fifth pending one. */
  lemma StepsAreBatched(s: State, id: string, index: int, row: StepRow)
    requires Inv(s)
    ensures var t := Step(s, AddStep(id, index, row));
      && t.log == s.log + [InsertStep(id, index, row)]
      && (s.pending < 4 ==> t.committed == s.committed && t.durable == s.durable && t.pending == s.pending + 1)
      && (s.pending == 4 ==> t.committed == t.working && t.durable == |t.log| && t.pending == 0)
  {
    hide Replay, Execute;
  }

  // ------------------------------------------------------- screenshots at rest

  /** A Fernet key: encryption may pick any token (the nonce), decryption reads every one of
      them back, and a token is longer than what it hides. */
  datatype Fernet = Fernet(encrypt: (string, nat) -> string, decrypt: string -> Option<string>)

  ghost predicate Sound(f: Fernet) {
    && (forall x, nonce :: f.decrypt(f.encrypt(x, nonce)) == Some(x))
    && (forall t :: f.decrypt(t).Some? ==> |f.decrypt(t).value| < |t|)
  }

  const ENCRYPTED_PREFIX := "enc:"

  function EncryptScreenshot(key: Option<Fernet>, value: Option<string>, nonce: nat): (r: Option<string>) {
    if value.None? || key.None? then value
    else if StartsWith(value.value, ENCRYPTED_PREFIX) then value
    else Some(ENCRYPTED_PREFIX + key.value.encrypt(value.value, nonce))
  }

  function DecryptScreenshot(key: Option<Fernet>, value: Option<string>): (r: Option<string>) {
    if value.None? || !StartsWith(value.value, ENCRYPTED_PREFIX) then value
    else if key.None? then None
    else key.value.decrypt(value.value[4..])
  }

  /** A stored screenshot reads back as it was given exactly when it does not itself start
      with the marker of encrypted values. */
  lemma ScreenshotRoundTrip(key: Option<Fernet>, value: string, nonce: nat)
    requires key.Some? ==> Sound(key.value)
    ensures DecryptScreenshot(key, EncryptScreenshot(key, Some(value), nonce)) == Some(value)
       <==> !StartsWith(value, ENCRYPTED_PREFIX)
  {
    if key.Some? && !StartsWith(value, ENCRYPTED_PREFIX) {
      var token := key.value.encrypt(value, nonce);
      var stored := ENCRYPTED_PREFIX + token;
      assert stored[..4] == ENCRYPTED_PREFIX && stored[4..] == token;
      assert key.value.decrypt(key.value.encrypt(value, nonce)) == Some(value);
    }
  }

  /** With a key everything stored carries the marker; without one it is stored as given. A read shows
      no text that carries the marker as it is stored: it shows what the key makes of it, or nothing. */
  lemma EncryptedAtRest(key: Option<Fernet>, value: Option<string>, nonce: nat)
    ensures var stored := EncryptScreenshot(key, value, nonce);
      key.Some? && value.Some? ==> stored.Some? && StartsWith(stored.value, ENCRYPTED_PREFIX)
    ensures key.None? || value.None? ==> EncryptScreenshot(key, value, nonce) == value
    ensures var shown := DecryptScreenshot(key, value);
      value.Some? && StartsWith(value.value, ENCRYPTED_PREFIX) ==>
        shown == if key.None? then None else key.value.decrypt(value.value[4..])
  {
  }
}
