/**
 The tracker of recent run tasks: an ordered dictionary whose last key is the latest touched,
 cut to a fixed number of runs whenever one starts.
 */
module RunTracker {
  import opened Common

  datatype Status = Running | Completed | Failed

  datatype RunTask = RunTask(
    runId: string, status: Status, goal: string, startUrl: Option<string>, maxSteps: int,
    extractFields: seq<string>, startedAt: real, completedAt: Option<real>, stepsTaken: int,
    currentUrl: string, finalUrl: string, lastAction: Option<string>, lastReasoning: Option<string>,
    extracted: map<string, string>, history: seq<string>, error: Option<string>, screenshot: Option<string>)

  /** What the callers ask for. */
  datatype Op =
    | Start(id: string, goal: string, startUrl: Option<string>, maxSteps: int, extractFields: seq<string>, at: real)
    | Step(id: string, stepsTaken: int, url: string, action: string, reasoning: string, history: seq<string>,
           extracted: map<string, string>, screenshot: Option<string>)
    | Finish(id: string, success: bool, url: string, stepsTaken: int, extracted: map<string, string>,
             history: seq<string>, error: Option<string>, screenshot: Option<string>, at: real)

  function NewTask(op: Op): RunTask
    requires op.Start?
  {
    RunTask(op.id, Running, op.goal, op.startUrl, op.maxSteps, op.extractFields, op.at, None, 0, "", "", None, None,
            map[], [], None, None)
  }

  function Updated(t: RunTask, op: Op): RunTask
    requires !op.Start?
  {
    match op
    case Step(_, stepsTaken, url, action, reasoning, history, extracted, screenshot) =>
      t.(stepsTaken := stepsTaken, currentUrl := url, lastAction := Some(action), lastReasoning := Some(reasoning),
         history := history, extracted := extracted, screenshot := screenshot)
    case Finish(_, success, url, stepsTaken, extracted, history, error, screenshot, at) =>
      t.(status := if success then Completed else Failed, completedAt := Some(at), stepsTaken := stepsTaken,
         currentUrl := url, finalUrl := url, extracted := extracted, history := history, error := error,
         screenshot := screenshot)
  }

  /** The dictionary: its keys in order, and what they hold. */
  datatype Runs = Runs(order: seq<string>, tasks: map<string, RunTask>)

  function Without(order: seq<string>, id: string): (r: seq<string>)
    ensures forall x :: x in r <==> x in order && x != id
  {
    if order == [] then []
    else if order[0] == id then Without(order[1..], id)
    else [order[0]] + Without(order[1..], id)
  }

  function Put(r: Runs, id: string, task: RunTask): Runs {
    Runs(Without(r.order, id) + [id], r.tasks[id := task])
  }

  /** popitem(last=False). */
  function PopFirst(r: Runs): Runs
    requires r.order != []
  {
    Runs(r.order[1..], r.tasks - {r.order[0]})
  }

  /** Drop the oldest runs while there are more than maxRuns; popping an empty dictionary raises. */
  function Trim(r: Runs, maxRuns: int): (res: (Runs, bool))
    decreases |r.order|
  {
    if |r.order| <= maxRuns then (r, true)
    else if r.order == [] then (r, false)
    else Trim(PopFirst(r), maxRuns)
  }

  function Touched(r: Runs, op: Op, maxRuns: int): (res: Runs) {
    if op.Start? then Trim(Put(r, op.id, NewTask(op)), maxRuns).0
    else if op.id in r.tasks then Put(r, op.id, Updated(r.tasks[op.id], op))
    else r
  }

  ghost predicate Keyed(r: Runs) {
    Distinct(r.order) && forall id :: id in r.tasks <==> id in r.order
  }

  // ------------------------------------------------------------- the object

  function Reversed<T>(s: seq<T>): (r: seq<T>)
    ensures |r| == |s| && forall i :: 0 <= i < |s| ==> r[i] == s[|s| - 1 - i]
  {
    if s == [] then [] else Reversed(s[1..]) + [s[0]]
  }

  function TasksOf(r: Runs): (res: seq<RunTask>)
    requires Keyed(r)
  {
    seq(|r.order|, i requires 0 <= i < |r.order| => r.tasks[r.order[i]])
  }

  function Recent(r: Runs, limit: int): (res: seq<RunTask>)
    requires Keyed(r)
  {
    Reversed(SliceFrom(TasksOf(r), -Max(0, limit)))
  }

  class RunTaskTracker {
    const maxRuns: int
    var order: seq<string>
    var tasks: map<string, RunTask>

    ghost function Abs(): Runs
      reads this
    {
      Runs(order, tasks)
    }

    constructor (maxRuns: int)
      ensures this.maxRuns == maxRuns && Abs() == Runs([], map[])
    {
      this.maxRuns := maxRuns;
      order, tasks := [], map[];
    }

    method MoveToEnd(id: string)
      modifies this`order
      ensures order == Without(old(order), id) + [id]
    {
      var kept := [];
      for i := 0 to |order|
        invariant kept + Without(order[i..], id) == Without(order, id)
      {
        if order[i] != id {
          kept := kept + [order[i]];
        }
      }
      order := kept + [id];
    }

    /** None when trimming ran out of runs, which a negative bound makes it do. */
    method StartRun(op: Op) returns (copy: Option<RunTask>)
      requires op.Start?
      modifies this
      ensures Abs() == Touched(old(Abs()), op, maxRuns)
      ensures copy == if Trim(Put(old(Abs()), op.id, NewTask(op)), maxRuns).1 then Some(NewTask(op)) else None
    {
      tasks := tasks[op.id := NewTask(op)];
      MoveToEnd(op.id);
      while |order| > maxRuns
        invariant Trim(Abs(), maxRuns) == Trim(Put(old(Abs()), op.id, NewTask(op)), maxRuns)
        decreases |order|
      {
        if order == [] {
          return None;
        }
        tasks := tasks - {order[0]};
        order := order[1..];
      }
      copy := Some(NewTask(op));
    }

    /** step and finish: an id no longer tracked changes nothing. */
    method Update(op: Op) returns (copy: Option<RunTask>)
      requires !op.Start?
      modifies this
      ensures Abs() == Touched(old(Abs()), op, maxRuns)
      ensures copy == if op.id in old(tasks) then Some(tasks[op.id]) else None
    {
      if op.id !in tasks {
        return None;
      }
      tasks := tasks[op.id := Updated(tasks[op.id], op)];
      MoveToEnd(op.id);
      copy := Some(tasks[op.id]);
    }

    method Latest() returns (copy: Option<RunTask>)
      requires Keyed(Abs())
      ensures copy == if order == [] then None else Some(tasks[order[|order| - 1]])
      ensures copy == var newest := Recent(Abs(), 1); if newest == [] then None else Some(newest[0])
    {
      RecentIsNewest(Abs(), 1);
      if order == [] {
        return None;
      }
      copy := Some(tasks[order[|order| - 1]]);
    }

    method RecentRuns(limit: int) returns (copies: seq<RunTask>)
      requires Keyed(Abs())
      ensures copies == Recent(Abs(), limit)
    {
      var keys, held := order, tasks;
      var values := seq(|keys|, i requires 0 <= i < |keys| && keys[i] in held => held[keys[i]]);
      assert values == TasksOf(Abs());
      var items := SliceFrom(values, -Max(0, limit));
      copies := [];
      for i := 0 to |items|
        invariant copies == Reversed(items[|items| - i..])
      {
        copies := copies + [items[|items| - 1 - i]];
        assert copies == Reversed(items[|items| - 1 - i..]);
      }
      assert items[0..] == items;
    }
  }

  // ------------------------------------------------------------- least recently touched

  /** The position of the latest touch of an id, or -1. */
  function LastTouch(touches: seq<string>, id: string): (p: int)
    ensures -1 <= p < |touches| && (p >= 0 ==> touches[p] == id)
    ensures forall j :: p < j < |touches| ==> touches[j] != id
  {
    if touches == [] then -1
    else if touches[|touches| - 1] == id then |touches| - 1
    else LastTouch(touches[..|touches| - 1], id)
  }

  function Ids(touches: seq<string>): (r: set<string>) {
    set t | t in touches
  }

  predicate Ascending(touches: seq<string>, order: seq<string>) {
    && (forall i :: 0 <= i < |order| ==> order[i] in touches)
    && forall i, j :: 0 <= i < j < |order| ==> LastTouch(touches, order[i]) < LastTouch(touches, order[j])
  }

  /** Every touched id that is not kept was last touched before every kept one. */
  predicate OthersOlder(touches: seq<string>, order: seq<string>) {
    forall id, i :: id in touches && id !in order && 0 <= i < |order| ==>
      LastTouch(touches, id) < LastTouch(touches, order[i])
  }

  /** `order` holds the ids with the latest touches, in that order, as many as fit. */
  predicate LeastRecentlyTouched(touches: seq<string>, order: seq<string>, bound: int) {
    Ascending(touches, order) && OthersOlder(touches, order) && |order| == Min(Max(0, bound), |Ids(touches)|)
  }

  lemma TouchAppended(touches: seq<string>, id: string, x: string)
    ensures LastTouch(touches + [id], x) == if x == id then |touches| else LastTouch(touches, x)
  {
    assert (touches + [id])[..|touches|] == touches;
  }

  /** x was last touched before everything in rest. */
  predicate OlderThan(touches: seq<string>, x: string, rest: seq<string>) {
    forall y :: y in rest ==> LastTouch(touches, x) < LastTouch(touches, y)
  }

  lemma HeadIsOldest(touches: seq<string>, order: seq<string>)
    requires Ascending(touches, order) && order != []
    ensures Ascending(touches, order[1..]) && OlderThan(touches, order[0], order[1..]) && order[0] in touches
    ensures order == [order[0]] + order[1..] && order[0] !in order[1..]
  {
    hide LastTouch;
    var rest := order[1..];
    assert forall i :: 0 <= i < |rest| ==> rest[i] == order[i + 1];
  }

  lemma HeadOn(touches: seq<string>, x: string, rest: seq<string>)
    requires Ascending(touches, rest) && OlderThan(touches, x, rest) && x in touches
    ensures Ascending(touches, [x] + rest)
  {
    hide LastTouch;
    var order := [x] + rest;
    assert forall i :: 0 < i < |order| ==> order[i] == rest[i - 1];
  }

  lemma OlderThanPart(touches: seq<string>, x: string, rest: seq<string>, part: seq<string>)
    requires OlderThan(touches, x, rest) && forall y :: y in part ==> y in rest
    ensures OlderThan(touches, x, part)
  {
    hide LastTouch;
  }

  lemma {:induction false} WithoutFacts(touches: seq<string>, order: seq<string>, id: string)
    requires Ascending(touches, order)
    ensures Ascending(touches, Without(order, id)) && id !in Without(order, id)
    ensures |Without(order, id)| == if id in order then |order| - 1 else |order|
  {
    hide LastTouch, Ascending, OlderThan;
    if order == [] {
      assert Without(order, id) == order;
    } else {
      HeadIsOldest(touches, order);
      WithoutFacts(touches, order[1..], id);
      if order[0] != id {
        OlderThanPart(touches, order[0], order[1..], Without(order[1..], id));
        HeadOn(touches, order[0], Without(order[1..], id));
      }
    }
  }

  lemma AppendTouched(touches: seq<string>, kept: seq<string>, id: string)
    requires Ascending(touches, kept) && id !in kept
    ensures Ascending(touches + [id], kept + [id])
  {
    hide LastTouch;
    var more, order := touches + [id], kept + [id];
    forall i, j | 0 <= i < j < |order| ensures LastTouch(more, order[i]) < LastTouch(more, order[j]) {
      TouchAppended(touches, id, order[i]);
      TouchAppended(touches, id, order[j]);
    }
  }

  lemma OthersStayOlder(touches: seq<string>, order: seq<string>, id: string)
    requires Ascending(touches, order) && OthersOlder(touches, order)
    ensures OthersOlder(touches + [id], Without(order, id) + [id])
  {
    hide LastTouch, Ascending;
    var more, next := touches + [id], Without(order, id) + [id];
    forall x, i | x in more && x !in next && 0 <= i < |next| ensures LastTouch(more, x) < LastTouch(more, next[i]) {
      assert next[|next| - 1] == id;
      TouchAppended(touches, id, x);
      TouchAppended(touches, id, next[i]);
      assert x !in order;
      if next[i] != id {
        assert next[i] in order;
      }
    }
  }

  lemma AscendingDistinct(touches: seq<string>, order: seq<string>)
    requires Ascending(touches, order)
    ensures Distinct(order)
  {
  }

  lemma {:induction false} DistinctSize(order: seq<string>)
    requires Distinct(order)
    ensures |Ids(order)| == |order|
  {
    if order != [] {
      var front, last := order[..|order| - 1], order[|order| - 1];
      DistinctSize(front);
      assert Ids(order) == Ids(front) + {last};
      assert last !in front;
    }
  }

  lemma IdsAppended(touches: seq<string>, id: string)
    ensures |Ids(touches + [id])| == |Ids(touches)| + if id in touches then 0 else 1
  {
    assert Ids(touches + [id]) == Ids(touches) + {id};
  }

  lemma SomethingDropped(touches: seq<string>, order: seq<string>, id: string)
    requires Ascending(touches, order) && id in touches && id !in order
    ensures |order| < |Ids(touches)|
  {
    hide LastTouch;
    AscendingDistinct(touches, order);
    DistinctSize(order);
    SubsetSize(Ids(order), Ids(touches));
    assert id in Ids(touches) && id !in Ids(order);
  }

  /** Trimming keeps the newest. */
  lemma {:induction false} TrimKeeps(touches: seq<string>, r: Runs, maxRuns: int)
    requires Keyed(r) && Ascending(touches, r.order) && OthersOlder(touches, r.order)
    ensures var t := Trim(r, maxRuns).0;
      && Keyed(t) && Ascending(touches, t.order) && OthersOlder(touches, t.order)
      && |t.order| == Min(|r.order|, Max(0, maxRuns))
      && forall id :: id in t.tasks ==> id in r.tasks && t.tasks[id] == r.tasks[id]
    decreases |r.order|
  {
    if |r.order| > maxRuns && r.order != [] {
      PopKeeps(touches, r);
      TrimKeeps(touches, PopFirst(r), maxRuns);
    }
  }

  lemma PopKeeps(touches: seq<string>, r: Runs)
    requires r.order != [] && Keyed(r) && Ascending(touches, r.order) && OthersOlder(touches, r.order)
    ensures Keyed(PopFirst(r)) && Ascending(touches, PopFirst(r).order) && OthersOlder(touches, PopFirst(r).order)
  {
    hide LastTouch, Ascending, Distinct, OthersOlder, OlderThan;
    HeadIsOldest(touches, r.order);
    AscendingDistinct(touches, r.order[1..]);
    OthersOlderTail(touches, r.order);
    assert forall x :: x in r.order <==> x == r.order[0] || x in r.order[1..];
  }

  lemma OthersOlderTail(touches: seq<string>, order: seq<string>)
    requires order != [] && OthersOlder(touches, order) && OlderThan(touches, order[0], order[1..])
    ensures OthersOlder(touches, order[1..])
  {
    hide LastTouch;
    assert order == [order[0]] + order[1..];
    forall x, i | x in touches && x !in order[1..] && 0 <= i < |order[1..]|
      ensures LastTouch(touches, x) < LastTouch(touches, order[1..][i])
    {
      assert order[1..][i] == order[i + 1];
      assert x != order[0] ==> x !in order;
      assert order[1..][i] in order[1..];
    }
  }

  lemma PutKeyed(r: Runs, id: string, task: RunTask, touches: seq<string>)
    requires Keyed(r) && Ascending(touches, r.order)
    ensures Keyed(Put(r, id, task))
  {
    hide LastTouch;
    WithoutFacts(touches, r.order, id);
    AscendingDistinct(touches, Without(r.order, id));
  }

  // ------------------------------------------------------------- whole runs

  function RunOps(maxRuns: int, ops: seq<Op>, k: nat): (r: Runs)
    requires k <= |ops|
  {
    if k == 0 then Runs([], map[]) else Touched(RunOps(maxRuns, ops, k - 1), ops[k - 1], maxRuns)
  }

  /** The ids touched so far: every start, and the updates that found their run. */
  function Touches(maxRuns: int, ops: seq<Op>, k: nat): (r: seq<string>)
    requires k <= |ops|
  {
    if k == 0 then []
    else Touches(maxRuns, ops, k - 1)
         + if ops[k - 1].Start? || ops[k - 1].id in RunOps(maxRuns, ops, k - 1).tasks then [ops[k - 1].id] else []
  }

  /** What the calls for one id say since its latest start, whether or not it was ever dropped. */
  function RecordOf(ops: seq<Op>, k: nat, id: string): (r: Option<RunTask>)
    requires k <= |ops|
  {
    if k == 0 then None
    else if ops[k - 1].id != id then RecordOf(ops, k - 1, id)
    else if ops[k - 1].Start? then Some(NewTask(ops[k - 1]))
    else
      var before := RecordOf(ops, k - 1, id);
      if before.None? then None else Some(Updated(before.value, ops[k - 1]))
  }

  lemma TouchKeepsLru(touches: seq<string>, r: Runs, op: Op, maxRuns: int)
    requires Keyed(r) && LeastRecentlyTouched(touches, r.order, maxRuns) && (op.Start? || op.id in r.tasks)
    ensures Keyed(Touched(r, op, maxRuns))
    ensures LeastRecentlyTouched(touches + [op.id], Touched(r, op, maxRuns).order, maxRuns)
  {
    hide LastTouch, Ascending, OthersOlder, Updated, NewTask, Trim, Ids;
    var id := op.id;
    WithoutFacts(touches, r.order, id);
    AppendTouched(touches, Without(r.order, id), id);
    OthersStayOlder(touches, r.order, id);
    IdsAppended(touches, id);
    var task := if op.Start? then NewTask(op) else Updated(r.tasks[id], op);
    PutKeyed(r, id, task, touches);
    if id in touches && id !in r.order {
      SomethingDropped(touches, r.order, id);
    }
    if id in r.order {
      KeptWereTouched(touches, r.order, id);
    }
    if op.Start? {
      TrimKeeps(touches + [id], Put(r, id, task), maxRuns);
    }
  }

  lemma KeptWereTouched(touches: seq<string>, order: seq<string>, id: string)
    requires Ascending(touches, order) && id in order
    ensures id in touches
  {
  }

  /** Each tracked run holds everything said of it since its latest start. */
  predicate Recorded(ops: seq<Op>, k: nat, tasks: map<string, RunTask>)
    requires k <= |ops|
  {
    forall id :: id in tasks ==> RecordOf(ops, k, id) == Some(tasks[id])
  }

  lemma RecordsStep(maxRuns: int, ops: seq<Op>, k: nat, r: Runs, touches: seq<string>)
    requires 0 < k <= |ops| && Keyed(r) && LeastRecentlyTouched(touches, r.order, maxRuns)
    requires Recorded(ops, k - 1, r.tasks)
    ensures Recorded(ops, k, Touched(r, ops[k - 1], maxRuns).tasks)
  {
    hide LastTouch, Ascending, OthersOlder, Updated, NewTask, Trim, Ids, Without;
    var op := ops[k - 1];
    if op.Start? {
      var put := Put(r, op.id, NewTask(op));
      WithoutFacts(touches, r.order, op.id);
      AppendTouched(touches, Without(r.order, op.id), op.id);
      OthersStayOlder(touches, r.order, op.id);
      PutKeyed(r, op.id, NewTask(op), touches);
      TrimKeeps(touches + [op.id], put, maxRuns);
    }
  }

  /** In every reachable state the tracker holds exactly the max_runs ids with the latest
      effective touches, in that order, each with everything said of it since its latest start. */
  lemma {:induction false} TrackerIsLru(maxRuns: int, ops: seq<Op>, k: nat)
    requires k <= |ops|
    ensures var r := RunOps(maxRuns, ops, k);
      Keyed(r) && LeastRecentlyTouched(Touches(maxRuns, ops, k), r.order, maxRuns) && Recorded(ops, k, r.tasks)
  {
    if k == 0 {
      NothingTracked(maxRuns, ops);
    } else {
      TrackerIsLru(maxRuns, ops, k - 1);
      LruStep(maxRuns, ops, k);
    }
  }

  // ---- what a record says

  /** The latest of the first k calls for the id that p holds of, or -1. */
  function LastOf(ops: seq<Op>, k: nat, id: string, p: Op -> bool): (r: int)
    requires k <= |ops|
    ensures -1 <= r < k && (r >= 0 ==> ops[r].id == id && p(ops[r]))
    ensures forall j :: r < j < k ==> !(ops[j].id == id && p(ops[j]))
  {
    if k == 0 then -1 else if ops[k - 1].id == id && p(ops[k - 1]) then k - 1 else LastOf(ops, k - 1, id, p)
  }

  const IsStart := (op: Op) => op.Start?
  const IsStep := (op: Op) => op.Step?
  const IsFinish := (op: Op) => op.Finish?

  /** A record is of the latest start; its status, end, final URL and error come from the latest
      finish after it, its last action from the latest step after it, and what both report from the
      later of the two. */
  predicate SaysWhatHappened(ops: seq<Op>, k: nat, id: string, t: RunTask)
    requires k <= |ops|
  {
    var a, s, f := LastOf(ops, k, id, IsStart), LastOf(ops, k, id, IsStep), LastOf(ops, k, id, IsFinish);
    var last := Max(s, f);
    && a >= 0 && t.runId == id && t.goal == ops[a].goal && t.startUrl == ops[a].startUrl
    && t.maxSteps == ops[a].maxSteps && t.extractFields == ops[a].extractFields && t.startedAt == ops[a].at
    && (if f > a then
          && t.status == (if ops[f].success then Completed else Failed) && t.completedAt == Some(ops[f].at)
          && t.finalUrl == ops[f].url && t.error == ops[f].error
        else t.status == Running && t.completedAt == None && t.finalUrl == "" && t.error == None)
    && (if s > a then t.lastAction == Some(ops[s].action) && t.lastReasoning == Some(ops[s].reasoning)
        else t.lastAction == None && t.lastReasoning == None)
    && (if last > a then
          && t.stepsTaken == ops[last].stepsTaken && t.currentUrl == ops[last].url && t.history == ops[last].history
          && t.extracted == ops[last].extracted && t.screenshot == ops[last].screenshot
        else t.stepsTaken == 0 && t.currentUrl == "" && t.history == [] && t.extracted == map[] && t.screenshot == None)
  }

  lemma LastOfStep(ops: seq<Op>, k: nat, id: string, p: Op -> bool)
    requires 0 < k <= |ops|
    ensures LastOf(ops, k, id, p) == if ops[k - 1].id == id && p(ops[k - 1]) then k - 1 else LastOf(ops, k - 1, id, p)
  {
  }

  lemma LastOfSteps(ops: seq<Op>, k: nat, id: string)
    requires 0 < k <= |ops|
    ensures LastOf(ops, k, id, IsStart)
            == if ops[k - 1].id == id && ops[k - 1].Start? then k - 1 else LastOf(ops, k - 1, id, IsStart)
    ensures LastOf(ops, k, id, IsStep)
            == if ops[k - 1].id == id && ops[k - 1].Step? then k - 1 else LastOf(ops, k - 1, id, IsStep)
    ensures LastOf(ops, k, id, IsFinish)
            == if ops[k - 1].id == id && ops[k - 1].Finish? then k - 1 else LastOf(ops, k - 1, id, IsFinish)
  {
    hide LastOf;
    LastOfStep(ops, k, id, IsStart);
    LastOfStep(ops, k, id, IsStep);
    LastOfStep(ops, k, id, IsFinish);
  }

  lemma NewSays(ops: seq<Op>, k: nat, id: string)
    requires 0 < k <= |ops| && ops[k - 1].id == id && ops[k - 1].Start?
    ensures SaysWhatHappened(ops, k, id, NewTask(ops[k - 1]))
  {
    hide LastOf;
    LastOfSteps(ops, k, id);
  }

  lemma StepSays(ops: seq<Op>, k: nat, id: string, t: RunTask)
    requires 0 < k <= |ops| && ops[k - 1].id == id && ops[k - 1].Step? && SaysWhatHappened(ops, k - 1, id, t)
    ensures SaysWhatHappened(ops, k, id, Updated(t, ops[k - 1]))
  {
    hide LastOf;
    LastOfSteps(ops, k, id);
  }

  lemma FinishSays(ops: seq<Op>, k: nat, id: string, t: RunTask)
    requires 0 < k <= |ops| && ops[k - 1].id == id && ops[k - 1].Finish? && SaysWhatHappened(ops, k - 1, id, t)
    ensures SaysWhatHappened(ops, k, id, Updated(t, ops[k - 1]))
  {
    hide LastOf;
    LastOfSteps(ops, k, id);
  }

  lemma OthersSayNothing(ops: seq<Op>, k: nat, id: string, t: RunTask)
    requires 0 < k <= |ops| && ops[k - 1].id != id && SaysWhatHappened(ops, k - 1, id, t)
    ensures SaysWhatHappened(ops, k, id, t)
  {
    hide LastOf;
    LastOfSteps(ops, k, id);
  }

  /** The record of a tracked run says what happened to it since its latest start. */
  lemma {:induction false} RecordSays(ops: seq<Op>, k: nat, id: string)
    requires k <= |ops|
    ensures RecordOf(ops, k, id).Some? <==> LastOf(ops, k, id, IsStart) >= 0
    ensures RecordOf(ops, k, id).Some? ==> SaysWhatHappened(ops, k, id, RecordOf(ops, k, id).value)
  {
    hide LastOf, SaysWhatHappened, NewTask, Updated;
    if k > 0 {
      RecordSays(ops, k - 1, id);
      LastOfSteps(ops, k, id);
      var op, before := ops[k - 1], RecordOf(ops, k - 1, id);
      if op.id == id && op.Start? {
        NewSays(ops, k, id);
      } else if before.Some? {
        if op.id != id {
          OthersSayNothing(ops, k, id, before.value);
        } else if op.Step? {
          StepSays(ops, k, id, before.value);
        } else {
          FinishSays(ops, k, id, before.value);
        }
      }
    }
  }

  lemma NothingTracked(maxRuns: int, ops: seq<Op>)
    ensures var r := RunOps(maxRuns, ops, 0);
      Keyed(r) && LeastRecentlyTouched(Touches(maxRuns, ops, 0), r.order, maxRuns) && Recorded(ops, 0, r.tasks)
  {
    assert Ids([]) == {};
  }

  lemma LruStep(maxRuns: int, ops: seq<Op>, k: nat)
    requires 0 < k <= |ops|
    requires var r := RunOps(maxRuns, ops, k - 1);
      Keyed(r) && LeastRecentlyTouched(Touches(maxRuns, ops, k - 1), r.order, maxRuns) && Recorded(ops, k - 1, r.tasks)
    ensures var r := RunOps(maxRuns, ops, k);
      Keyed(r) && LeastRecentlyTouched(Touches(maxRuns, ops, k), r.order, maxRuns) && Recorded(ops, k, r.tasks)
  {
    hide LeastRecentlyTouched, Keyed, Recorded, Trim, Put, Updated, NewTask;
    var op, before, touches := ops[k - 1], RunOps(maxRuns, ops, k - 1), Touches(maxRuns, ops, k - 1);
    RecordsStep(maxRuns, ops, k, before, touches);
    if op.Start? || op.id in before.tasks {
      assert Touches(maxRuns, ops, k) == touches + [op.id];
      TouchKeepsLru(touches, before, op, maxRuns);
    } else {
      assert Touches(maxRuns, ops, k) == touches;
      assert Touched(before, op, maxRuns) == before;
    }
  }

  lemma TasksOfFacts(r: Runs)
    requires Keyed(r)
    ensures |TasksOf(r)| == |r.order|
    ensures forall i :: 0 <= i < |r.order| ==> r.order[i] in r.tasks && TasksOf(r)[i] == r.tasks[r.order[i]]
  {
  }

  lemma ReversedAt<T>(items: seq<T>, i: nat)
    requires i < |items|
    ensures Reversed(items)[i] == items[|items| - 1 - i]
  {
  }

  lemma NewestSlice<T>(all: seq<T>, limit: int, from: nat)
    requires from == if limit > 0 then Max(0, |all| - limit) else 0
    ensures from <= |all| && SliceFrom(all, -Max(0, limit)) == all[from..]
  {
  }

  lemma NewestFirst<T>(all: seq<T>, limit: int, from: nat)
    requires from == if limit > 0 then Max(0, |all| - limit) else 0
    ensures var newest := Reversed(SliceFrom(all, -Max(0, limit)));
      |newest| == |all| - from && forall i :: 0 <= i < |newest| ==> newest[i] == all[|all| - 1 - i]
  {
    hide *;
    NewestSlice(all, limit, from);
    var items := all[from..];
    var newest := Reversed(items);
    forall i | 0 <= i < |newest| ensures newest[i] == all[|all| - 1 - i] {
      ReversedAt(items, i);
      var k := |items| - 1 - i;
      assert items[k] == all[from + k];
    }
  }

  lemma RecentIs(r: Runs, limit: int)
    requires Keyed(r)
    ensures Recent(r, limit) == Reversed(SliceFrom(TasksOf(r), -Max(0, limit)))
  {
  }

  /** recent(limit) is the newest `limit` runs, newest first, exactly when limit is positive or
      there is nothing to show; otherwise it is every run. */
  lemma RecentIsNewest(r: Runs, limit: int)
    requires Keyed(r)
    ensures var n := |r.order|;
      && |Recent(r, limit)| == (if limit > 0 then Min(limit, n) else n)
      && (|Recent(r, limit)| == Min(Max(0, limit), n) <==> limit > 0 || n == 0)
    ensures forall i :: 0 <= i < |Recent(r, limit)| ==>
      i < |r.order| && r.order[|r.order| - 1 - i] in r.tasks
      && Recent(r, limit)[i] == r.tasks[r.order[|r.order| - 1 - i]]
  {
    hide *;
    var n, from := |r.order|, if limit > 0 then Max(0, |r.order| - limit) else 0;
    NewestCount(n, limit);
    TasksOfFacts(r);
    RecentIs(r, limit);
    var all := TasksOf(r);
    NewestFirst(all, limit, from);
    forall i | 0 <= i < n - from
      ensures i < n && r.order[n - 1 - i] in r.tasks && Recent(r, limit)[i] == r.tasks[r.order[n - 1 - i]]
    {
      assert all[n - 1 - i] == r.tasks[r.order[n - 1 - i]];
    }
  }

  lemma NewestCount(n: nat, limit: int)
    ensures var from := if limit > 0 then Max(0, n - limit) else 0;
      && 0 <= from <= n && n - from == (if limit > 0 then Min(limit, n) else n)
      && (n - from == Min(Max(0, limit), n) <==> limit > 0 || n == 0)
  {
  }
}
