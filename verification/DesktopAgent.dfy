/**
 The desktop agent's Observe -> Plan -> Act loop. The vision model, the tools and the
 operator are the environment: they may answer anything at any step. What is proved
 holds of every environment.
 */
module DesktopAgent {
  import opened Common
  import opened PyStrings

  // ------------------------------------------------------------- constants

  predicate ToleratesLoops(tool: string) {
    tool in {"baselithbot_kbd_press", "baselithbot_kbd_hotkey", "baselithbot_desktop_screenshot",
             "baselithbot_mouse_scroll"}
  }

  predicate SkipsObservation(tool: string) {
    tool in {"baselithbot_spotify", "baselithbot_open_url", "baselithbot_fs_read", "baselithbot_fs_write",
             "baselithbot_fs_list", "baselithbot_screen_size"}
  }

  const SHELL_RUN := "baselithbot_shell_run"
  const SCREENSHOT := "baselithbot_desktop_screenshot"

  // ------------------------------------------------------------- environment

  datatype Value = Str(s: string) | Opaque(id: int)

  /** The "args" of a decision: missing or falsy, a dict, or some other object. */
  datatype Args = Falsy | Dict(entries: map<string, Value>) | Other(id: int)

  /** What the loop reads out of the model's answer: the tool's name and the reasoning, both as
      text with the white space around it stripped, and the arguments. */
  datatype Decision = Decision(tool: string, args: Args, reasoning: string)

  /** A handler returns a result with some status, or raises. */
  datatype Outcome = Finished(status: string, summary: string) | Raised(message: string)

  /** What the k-th turn meets. The operator's cancel event is set at one moment (or never):
      moment 2k is the check at the top of turn k, moment 2k + 1 the one before dispatch. */
  datatype Env = Env(allowed: seq<string>, decide: nat -> Decision, outcome: nat -> Outcome, cancelAt: Option<nat>)

  predicate Cancelled(env: Env, moment: nat) {
    env.cancelAt.Some? && env.cancelAt.value <= moment
  }

  // ------------------------------------------------------------- one turn

  datatype Entry = Entry(step: int, tool: string, args: map<string, Value>, reasoning: string, status: string,
                         summary: string)

  datatype Stop = EmptyPolicy | ByOperator | Done | Fail | Looped | InvalidArgs | ToolError | MaxSteps

  datatype Turn = Ends(stop: Stop) | Records(entry: Entry)

  /** `decision.get("args") or {}`, which the loop guard compares with recorded args. */
  function Candidate(a: Args): Args {
    if a.Falsy? then Dict(map[]) else a
  }

  function RecordedArgs(a: Args): map<string, Value> {
    if a.Dict? then a.entries else map[]
  }

  function Threshold(tool: string): (n: nat)
    ensures n == 2 || n == 3
  {
    if ToleratesLoops(tool) then 3 else 2
  }

  /** The last Threshold entries all repeat this call. */
  predicate Repeats(history: seq<Entry>, tool: string, args: Args) {
    var n := Threshold(tool);
    |history| >= n
    && forall k :: |history| - n <= k < |history| ==> history[k].tool == tool && Dict(history[k].args) == args
  }

  /** `open -a ...`, the shell commands that bring up a GUI application. */
  predicate OpensApp(command: string) {
    var c, i := command, LeftEdge(command, 0);
    && i + 4 < |c| && c[i] in {'o', 'O'} && c[i + 1] in {'p', 'P'} && c[i + 2] in {'e', 'E'} && c[i + 3] in {'n', 'N'}
    && IsSpace(c[i + 4])
    && var j := LeftEdge(c, i + 4);
    j + 2 < |c| && c[j] == '-' && c[j + 1] in {'a', 'A'} && IsSpace(c[j + 2])
  }

  predicate IsAppLaunch(tool: string, args: map<string, Value>) {
    tool == SHELL_RUN && "command" in args && args["command"].Str? && OpensApp(args["command"].s)
  }

  predicate ShouldSkipObserve(history: seq<Entry>) {
    && history != []
    && var prev := history[|history| - 1];
    && prev.status == "success"
    && (SkipsObservation(prev.tool) || (prev.tool == SHELL_RUN && !IsAppLaunch(prev.tool, prev.args)))
  }

  function StatusOf(o: Outcome): string {
    if o.Finished? then o.status else "error"
  }

  function SummaryOf(o: Outcome): string {
    if o.Finished? then o.summary else "error: " + o.message
  }

  /** What turn k does, given the history so far. */
  function TurnOf(env: Env, history: seq<Entry>, k: nat): (t: Turn) {
    var d := env.decide(k);
    var tool := d.tool;
    if Cancelled(env, 2 * k) then Ends(ByOperator)
    else if tool == "done" then Ends(Done)
    else if tool == "fail" then Ends(Fail)
    else if Repeats(history, tool, Candidate(d.args)) then Ends(Looped)
    else if tool !in env.allowed then
      if d.args.Other? then Ends(InvalidArgs)
      else Records(Entry(k + 1, if tool == "" then "(missing)" else tool, RecordedArgs(d.args), d.reasoning,
                         "denied", "not available"))
    else if Cancelled(env, 2 * k + 1) then Ends(ByOperator)
    else Records(Entry(k + 1, tool, RecordedArgs(d.args), d.reasoning, StatusOf(env.outcome(k)),
                       SummaryOf(env.outcome(k))))
  }

  /** A tool handler called at some moment. */
  datatype Start = Start(tool: string, moment: nat)

  /** Whether turn k calls the tool the model chose. */
  predicate Dispatches(env: Env, history: seq<Entry>, k: nat) {
    TurnOf(env, history, k).Records? && env.decide(k).tool in env.allowed
  }

  /** The handlers turn k calls: the screenshot, unless it is skipped or not allowed, then the chosen tool. */
  function StartsOf(env: Env, history: seq<Entry>, k: nat): (starts: seq<Start>) {
    if Cancelled(env, 2 * k) then []
    else (if !ShouldSkipObserve(history) && SCREENSHOT in env.allowed then [Start(SCREENSHOT, 2 * k)] else [])
         + (if Dispatches(env, history, k) then [Start(env.decide(k).tool, 2 * k + 1)] else [])
  }

  // ------------------------------------------------------------- whole runs

  /** Every entry was recorded by its own turn, and none but the last is an error. */
  predicate Follows(env: Env, history: seq<Entry>) {
    && (forall i :: 0 <= i < |history| ==> TurnOf(env, history[..i], i) == Records(history[i]))
    && (forall i :: 0 <= i < |history| - 1 ==> history[i].status != "error")
  }

  /** Why a run with this history stops. */
  predicate StopsFor(env: Env, history: seq<Entry>, maxSteps: int, stop: Stop) {
    if env.allowed == [] then history == [] && stop == EmptyPolicy
    else if history != [] && history[|history| - 1].status == "error" then stop == ToolError
    else if |history| >= maxSteps then stop == MaxSteps
    else TurnOf(env, history, |history|) == Ends(stop)
  }

  /** All handlers called by a run: its full turns and, if it stopped inside one, that turn. */
  function AllStarts(env: Env, history: seq<Entry>, turns: nat): (starts: seq<Start>)
    requires turns <= |history| + 1
  {
    if turns == 0 then [] else AllStarts(env, history, turns - 1) + StartsOf(env, history[..turns - 1], turns - 1)
  }

  datatype TaskResult = TaskResult(success: bool, stepsTaken: int, history: seq<Entry>, stop: Stop)

  /** Calling a handler: the only way to its outcome, and it leaves its mark. The observed
      screenshot's outcome decides nothing that is modelled. */
  method CallTool(env: Env, tool: string, turn: nat, moment: nat, ghost called: seq<Start>)
    returns (outcome: Outcome, ghost starts: seq<Start>)
    requires moment == 2 * turn || moment == 2 * turn + 1
    ensures outcome == env.outcome(turn) && starts == called + [Start(tool, moment)]
  {
    outcome := env.outcome(turn);
    starts := called + [Start(tool, moment)];
  }

  /** One turn of the loop, up to the point where it returns or records its step. `starts` are the
      handlers it called. */
  method TakeTurn(env: Env, history: seq<Entry>, step: nat) returns (turn: Turn, ghost starts: seq<Start>)
    requires step > 0
    ensures turn == TurnOf(env, history, step - 1) && starts == StartsOf(env, history, step - 1)
    ensures forall s :: s in starts ==> s.tool in env.allowed && !Cancelled(env, s.moment)
  {
    hide Repeats, ShouldSkipObserve;
    starts := [];
    if Cancelled(env, 2 * (step - 1)) {
      return Ends(ByOperator), starts;
    }
    if !ShouldSkipObserve(history) && SCREENSHOT in env.allowed {
      var _, after := CallTool(env, SCREENSHOT, step - 1, 2 * (step - 1), starts);
      starts := after;
    }
    var decision := env.decide(step - 1);
    var tool := decision.tool;
    if tool == "done" {
      return Ends(Done), starts;
    }
    if tool == "fail" {
      return Ends(Fail), starts;
    }
    if Repeats(history, tool, Candidate(decision.args)) {
      return Ends(Looped), starts;
    }
    var args := RecordedArgs(decision.args);
    var reasoning := decision.reasoning;
    if tool !in env.allowed {
      if decision.args.Other? {
        return Ends(InvalidArgs), starts;
      }
      var shown := if tool == "" then "(missing)" else tool;
      return Records(Entry(step, shown, args, reasoning, "denied", "not available")), starts;
    }
    if Cancelled(env, 2 * (step - 1) + 1) {
      return Ends(ByOperator), starts;
    }
    var outcome, after := CallTool(env, tool, step - 1, 2 * (step - 1) + 1, starts);
    starts := after;
    turn := Records(Entry(step, tool, args, reasoning, StatusOf(outcome), SummaryOf(outcome)));
  }

  /** `starts` are the handlers called, recorded where they are called: none of them after the
      cancel event was set, and none that is not allowed. */
  method ExecuteInner(env: Env, maxSteps: int) returns (r: TaskResult, ghost starts: seq<Start>)
    ensures Follows(env, r.history) && StopsFor(env, r.history, maxSteps, r.stop)
    ensures r.success <==> r.stop == Done
    ensures StopMeans(env, r.history, maxSteps, r.stop)
    ensures forall i: nat :: i < |r.history| ==> Tells(env, r.history[i], i)
    ensures |r.history| <= if maxSteps > 0 then maxSteps else 0
    ensures r.stepsTaken == |r.history| <==> maxSteps >= 0 || env.allowed == []
    ensures forall s :: s in starts ==> s.tool in env.allowed && !Cancelled(env, s.moment)
    ensures starts == if r.stop in {EmptyPolicy, ToolError, MaxSteps} then AllStarts(env, r.history, |r.history|)
                      else AllStarts(env, r.history, |r.history| + 1)
  {
    hide *;
    NothingYet(env, maxSteps);
    starts := [];
    if env.allowed == [] {
      ExitMeans(env, [], maxSteps, EmptyPolicy);
      return TaskResult(false, 0, [], EmptyPolicy), starts;
    }
    var history: seq<Entry> := [];
    var step := 1;
    while step <= maxSteps
      invariant |history| == step - 1 && step <= (if maxSteps > 0 then maxSteps else 0) + 1
      invariant Follows(env, history)
      invariant forall i :: 0 <= i < |history| ==> history[i].status != "error"
      invariant starts == AllStarts(env, history, |history|)
      invariant forall s :: s in starts ==> s.tool in env.allowed && !Cancelled(env, s.moment)
    {
      var turn, called := TakeTurn(env, history, step);
      starts := starts + called;
      AllStartsStep(env, history, step);
      if turn.Ends? {
        TurnStops(env, history, step - 1);
        StopsInside(env, history, maxSteps, turn.stop);
        ExitMeans(env, history, maxSteps, turn.stop);
        return TaskResult(turn.stop == Done, step - 1, history, turn.stop), starts;
      }
      AppendFollows(env, history, turn.entry);
      StartsKeep(env, history, turn.entry, step);
      history := history + [turn.entry];
      if turn.entry.status == "error" {
        StopsOutside(env, history, maxSteps, ToolError);
        ExitMeans(env, history, maxSteps, ToolError);
        return TaskResult(false, step, history, ToolError), starts;
      }
      step := step + 1;
    }
    StopsOutside(env, history, maxSteps, MaxSteps);
    ExitMeans(env, history, maxSteps, MaxSteps);
    r := TaskResult(false, maxSteps, history, MaxSteps);
  }

  lemma ExitMeans(env: Env, history: seq<Entry>, maxSteps: int, stop: Stop)
    requires Follows(env, history) && StopsFor(env, history, maxSteps, stop)
    ensures StopMeans(env, history, maxSteps, stop)
    ensures forall i: nat :: i < |history| ==> Tells(env, history[i], i)
  {
    hide Follows, StopsFor, StopMeans, Tells;
    StopsExactly(env, history, maxSteps, stop);
    forall i: nat | i < |history| ensures Tells(env, history[i], i) {
      EntryTells(env, history, i);
    }
  }

  lemma AllStartsStep(env: Env, history: seq<Entry>, turns: nat)
    requires 0 < turns <= |history| + 1
    ensures AllStarts(env, history, turns)
            == AllStarts(env, history, turns - 1) + StartsOf(env, history[..turns - 1], turns - 1)
    ensures turns == |history| + 1 ==> history[..turns - 1] == history
  {
    hide StartsOf;
  }

  lemma NothingYet(env: Env, maxSteps: int)
    ensures AllStarts(env, [], 0) == [] && Follows(env, [])
    ensures env.allowed == [] ==> StopsFor(env, [], maxSteps, EmptyPolicy)
  {
  }

  lemma StopsInside(env: Env, history: seq<Entry>, maxSteps: int, stop: Stop)
    requires env.allowed != [] && |history| < maxSteps && TurnOf(env, history, |history|) == Ends(stop)
    requires forall i :: 0 <= i < |history| ==> history[i].status != "error"
    ensures StopsFor(env, history, maxSteps, stop)
  {
  }

  lemma StopsOutside(env: Env, history: seq<Entry>, maxSteps: int, stop: Stop)
    requires env.allowed != []
    requires if history != [] && history[|history| - 1].status == "error" then stop == ToolError
             else stop == MaxSteps && |history| >= maxSteps
    ensures StopsFor(env, history, maxSteps, stop)
  {
  }

  lemma TurnStops(env: Env, history: seq<Entry>, k: nat)
    requires TurnOf(env, history, k).Ends?
    ensures TurnOf(env, history, k).stop !in {EmptyPolicy, ToolError, MaxSteps}
  {
    hide Repeats;
  }

  lemma AppendFollows(env: Env, history: seq<Entry>, e: Entry)
    requires Follows(env, history) && TurnOf(env, history, |history|) == Records(e)
    requires forall i :: 0 <= i < |history| ==> history[i].status != "error"
    ensures Follows(env, history + [e])
  {
    hide TurnOf;
    var h := history + [e];
    forall i | 0 <= i < |h| ensures TurnOf(env, h[..i], i) == Records(h[i]) {
      assert h[..i] == history[..i];
      assert i == |history| ==> history[..i] == history;
    }
  }

  lemma {:induction false} StartsKeep(env: Env, history: seq<Entry>, e: Entry, turns: nat)
    requires turns <= |history| + 1
    ensures AllStarts(env, history + [e], turns) == AllStarts(env, history, turns)
  {
    hide StartsOf;
    if turns > 0 {
      StartsKeep(env, history, e, turns - 1);
      assert (history + [e])[..turns - 1] == history[..turns - 1];
    }
  }

  // ---- what an exit means

  /** The last n entries all are this call. */
  predicate LastCallsAre(history: seq<Entry>, n: nat, tool: string, args: map<string, Value>) {
    |history| >= n && forall k :: |history| - n <= k < |history| ==> history[k].tool == tool && history[k].args == args
  }

  /** The decision repeats what the last two entries recorded, or three for a loop-tolerant tool. */
  predicate IsLoop(history: seq<Entry>, d: Decision) {
    !d.args.Other?
    && LastCallsAre(history, if ToleratesLoops(d.tool) then 3 else 2, d.tool,
                    if d.args.Dict? then d.args.entries else map[])
  }

  /** Entry i says what the model decided at its step and, if the tool was allowed, how it ended. */
  predicate Tells(env: Env, e: Entry, i: nat) {
    var d := env.decide(i);
    && d.tool != "done" && d.tool != "fail" && !Cancelled(env, 2 * i)
    && e.step == i + 1 && e.reasoning == d.reasoning && e.args == (if d.args.Dict? then d.args.entries else map[])
    && if d.tool in env.allowed then
         && e.tool == d.tool && !Cancelled(env, 2 * i + 1)
         && match env.outcome(i)
            case Finished(status, summary) => e.status == status && e.summary == summary
            case Raised(message) => e.status == "error" && e.summary == "error: " + message
       else !d.args.Other? && e.status == "denied" && e.tool == if d.tool == "" then "(missing)" else d.tool
  }

  /** The run gets to the step after its last entry: nothing failed and there are steps left. */
  predicate GoesOn(env: Env, history: seq<Entry>, maxSteps: int) {
    env.allowed != [] && |history| < maxSteps && forall i :: 0 <= i < |history| ==> history[i].status != "error"
  }

  /** The model's answer to the step after the last entry is asked for: no cancel before it. */
  predicate Asked(env: Env, history: seq<Entry>, maxSteps: int) {
    GoesOn(env, history, maxSteps) && !Cancelled(env, 2 * |history|)
  }

  /** It names a tool, not "done" or "fail", and repeats no loop. */
  predicate Proposed(env: Env, history: seq<Entry>, maxSteps: int) {
    var d := env.decide(|history|);
    Asked(env, history, maxSteps) && d.tool != "done" && d.tool != "fail" && !IsLoop(history, d)
  }

  /** Each way to stop, said of the environment and the history alone. */
  predicate StopMeans(env: Env, history: seq<Entry>, maxSteps: int, stop: Stop) {
    var d := env.decide(|history|);
    && (stop == EmptyPolicy <==> env.allowed == [])
    && (stop == ToolError <==> exists i :: 0 <= i < |history| && history[i].status == "error")
    && (stop == MaxSteps <==>
          env.allowed != [] && |history| >= maxSteps && forall i :: 0 <= i < |history| ==> history[i].status != "error")
    && (stop == Done <==> Asked(env, history, maxSteps) && d.tool == "done")
    && (stop == Fail <==> Asked(env, history, maxSteps) && d.tool == "fail")
    && (stop == Looped <==>
          Asked(env, history, maxSteps) && d.tool != "done" && d.tool != "fail" && IsLoop(history, d))
    && (stop == InvalidArgs <==> Proposed(env, history, maxSteps) && d.tool !in env.allowed && d.args.Other?)
    && (stop == ByOperator <==>
          || (GoesOn(env, history, maxSteps) && Cancelled(env, 2 * |history|))
          || (Proposed(env, history, maxSteps) && d.tool in env.allowed && Cancelled(env, 2 * |history| + 1)))
  }

  lemma RepeatsIsLoop(history: seq<Entry>, d: Decision)
    ensures Repeats(history, d.tool, Candidate(d.args)) <==> IsLoop(history, d)
  {
    hide ToleratesLoops;
    if d.args.Other? && history != [] {
      assert Dict(history[|history| - 1].args) != Candidate(d.args);
    }
  }

  /** An entry tells what its step was. */
  lemma EntryTells(env: Env, history: seq<Entry>, i: nat)
    requires Follows(env, history) && i < |history|
    ensures Tells(env, history[i], i) && !IsLoop(history[..i], env.decide(i))
  {
    hide Repeats, IsLoop;
    assert TurnOf(env, history[..i], i) == Records(history[i]);
    RepeatsIsLoop(history[..i], env.decide(i));
  }

  lemma NoEarlierError(env: Env, history: seq<Entry>)
    requires Follows(env, history)
    ensures (exists i :: 0 <= i < |history| && history[i].status == "error")
            <==> history != [] && history[|history| - 1].status == "error"
  {
    hide TurnOf;
    if history != [] && history[|history| - 1].status == "error" {
      assert history[|history| - 1].status == "error";
    }
  }

  lemma TurnMeans(env: Env, history: seq<Entry>, maxSteps: int, stop: Stop)
    requires GoesOn(env, history, maxSteps) && TurnOf(env, history, |history|) == Ends(stop)
    ensures StopMeans(env, history, maxSteps, stop)
  {
    hide Repeats, IsLoop;
    RepeatsIsLoop(history, env.decide(|history|));
  }

  /** Why a run stopped is told exactly by its environment and its history. */
  lemma StopsExactly(env: Env, history: seq<Entry>, maxSteps: int, stop: Stop)
    requires Follows(env, history) && StopsFor(env, history, maxSteps, stop)
    ensures StopMeans(env, history, maxSteps, stop)
  {
    hide TurnOf, IsLoop, Follows;
    NoEarlierError(env, history);
    if GoesOn(env, history, maxSteps) {
      TurnMeans(env, history, maxSteps, stop);
    }
  }

  // ---- accounting

  /** Entry i is step i + 1, and everything recorded is either allowed or denied. */
  lemma EntriesAreNumbered(env: Env, history: seq<Entry>, i: nat)
    requires Follows(env, history) && i < |history|
    ensures history[i].step == i + 1
    ensures history[i].tool in env.allowed || history[i].status == "denied"
    ensures env.decide(i).tool !in env.allowed ==> history[i].status == "denied"
    ensures history[i].status == "error" ==> i == |history| - 1
  {
    hide Repeats, Threshold;
    assert TurnOf(env, history[..i], i) == Records(history[i]);
  }

  // ---- cancellation

  lemma StartsOfAllowed(env: Env, history: seq<Entry>, k: nat)
    ensures forall j :: 0 <= j < |StartsOf(env, history, k)| ==>
      StartsOf(env, history, k)[j].tool in env.allowed && !Cancelled(env, StartsOf(env, history, k)[j].moment)
  {
    hide Repeats, ShouldSkipObserve;
  }

  /** No handler, the screenshot included, starts once the cancel event is set, and every
      tool that is called is allowed. */
  lemma {:induction false} NoStartAfterCancel(env: Env, history: seq<Entry>, turns: nat, j: nat)
    requires turns <= |history| + 1 && j < |AllStarts(env, history, turns)|
    ensures var s := AllStarts(env, history, turns)[j]; s.tool in env.allowed && !Cancelled(env, s.moment)
  {
    hide StartsOf;
    var earlier := AllStarts(env, history, turns - 1);
    if j < |earlier| {
      NoStartAfterCancel(env, history, turns - 1, j);
    } else {
      StartsOfAllowed(env, history[..turns - 1], turns - 1);
    }
  }

  /** A set cancel event ends the run: no turn that begins after it is recorded. */
  lemma CancelEndsTheRun(env: Env, history: seq<Entry>)
    requires Follows(env, history) && |history| > 0
    ensures !Cancelled(env, 2 * (|history| - 1))
    ensures history[|history| - 1].tool in env.allowed && env.decide(|history| - 1).tool in env.allowed
      ==> !Cancelled(env, 2 * |history| - 1)
  {
    hide Repeats;
    var k := |history| - 1;
    assert TurnOf(env, history[..k], k) == Records(history[k]);
  }

  // ---- the repeat guard

  predicate SameCall(a: Entry, b: Entry) { a.tool == b.tool && a.args == b.args }

  function ShownTool(env: Env, d: Decision): string {
    if d.tool == "" && d.tool !in env.allowed then "(missing)" else d.tool
  }

  lemma RecordedTurn(env: Env, d: Decision, history: seq<Entry>, k: nat, e: Entry)
    requires env.decide(k) == d && TurnOf(env, history, k) == Records(e)
    ensures e.tool == ShownTool(env, d) && e.args == RecordedArgs(d.args)
    ensures !Repeats(history, d.tool, Candidate(d.args))
    ensures d.tool in env.allowed || !d.args.Other?
  {
    hide Repeats;
  }

  /** Whenever the model names a tool and gives dict (or no) args, its entry never makes more than
      two identical calls in a row, or three of a loop-tolerant tool, denied ones included. */
  lemma NoLongRepeat(env: Env, history: seq<Entry>, last: nat)
    requires Follows(env, history) && last < |history|
    requires env.decide(last).tool != "" && !env.decide(last).args.Other?
    ensures var n := if ToleratesLoops(history[last].tool) then 3 else 2;
      !(last >= n && forall k :: last - n <= k < last ==> SameCall(history[k], history[last]))
  {
    hide TurnOf, ToleratesLoops;
    RecordedTurn(env, env.decide(last), history[..last], last, history[last]);
    assert forall k :: 0 <= k < last ==> history[..last][k] == history[k];
  }

  // ---- what the guard catches

  /** A model that gives one decision for ever, never cancelled, its tool never failing. */
  ghost predicate KeepsDeciding(env: Env, d: Decision) {
    env.cancelAt.None? && forall k: nat :: env.decide(k) == d && StatusOf(env.outcome(k)) != "error"
  }

  /** An allowed tool with arguments that are no dict, or no tool at all. */
  predicate Escapes(env: Env, d: Decision) {
    if d.tool in env.allowed then d.args.Other? else d.tool == "" && !d.args.Other?
  }

  lemma EscapingTurn(env: Env, d: Decision, history: seq<Entry>)
    requires KeepsDeciding(env, d) && Escapes(env, d) && d.tool != "done" && d.tool != "fail"
    requires forall k :: 0 <= k < |history| ==> history[k].tool == ShownTool(env, d)
    ensures var t := TurnOf(env, history, |history|);
      && t.Records? && t.entry.status != "error"
      && t.entry.tool == ShownTool(env, d) && t.entry.args == RecordedArgs(d.args)
  {
    EscapeNeverRepeats(env, d, history);
    hide Repeats;
    assert env.decide(|history|) == d && StatusOf(env.outcome(|history|)) != "error";
  }

  lemma EscapeNeverRepeats(env: Env, d: Decision, history: seq<Entry>)
    requires Escapes(env, d) && forall k :: 0 <= k < |history| ==> history[k].tool == ShownTool(env, d)
    ensures !Repeats(history, d.tool, Candidate(d.args))
  {
    hide Threshold;
    if history != [] {
      var last := history[|history| - 1];
      assert last.tool == ShownTool(env, d);
      assert d.args.Other? ==> Dict(last.args) != Candidate(d.args);
    }
  }

  /** A decision that escapes the guard fills any number of turns with one and the same call. */
  lemma {:induction false} EscapingRun(env: Env, d: Decision, n: nat) returns (history: seq<Entry>)
    requires KeepsDeciding(env, d) && Escapes(env, d) && d.tool != "done" && d.tool != "fail"
    ensures |history| == n && Follows(env, history)
    ensures forall k :: 0 <= k < n ==> history[k].status != "error" && history[k].tool == ShownTool(env, d)
    ensures forall k :: 0 <= k < n ==> history[k].args == RecordedArgs(d.args)
  {
    hide *;
    if n == 0 {
      history := [];
      NothingYet(env, 0);
    } else {
      var before := EscapingRun(env, d, n - 1);
      EscapingTurn(env, d, before);
      var e := TurnOf(env, before, |before|).entry;
      AppendFollows(env, before, e);
      history := before + [e];
    }
  }

  lemma CaughtAtThreshold(env: Env, d: Decision, history: seq<Entry>)
    requires KeepsDeciding(env, d) && !Escapes(env, d) && Follows(env, history)
    ensures |history| <= Threshold(d.tool)
  {
    hide TurnOf, Threshold;
    var n := Threshold(d.tool);
    if |history| > n {
      var window := history[..n];
      forall k | 0 <= k < n
        ensures window[k].tool == d.tool && Dict(window[k].args) == Candidate(d.args)
      {
        assert window[k] == history[k];
        RecordedTurn(env, d, history[..k], k, history[k]);
      }
      AllAlikeRepeats(window, d.tool, Candidate(d.args));
      RecordedTurn(env, d, window, n, history[n]);
    }
  }

  lemma AllAlikeRepeats(window: seq<Entry>, tool: string, args: Args)
    requires |window| == Threshold(tool)
    requires forall k :: 0 <= k < |window| ==> window[k].tool == tool && Dict(window[k].args) == args
    ensures Repeats(window, tool, args)
  {
    hide Threshold;
  }

  /** A decision given for ever is stopped within Threshold turns if and only if it is neither an
      allowed tool with arguments that are no dict, nor a missing tool with dict (or no) arguments. */
  lemma GuardCatchesExactly(env: Env, d: Decision)
    requires KeepsDeciding(env, d) && d.tool != "done" && d.tool != "fail"
    ensures (forall history :: Follows(env, history) ==> |history| <= if ToleratesLoops(d.tool) then 3 else 2)
            <==> !Escapes(env, d)
  {
    hide Follows, KeepsDeciding, Escapes, ToleratesLoops;
    if Escapes(env, d) {
      var history := EscapingRun(env, d, Threshold(d.tool) + 1);
      assert Follows(env, history);
    } else {
      forall history | Follows(env, history) ensures |history| <= Threshold(d.tool) {
        CaughtAtThreshold(env, d, history);
      }
    }
  }

  // ---- observation

  predicate AllSpace(s: string, i: nat, j: nat) {
    forall k :: i <= k < j && k < |s| ==> IsSpace(s[k])
  }

  /** `open` stands at i, a space and then more of them until j, and `-a` and a space there. */
  predicate OpensAt(c: string, i: nat, j: nat) {
    && i + 4 < j && j + 2 < |c| && AllSpace(c, 0, i) && AllSpace(c, i + 4, j)
    && (c[i] == 'o' || c[i] == 'O') && (c[i + 1] == 'p' || c[i + 1] == 'P')
    && (c[i + 2] == 'e' || c[i + 2] == 'E') && (c[i + 3] == 'n' || c[i + 3] == 'N')
    && c[j] == '-' && (c[j + 1] == 'a' || c[j + 1] == 'A') && IsSpace(c[j + 2])
  }

  lemma LettersAreNoSpace()
    ensures !IsSpace('o') && !IsSpace('O') && !IsSpace('-')
  {
  }

  lemma EdgeIs(s: string, i: nat, e: nat)
    requires i <= e <= |s| && AllSpace(s, i, e) && (e < |s| ==> !IsSpace(s[e]))
    ensures LeftEdge(s, i) == e
  {
    hide IsSpace;
  }

  /** The commands taken to open an application: white space, `open` in any case, white space,
      `-a` in any case, white space, and whatever follows. */
  lemma OpensAppExactly(c: string)
    ensures OpensApp(c) <==> exists i: nat, j: nat :: OpensAt(c, i, j)
  {
    hide IsSpace;
    LettersAreNoSpace();
    if OpensApp(c) {
      var i := LeftEdge(c, 0);
      assert OpensAt(c, i, LeftEdge(c, i + 4));
    }
    if i: nat, j: nat :| OpensAt(c, i, j) {
      EdgeIs(c, 0, i);
      EdgeIs(c, i + 4, j);
    }
  }

  /** A turn takes a new screenshot unless the last step was a successful call of a tool that does
      not change the screen; a shell command that opens an application is not one. */
  lemma ObservesExactly(env: Env, history: seq<Entry>, k: nat)
    requires SCREENSHOT in env.allowed && !Cancelled(env, 2 * k)
    ensures Start(SCREENSHOT, 2 * k) in StartsOf(env, history, k)
            <==> !(&& |history| > 0 && history[|history| - 1].status == "success"
                   && (|| SkipsObservation(history[|history| - 1].tool)
                       || (history[|history| - 1].tool == "baselithbot_shell_run"
                           && !IsAppLaunch("baselithbot_shell_run", history[|history| - 1].args))))
  {
    hide SkipsObservation, IsAppLaunch, Repeats;
    assert Start(SCREENSHOT, 2 * k) !in [Start(env.decide(k).tool, 2 * k + 1)];
  }
}
