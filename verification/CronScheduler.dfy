/**
 The in-process job scheduler. The loop is a coroutine that gives way only while a job runs and
 while it sleeps, so a run is a sequence of uninterrupted turns of the loop with the public
 operations between them. Jobs are shared objects: a pass keeps the job objects it found, and a
 job re-added under the same name is a new object. Every clock reading and every next time of a
 cron expression is given with the operation.
 */
module CronScheduler {
  import opened Common

  datatype Job = Job(
    name: string, interval: real, nextRunAt: real, enabled: bool, runs: nat,
    lastRunAt: Option<real>, lastError: Option<string>, cron: bool)

  /** Where the loop is: not running, at its head, awaiting job due[i], or waiting. */
  datatype Place = Idle | Ready | Running(due: seq<nat>, i: nat) | Sleeping(since: real, sleepFor: real)

  /** One pass: its scan time, the jobs as scanned, and the jobs it has started so far. */
  datatype Pass = Pass(at: real, jobs: seq<Job>, table: seq<nat>, started: seq<nat>)

  /** `jobs` are all job objects ever made; `table` lists the registered ones in order.
      `passes` is the history. */
  datatype Sched = Sched(
    jobs: seq<Job>, table: seq<nat>, stop: bool, wake: bool, place: Place, passes: seq<Pass>, clock: real)

  datatype Op =
    | AddInterval(name: string, seconds: real, enabled: bool, at: real)
    | AddCron(name: string, enabled: bool, next: real, at: real)
    | Remove(name: string, at: real)
    | SetEnabled(name: string, enabled: bool, next: real, at: real)
    | SetInterval(name: string, seconds: real, at: real)
    | Trigger(name: string, at: real)
    | StartLoop(at: real)
    | StopLoop(at: real)
    | Turn(at: real, error: Option<string>, next: real, later: real)

  const Tick: real := 1.0
  const Shortest: real := 0.05

  // ------------------------------------------------------------- the table

  /** The position of a name in the table, from position i on; |table| when absent. */
  function FindFrom(jobs: seq<Job>, table: seq<nat>, name: string, i: nat): (p: nat)
    requires i <= |table| && forall k :: 0 <= k < |table| ==> table[k] < |jobs|
    ensures i <= p <= |table| && (p < |table| ==> jobs[table[p]].name == name)
    ensures forall k :: i <= k < p ==> jobs[table[k]].name != name
    decreases |table| - i
  {
    if i == |table| || jobs[table[i]].name == name then i else FindFrom(jobs, table, name, i + 1)
  }

  predicate TableOk(jobs: seq<Job>, table: seq<nat>) {
    && (forall k :: 0 <= k < |table| ==> table[k] < |jobs|)
    && forall j, k :: 0 <= j < k < |table| ==> jobs[table[j]].name != jobs[table[k]].name
  }

  function Find(s: Sched, name: string): (p: nat)
    requires TableOk(s.jobs, s.table)
  {
    FindFrom(s.jobs, s.table, name, 0)
  }

  /** A new object under a name: it takes the name's place in the table, or the end. */
  function Registered(s: Sched, job: Job): Sched
    requires TableOk(s.jobs, s.table)
  {
    var p := Find(s, job.name);
    s.(jobs := s.jobs + [job],
       table := if p < |s.table| then s.table[p := |s.jobs|] else s.table + [|s.jobs|],
       wake := true)
  }

  /** The object registered under a name, and the state with that object changed. */
  function Named(s: Sched, name: string): (id: nat)
    requires TableOk(s.jobs, s.table) && Find(s, name) < |s.table|
    ensures id < |s.jobs| && id in s.table && s.jobs[id].name == name
  {
    s.table[Find(s, name)]
  }

  function Changed(s: Sched, id: nat, job: Job): Sched
    requires id < |s.jobs|
  {
    s.(jobs := s.jobs[id := job], wake := true)
  }

  function WithEnabled(job: Job, enabled: bool, next: real, at: real): Job {
    if !enabled then job.(enabled := false)
    else job.(enabled := true, nextRunAt := if job.cron then next else at + job.interval)
  }

  /** A public operation; its answer is None where it raises ValueError. */
  function Called(s: Sched, op: Op): (r: (Sched, Option<bool>))
    requires TableOk(s.jobs, s.table) && !op.Turn?
  {
    match op
    case AddInterval(name, seconds, enabled, at) =>
      if seconds < 1.0 then (s, None)
      else (Registered(s, Job(name, seconds, at + seconds, enabled, 0, None, None, false)), Some(true))
    case AddCron(name, enabled, next, _) =>
      (Registered(s, Job(name, 0.0, next, enabled, 0, None, None, true)), Some(true))
    case Remove(name, _) =>
      var p := Find(s, name);
      if p == |s.table| then (s, Some(false))
      else (s.(table := s.table[..p] + s.table[p + 1..], wake := true), Some(true))
    case SetEnabled(name, enabled, next, at) =>
      if Find(s, name) == |s.table| then (s, Some(false))
      else
        var id := Named(s, name);
        (Changed(s, id, WithEnabled(s.jobs[id], enabled, next, at)), Some(true))
    case SetInterval(name, seconds, at) =>
      if seconds < 1.0 then (s, None)
      else if Find(s, name) == |s.table| || s.jobs[Named(s, name)].cron then (s, Some(false))
      else
        var id := Named(s, name);
        (Changed(s, id, s.jobs[id].(interval := seconds, nextRunAt := at + seconds)), Some(true))
    case Trigger(name, at) =>
      if Find(s, name) == |s.table| then (s, Some(false))
      else
        var id := Named(s, name);
        (Changed(s, id, s.jobs[id].(nextRunAt := at)), Some(true))
    case StartLoop(_) =>
      (if s.place != Idle then s else s.(stop := false, wake := false, place := Ready), Some(true))
    case StopLoop(_) => (s.(stop := true, wake := true), Some(true))
  }

  // ------------------------------------------------------------- the loop

  /** The jobs of a scan that are enabled and due, among the first k of the table. */
  function DueOf(jobs: seq<Job>, table: seq<nat>, k: nat, now: real): (due: seq<nat>)
    requires k <= |table| && TableOk(jobs, table)
    ensures forall id :: id in due ==> id < |jobs|
  {
    if k == 0 then []
    else DueOf(jobs, table, k - 1, now)
         + if jobs[table[k - 1]].enabled && jobs[table[k - 1]].nextRunAt <= now then [table[k - 1]] else []
  }

  /** The least time to go among the enabled of the first k jobs. */
  function LeastWait(jobs: seq<Job>, table: seq<nat>, k: nat, now: real): (w: Option<real>)
    requires k <= |table| && TableOk(jobs, table)
  {
    if k == 0 then None
    else
      var before := LeastWait(jobs, table, k - 1, now);
      var wait := jobs[table[k - 1]].nextRunAt - now;
      if !jobs[table[k - 1]].enabled || (before.Some? && before.value <= wait) then before else Some(wait)
  }

  function Clamped(w: Option<real>): (r: real)
    ensures Shortest <= r <= Tick
  {
    if w.None? || w.value >= Tick then Tick else if w.value <= Shortest then Shortest else w.value
  }

  function SleepFor(jobs: seq<Job>, table: seq<nat>, now: real): (r: real)
    requires TableOk(jobs, table)
    ensures Shortest <= r <= Tick
  {
    Clamped(LeastWait(jobs, table, |table|, now))
  }

  function Finished(job: Job, at: real, error: Option<string>, next: real): Job {
    job.(lastError := error, runs := job.runs + 1, lastRunAt := Some(at),
         nextRunAt := if job.cron then next else at + job.interval)
  }

  /** Start job i of the pass, or clear the wake flag and sleep when there is none left. */
  function Proceed(s: Sched, due: seq<nat>, i: nat, later: real): Sched
    requires TableOk(s.jobs, s.table) && s.passes != []
  {
    if i < |due| then
      var n := |s.passes| - 1;
      s.(place := Running(due, i), passes := s.passes[n := s.passes[n].(started := s.passes[n].started + [due[i]])])
    else s.(wake := false, place := Sleeping(later, SleepFor(s.jobs, s.table, later)))
  }

  function Begun(s: Sched, at: real, later: real): Sched
    requires TableOk(s.jobs, s.table)
  {
    if s.stop then s.(place := Idle)
    else
      Proceed(s.(passes := s.passes + [Pass(at, s.jobs, s.table, [])]), DueOf(s.jobs, s.table, |s.table|, at), 0, later)
  }

  function Completed(s: Sched, op: Op): Sched
    requires s.place.Running? && s.place.i < |s.place.due| && s.place.due[s.place.i] < |s.jobs|
    requires TableOk(s.jobs, s.table) && s.passes != [] && op.Turn?
  {
    var id := s.place.due[s.place.i];
    var job := Finished(s.jobs[id], op.at, op.error, op.next);
    Proceed(s.(jobs := s.jobs[id := job]), s.place.due, s.place.i + 1, op.later)
  }

  /** What holds between any two turns. */
  ghost predicate Inv(s: Sched) {
    && TableOk(s.jobs, s.table) && IntervalsOk(s.jobs) && PlaceOk(s)
    && (forall k :: 0 <= k < |s.passes| ==> PassOk(s, k))
  }

  predicate IntervalsOk(jobs: seq<Job>) {
    forall id :: 0 <= id < |jobs| && !jobs[id].cron ==> jobs[id].interval >= 1.0
  }

  /** While the loop sleeps, either it has been woken or its sleep is the one the present table asks for. */
  ghost predicate PlaceOk(s: Sched)
    requires TableOk(s.jobs, s.table)
  {
    match s.place
    case Running(due, i) => i < |due| && s.passes != [] && forall id :: id in due ==> id < |s.jobs|
    case Sleeping(since, sleepFor) =>
      && Shortest <= sleepFor <= Tick && since <= s.clock
      && (!s.wake ==> sleepFor == SleepFor(s.jobs, s.table, since))
    case _ => true
  }

  /** A pass starts the jobs its scan found due, in order; all but a pass under way have started them all. */
  ghost predicate PassOk(s: Sched, k: int)
    requires 0 <= k < |s.passes|
  {
    var p := s.passes[k];
    && TableOk(p.jobs, p.table) && p.at <= s.clock
    && var due := DueOf(p.jobs, p.table, |p.table|, p.at);
      if k == |s.passes| - 1 && s.place.Running?
      then s.place.due == due && s.place.i < |due| && p.started == due[..s.place.i + 1]
      else p.started == due
  }

  ghost predicate Allowed(s: Sched, op: Op) {
    && s.clock <= op.at
    && (op.Turn? ==>
          && op.at <= op.later && s.place != Idle
          && (s.place.Sleeping? ==> s.stop || s.wake || s.place.since + s.place.sleepFor <= op.at))
  }

  ghost predicate CanStep(s: Sched) {
    && TableOk(s.jobs, s.table)
    && (s.place.Running? ==>
          s.passes != [] && s.place.i < |s.place.due| && s.place.due[s.place.i] < |s.jobs|)
  }

  ghost function Step(s: Sched, op: Op): (r: Sched)
    requires CanStep(s)
  {
    if !op.Turn? then Called(s, op).0.(clock := op.at)
    else
      var next := match s.place
        case Idle => s
        case Running(_, _) => Completed(s, op)
        case _ => Begun(s, op.at, op.later);
      next.(clock := op.later)
  }

  class CronScheduler {
    var jobs: seq<Job>
    var table: seq<nat>
    var stop: bool
    var wake: bool
    var place: Place
    ghost var passes: seq<Pass>
    ghost var clock: real

    ghost function Abs(): Sched
      reads this
    {
      Sched(jobs, table, stop, wake, place, passes, clock)
    }

    constructor ()
      ensures Abs() == New
    {
      jobs, table, stop, wake, place, passes, clock := [], [], false, false, Idle, [], 0.0;
    }

    function Position(name: string): (p: nat)
      requires TableOk(jobs, table)
      reads this
      ensures p == FindFrom(jobs, table, name, 0)
    {
      FindFrom(jobs, table, name, 0)
    }

    method Register(job: Job)
      requires TableOk(jobs, table)
      modifies this
      ensures Abs() == Registered(old(Abs()), job)
    {
      var p := Position(job.name);
      table := if p < |table| then table[p := |jobs|] else table + [|jobs|];
      jobs := jobs + [job];
      wake := true;
    }

    method AddIntervalJob(name: string, seconds: real, enabled: bool, at: real) returns (ok: bool)
      requires CanStep(Abs())
      modifies this
      ensures Abs() == Step(old(Abs()), AddInterval(name, seconds, enabled, at))
      ensures ok <==> Called(old(Abs()), AddInterval(name, seconds, enabled, at)).1.Some?
    {
      ok := seconds >= 1.0;
      if ok {
        Register(Job(name, seconds, at + seconds, enabled, 0, None, None, false));
      }
      clock := at;
    }

    method AddCronJob(name: string, enabled: bool, next: real, at: real)
      requires CanStep(Abs())
      modifies this
      ensures Abs() == Step(old(Abs()), AddCron(name, enabled, next, at))
    {
      Register(Job(name, 0.0, next, enabled, 0, None, None, true));
      clock := at;
    }

    method RemoveJob(name: string, at: real) returns (existed: bool)
      requires CanStep(Abs())
      modifies this
      ensures Abs() == Step(old(Abs()), Remove(name, at))
      ensures Some(existed) == Called(old(Abs()), Remove(name, at)).1
    {
      var p := Position(name);
      existed := p < |table|;
      if existed {
        table := table[..p] + table[p + 1..];
        wake := true;
      }
      clock := at;
    }

    method SetJobEnabled(name: string, enabled: bool, next: real, at: real) returns (found: bool)
      requires CanStep(Abs())
      modifies this
      ensures Abs() == Step(old(Abs()), SetEnabled(name, enabled, next, at))
      ensures Some(found) == Called(old(Abs()), SetEnabled(name, enabled, next, at)).1
    {
      var p := Position(name);
      found := p < |table|;
      if found {
        var job := jobs[table[p]].(enabled := enabled);
        if enabled {
          job := job.(nextRunAt := if job.cron then next else at + job.interval);
        }
        jobs := jobs[table[p] := job];
        wake := true;
      }
      clock := at;
    }

    method SetJobInterval(name: string, seconds: real, at: real) returns (answer: Option<bool>)
      requires CanStep(Abs())
      modifies this
      ensures Abs() == Step(old(Abs()), SetInterval(name, seconds, at))
      ensures answer == Called(old(Abs()), SetInterval(name, seconds, at)).1
    {
      clock := at;
      if seconds < 1.0 {
        return None;
      }
      var p := Position(name);
      if p == |table| || jobs[table[p]].cron {
        return Some(false);
      }
      jobs := jobs[table[p] := jobs[table[p]].(interval := seconds, nextRunAt := at + seconds)];
      wake := true;
      answer := Some(true);
    }

    method TriggerJob(name: string, at: real) returns (found: bool)
      requires CanStep(Abs())
      modifies this
      ensures Abs() == Step(old(Abs()), Trigger(name, at))
      ensures Some(found) == Called(old(Abs()), Trigger(name, at)).1
    {
      var p := Position(name);
      found := p < |table|;
      if found {
        jobs := jobs[table[p] := jobs[table[p]].(nextRunAt := at)];
        wake := true;
      }
      clock := at;
    }

    method Start(at: real)
      requires CanStep(Abs())
      modifies this
      ensures Abs() == Step(old(Abs()), StartLoop(at))
    {
      if place == Idle {
        stop, wake, place := false, false, Ready;
      }
      clock := at;
    }

    method Stop(at: real)
      requires CanStep(Abs())
      modifies this
      ensures Abs() == Step(old(Abs()), StopLoop(at))
    {
      stop, wake, clock := true, true, at;
    }

    method Scan(now: real) returns (due: seq<nat>)
      requires TableOk(jobs, table)
      ensures due == DueOf(jobs, table, |table|, now)
    {
      due := [];
      for k := 0 to |table|
        invariant due == DueOf(jobs, table, k, now)
      {
        var job := jobs[table[k]];
        if job.enabled && job.nextRunAt <= now {
          due := due + [table[k]];
        }
      }
    }

    method SleepUntilNext(now: real) returns (r: real)
      requires TableOk(jobs, table)
      ensures r == SleepFor(jobs, table, now)
    {
      var least: Option<real> := None;
      for k := 0 to |table|
        invariant least == LeastWait(jobs, table, k, now)
      {
        var job := jobs[table[k]];
        if job.enabled && (least.None? || job.nextRunAt - now < least.value) {
          least := Some(job.nextRunAt - now);
        }
      }
      r := Clamped(least);
    }

    method StartNextOrSleep(due: seq<nat>, i: nat, later: real)
      requires TableOk(jobs, table) && passes != []
      modifies this
      ensures Abs() == Proceed(old(Abs()), due, i, later)
    {
      if i < |due| {
        place := Running(due, i);
        ghost var n := |passes| - 1;
        passes := passes[n := passes[n].(started := passes[n].started + [due[i]])];
      } else {
        var sleepFor := SleepUntilNext(later);
        wake, place := false, Sleeping(later, sleepFor);
      }
    }

    method BeginPass(at: real, later: real)
      requires CanStep(Abs())
      modifies this
      ensures Abs() == Begun(old(Abs()), at, later)
    {
      hide DueOf, LeastWait, FindFrom;
      if stop {
        place := Idle;
      } else {
        var due := Scan(at);
        passes := passes + [Pass(at, jobs, table, [])];
        StartNextOrSleep(due, 0, later);
      }
    }

    method CompleteJob(at: real, error: Option<string>, next: real, later: real)
      requires CanStep(Abs()) && place.Running?
      modifies this
      ensures Abs() == Completed(old(Abs()), Turn(at, error, next, later))
    {
      hide DueOf, LeastWait, FindFrom, Proceed;
      var due, i := place.due, place.i;
      var job := jobs[due[i]];
      job := job.(lastError := error, runs := job.runs + 1, lastRunAt := Some(at));
      job := job.(nextRunAt := if job.cron then next else at + job.interval);
      jobs := jobs[due[i] := job];
      StartNextOrSleep(due, i + 1, later);
    }

    /** What the loop does between two awaits. */
    method RunTurn(at: real, error: Option<string>, next: real, later: real)
      requires CanStep(Abs())
      modifies this
      ensures Abs() == Step(old(Abs()), Turn(at, error, next, later))
    {
      hide DueOf, LeastWait, FindFrom, Proceed, Finished;
      match place {
        case Idle =>
        case Running(_, _) => CompleteJob(at, error, next, later);
        case _ => BeginPass(at, later);
      }
      clock := later;
    }
  }

  const New: Sched := Sched([], [], false, false, Idle, [], 0.0)

  // ------------------------------------------------------------- scans and sleeps

  /** A scan finds each enabled job whose time has come, once, and no other. */
  lemma {:induction false} DueExactly(jobs: seq<Job>, table: seq<nat>, k: nat, now: real)
    requires k <= |table| && TableOk(jobs, table)
    ensures Distinct(DueOf(jobs, table, k, now))
    ensures forall id :: id in DueOf(jobs, table, k, now) <==>
      id in table[..k] && id < |jobs| && jobs[id].enabled && jobs[id].nextRunAt <= now
  {
    if k > 0 {
      DueExactly(jobs, table, k - 1, now);
      assert table[..k] == table[..k - 1] + [table[k - 1]];
    }
  }

  lemma {:induction false} WaitIsLeast(jobs: seq<Job>, table: seq<nat>, k: nat, now: real)
    requires k <= |table| && TableOk(jobs, table)
    ensures var w := LeastWait(jobs, table, k, now);
      && (forall j :: 0 <= j < k && jobs[table[j]].enabled ==> w.Some? && w.value <= jobs[table[j]].nextRunAt - now)
      && (w.Some? ==> exists j :: 0 <= j < k && jobs[table[j]].enabled && w.value == jobs[table[j]].nextRunAt - now)
  {
    if k > 0 {
      WaitIsLeast(jobs, table, k - 1, now);
    }
  }

  /** The job's own time, or the shortest sleep when that is nearer, is r from now. */
  predicate WantsSleep(job: Job, now: real, r: real) {
    job.enabled && (r == job.nextRunAt - now || (r == Shortest && job.nextRunAt - now <= Shortest))
  }

  /** A sleep lasts from 0.05 to 1 second, passes no enabled job's time by more than 0.05, and is
      shorter than a tick only because some enabled job wants it. */
  lemma SleepIsRight(jobs: seq<Job>, table: seq<nat>, now: real)
    requires TableOk(jobs, table)
    ensures var r := SleepFor(jobs, table, now);
      && 0.05 <= r <= 1.0
      && (forall j :: 0 <= j < |table| && jobs[table[j]].enabled ==> now + r <= jobs[table[j]].nextRunAt || r == 0.05)
      && (r < 1.0 ==> exists j :: 0 <= j < |table| && WantsSleep(jobs[table[j]], now, r))
  {
    WaitIsLeast(jobs, table, |table|, now);
  }

  // ------------------------------------------------------------- invariants

  lemma RegisteredKeepsInv(s: Sched, job: Job)
    requires Inv(s) && (!job.cron ==> job.interval >= 1.0)
    ensures Inv(Registered(s, job))
  {
    hide DueOf, LeastWait, FindFrom, Clamped;
    var p, r := Find(s, job.name), Registered(s, job);
    forall j, k | 0 <= j < k < |r.table| ensures r.jobs[r.table[j]].name != r.jobs[r.table[k]].name {
      assert j < |s.table| && j != p ==> r.jobs[r.table[j]] == s.jobs[s.table[j]];
      assert k < |s.table| && k != p ==> r.jobs[r.table[k]] == s.jobs[s.table[k]];
    }
    forall k | 0 <= k < |r.passes| ensures PassOk(r, k) {
      assert PassOk(s, k);
    }
  }

  lemma ChangedKeepsInv(s: Sched, id: nat, job: Job)
    requires Inv(s) && id < |s.jobs|
    requires job.name == s.jobs[id].name && (!job.cron ==> job.interval >= 1.0)
    ensures Inv(Changed(s, id, job))
  {
    hide DueOf, LeastWait, FindFrom, Clamped;
    var r := Changed(s, id, job);
    assert TableOk(r.jobs, r.table);
    forall k | 0 <= k < |r.passes| ensures PassOk(r, k) {
      assert PassOk(s, k);
    }
  }

  lemma RemovedKeepsInv(s: Sched, p: nat)
    requires Inv(s) && p < |s.table|
    ensures Inv(s.(table := s.table[..p] + s.table[p + 1..], wake := true))
  {
    hide DueOf, LeastWait, FindFrom, Clamped;
    var table := s.table[..p] + s.table[p + 1..];
    assert forall k :: 0 <= k < |table| ==> table[k] == s.table[if k < p then k else k + 1];
    var r := s.(table := table, wake := true);
    forall k | 0 <= k < |r.passes| ensures PassOk(r, k) {
      assert PassOk(s, k);
    }
  }

  lemma ClockKeepsInv(s: Sched, at: real)
    requires Inv(s) && s.clock <= at
    ensures Inv(s.(clock := at))
  {
    hide DueOf, LeastWait, FindFrom, Clamped;
    var r := s.(clock := at);
    forall k | 0 <= k < |r.passes| ensures PassOk(r, k) {
      assert PassOk(s, k);
    }
  }

  lemma CallKeepsInv(s: Sched, op: Op)
    requires Inv(s) && !op.Turn?
    ensures Inv(Called(s, op).0)
  {
    hide DueOf, LeastWait, FindFrom, Clamped, Inv, Registered, Changed;
    TableOfInv(s);
    match op
    case AddInterval(name, seconds, enabled, at) =>
      if seconds >= 1.0 {
        RegisteredKeepsInv(s, Job(name, seconds, at + seconds, enabled, 0, None, None, false));
      }
    case AddCron(name, enabled, next, _) =>
      RegisteredKeepsInv(s, Job(name, 0.0, next, enabled, 0, None, None, true));
    case Remove(name, _) =>
      if Find(s, name) < |s.table| {
        RemovedKeepsInv(s, Find(s, name));
      }
    case SetEnabled(name, enabled, next, at) =>
      if Find(s, name) < |s.table| {
        var id := Named(s, name);
        ChangedKeepsInv(s, id, WithEnabled(s.jobs[id], enabled, next, at));
      }
    case SetInterval(name, seconds, at) =>
      if seconds >= 1.0 && Find(s, name) < |s.table| {
        var id := Named(s, name);
        ChangedKeepsInv(s, id, s.jobs[id].(interval := seconds, nextRunAt := at + seconds));
      }
    case Trigger(name, at) =>
      if Find(s, name) < |s.table| {
        var id := Named(s, name);
        ChangedKeepsInv(s, id, s.jobs[id].(nextRunAt := at));
      }
    case StartLoop(_) =>
      if s.place == Idle {
        PlaceKeepsInv(s, false, Ready);
      }
    case StopLoop(_) => StopKeepsInv(s);
  }

  lemma TableOfInv(s: Sched)
    requires Inv(s)
    ensures TableOk(s.jobs, s.table) && IntervalsOk(s.jobs) && CanStep(s)
  {
    assert s.place.Running? ==> s.place.due[s.place.i] in s.place.due;
  }

  lemma PlaceKeepsInv(s: Sched, stop: bool, place: Place)
    requires Inv(s) && !s.place.Running? && (place == Ready || place == Idle)
    ensures Inv(s.(stop := stop, place := place)) && Inv(s.(stop := stop, wake := false, place := place))
  {
    hide DueOf, LeastWait, FindFrom, Clamped;
    var a, b := s.(stop := stop, place := place), s.(stop := stop, wake := false, place := place);
    forall k | 0 <= k < |s.passes| ensures PassOk(a, k) && PassOk(b, k) {
      assert PassOk(s, k);
    }
  }

  lemma StopKeepsInv(s: Sched)
    requires Inv(s)
    ensures Inv(s.(stop := true, wake := true))
  {
    hide DueOf, LeastWait, FindFrom, Clamped;
    var r := s.(stop := true, wake := true);
    forall k | 0 <= k < |r.passes| ensures PassOk(r, k) {
      assert PassOk(s, k);
    }
  }

  /** Going on with a pass whose first i due jobs have been started. */
  ghost predicate MidPass(s: Sched, due: seq<nat>, i: nat) {
    && TableOk(s.jobs, s.table) && IntervalsOk(s.jobs) && s.passes != [] && i <= |due|
    && (forall id :: id in due ==> id < |s.jobs|)
    && (forall k :: 0 <= k < |s.passes| - 1 ==> PassOk(s, k))
    && var p := s.passes[|s.passes| - 1];
      TableOk(p.jobs, p.table) && p.at <= s.clock && due == DueOf(p.jobs, p.table, |p.table|, p.at)
      && p.started == due[..i]
  }

  lemma ProceedKeepsInv(s: Sched, due: seq<nat>, i: nat, later: real)
    requires MidPass(s, due, i) && s.clock == later
    ensures Inv(Proceed(s, due, i, later))
  {
    hide DueOf, LeastWait, FindFrom, Clamped, TableOk, IntervalsOk;
    var r := Proceed(s, due, i, later);
    forall k | 0 <= k < |r.passes| ensures PassOk(r, k) {
      if k < |s.passes| - 1 {
        assert PassOk(s, k);
        assert r.passes[k] == s.passes[k];
      } else {
        assert i < |due| ==> due[..i] + [due[i]] == due[..i + 1];
        assert i == |due| ==> due[..i] == due;
      }
    }
  }

  lemma BegunKeepsInv(s: Sched, at: real, later: real)
    requires Inv(s) && at <= later == s.clock && (s.place.Ready? || s.place.Sleeping?)
    ensures Inv(Begun(s, at, later))
  {
    hide DueOf, LeastWait, FindFrom, Clamped, Proceed, TableOk, IntervalsOk;
    if s.stop {
      PlaceKeepsInv(s, true, Idle);
    } else {
      var r := s.(passes := s.passes + [Pass(at, s.jobs, s.table, [])]);
      forall k | 0 <= k < |s.passes| ensures PassOk(r, k) {
        assert PassOk(s, k);
      }
      ProceedKeepsInv(r, DueOf(s.jobs, s.table, |s.table|, at), 0, later);
    }
  }

  lemma CompletedKeepsInv(s: Sched, op: Op)
    requires Inv(s) && CanStep(s) && s.place.Running? && op.Turn? && op.at <= op.later == s.clock
    ensures Inv(Completed(s, op))
  {
    hide DueOf, LeastWait, FindFrom, Clamped, Proceed;
    var due, i := s.place.due, s.place.i;
    var r := s.(jobs := s.jobs[due[i] := Finished(s.jobs[due[i]], op.at, op.error, op.next)]);
    assert PassOk(s, |s.passes| - 1);
    forall k | 0 <= k < |s.passes| - 1 ensures PassOk(r, k) {
      assert PassOk(s, k);
    }
    ProceedKeepsInv(r, due, i + 1, op.later);
  }

  lemma StepKeepsInv(s: Sched, op: Op)
    requires Inv(s) && Allowed(s, op)
    ensures CanStep(s) && Inv(Step(s, op))
  {
    hide DueOf, LeastWait, FindFrom, Clamped, Proceed, Inv, TableOk, Called;
    TableOfInv(s);
    if !op.Turn? {
      CallKeepsInv(s, op);
      CallKeepsClock(s, op);
      ClockKeepsInv(Called(s, op).0, op.at);
    } else {
      ClockKeepsInv(s, op.later);
      var t := s.(clock := op.later);
      TableOfInv(t);
      ProceedIgnoresClock(s, op);
      if s.place.Running? {
        CompletedKeepsInv(t, op);
      } else {
        BegunKeepsInv(t, op.at, op.later);
      }
    }
  }

  lemma CallKeepsClock(s: Sched, op: Op)
    requires TableOk(s.jobs, s.table) && !op.Turn?
    ensures Called(s, op).0.clock == s.clock
  {
    hide FindFrom;
  }

  lemma ProceedIgnoresClock(s: Sched, op: Op)
    requires CanStep(s) && op.Turn? && s.place != Idle
    ensures CanStep(s.(clock := op.later))
    ensures Step(s, op) == var t := s.(clock := op.later);
      if s.place.Running? then Completed(t, op) else Begun(t, op.at, op.later)
  {
    hide DueOf, LeastWait, FindFrom, Clamped, Finished;
  }

  // ------------------------------------------------------------- whole runs

  /** `states` is a run of the operations `ops`, each allowed where it happens. */
  ghost predicate IsRun(states: seq<Sched>, ops: seq<Op>) {
    && |states| == |ops| + 1 && states[0] == New
    && forall k :: 0 <= k < |ops| ==>
         Allowed(states[k], ops[k]) && (CanStep(states[k]) ==> states[k + 1] == Step(states[k], ops[k]))
  }

  /** In every state of every run: every pass but one under way has started exactly the jobs its
      scan found due, in order; and while the loop sleeps unwoken, its sleep is the one that the
      present jobs ask for, so that clearing the wake flag has lost no change. */
  lemma {:induction false} RunInv(states: seq<Sched>, ops: seq<Op>, k: nat)
    requires IsRun(states, ops) && k <= |ops|
    ensures Inv(states[k])
  {
    hide Step, Inv, Allowed, CanStep;
    if k == 0 {
      NewIsFine();
    } else {
      RunInv(states, ops, k - 1);
      StepKeepsInv(states[k - 1], ops[k - 1]);
    }
  }

  lemma NewIsFine()
    ensures Inv(New)
  {
  }

  /** Each job is started in a pass once if it was enabled and due at the scan, and not otherwise. */
  lemma PassStartsDue(s: Sched, n: nat)
    requires Inv(s) && n < |s.passes|
    ensures var p := s.passes[n];
      && Distinct(p.started)
      && (forall id :: id in p.started ==>
            id in p.table && id < |p.jobs| && p.jobs[id].enabled && p.jobs[id].nextRunAt <= p.at)
      && (n < |s.passes| - 1 || !s.place.Running? ==>
            forall id :: id in p.table && id < |p.jobs| && p.jobs[id].enabled && p.jobs[id].nextRunAt <= p.at ==>
              id in p.started)
  {
    hide DueOf, LeastWait, TableOk;
    var p := s.passes[n];
    assert PassOk(s, n);
    DueExactly(p.jobs, p.table, |p.table|, p.at);
    assert p.table[..|p.table|] == p.table;
    var due := DueOf(p.jobs, p.table, |p.table|, p.at);
    assert due[..|due|] == due;
  }

  /** While the loop sleeps and nothing has woken it, its sleep overshoots no registered enabled
      job's present time by more than 0.05. */
  lemma NoLostWakeUp(s: Sched, j: nat)
    requires Inv(s) && s.place.Sleeping? && j < |s.table| && s.jobs[s.table[j]].enabled
    ensures Shortest <= s.place.sleepFor <= Tick
    ensures var wakeAt := s.place.since + s.place.sleepFor;
      s.wake || wakeAt <= s.jobs[s.table[j]].nextRunAt || wakeAt <= s.place.since + Shortest
  {
    hide DueOf, LeastWait, SleepFor, PassOk, IntervalsOk;
    SleepIsRight(s.jobs, s.table, s.place.since);
  }

  // ------------------------------------------------------------- what each operation does

  /** Of the jobs only the object `id` may differ, nothing else of the scheduler but that it is woken. */
  predicate OnlyJob(s: Sched, t: Sched, id: nat) {
    && |t.jobs| == |s.jobs| && t.table == s.table && t.stop == s.stop && t.wake
    && t.place == s.place && t.passes == s.passes
    && forall o :: 0 <= o < |s.jobs| && o != id ==> t.jobs[o] == s.jobs[o]
  }

  /** Whether a name is registered. */
  predicate Has(s: Sched, name: string)
    requires TableOk(s.jobs, s.table)
  {
    exists k :: 0 <= k < |s.table| && s.jobs[s.table[k]].name == name
  }

  lemma HasIsFound(s: Sched, name: string)
    requires TableOk(s.jobs, s.table)
    ensures Has(s, name) <==> Find(s, name) < |s.table|
  {
    hide FindFrom;
    if Find(s, name) < |s.table| {
      assert s.jobs[s.table[Find(s, name)]].name == name;
    }
  }

  /** `id` is the object registered under the name. */
  predicate IsNamed(s: Sched, name: string, id: nat)
    requires TableOk(s.jobs, s.table)
  {
    id in s.table && id < |s.jobs| && s.jobs[id].name == name
  }

  lemma NamedIsOne(s: Sched, name: string, id: nat)
    requires TableOk(s.jobs, s.table) && IsNamed(s, name, id)
    ensures Has(s, name) && Find(s, name) < |s.table| && Named(s, name) == id
  {
    hide FindFrom;
    var k :| 0 <= k < |s.table| && s.table[k] == id;
    assert s.jobs[s.table[k]].name == name;
  }

  /** The operation answers false and changes nothing for a name that is not registered. */
  lemma UnknownName(s: Sched, op: Op)
    requires CanStep(s) && (op.SetEnabled? || op.Trigger? || op.Remove? || (op.SetInterval? && op.seconds >= 1.0))
    requires !Has(s, op.name)
    ensures Called(s, op).1 == Some(false) && Step(s, op) == s.(clock := op.at)
  {
    hide FindFrom;
    HasIsFound(s, op.name);
  }

  /** set_enabled gives the named job exactly the flag asked for; switching off changes nothing
      else of it, switching on reschedules it too. */
  lemma EnabledExactly(s: Sched, name: string, id: nat, enabled: bool, next: real, at: real)
    requires CanStep(s) && IsNamed(s, name, id)
    ensures var op := SetEnabled(name, enabled, next, at);
      var t, was := Step(s, op), s.jobs[id];
      && Called(s, op).1 == Some(true) && OnlyJob(s, t, id) && t.jobs[id].enabled == enabled
      && (!enabled ==> t.jobs[id] == was.(enabled := false))
      && (enabled && was.cron ==> t.jobs[id] == was.(enabled := true, nextRunAt := next))
      && (enabled && !was.cron ==> t.jobs[id] == was.(enabled := true, nextRunAt := at + was.interval))
  {
    hide FindFrom, Find, Named;
    NamedIsOne(s, name, id);
  }

  /** set_interval gives an interval job the interval, counted from now; it refuses a cron job and
      raises below one second. */
  lemma IntervalExactly(s: Sched, name: string, id: nat, seconds: real, at: real)
    requires CanStep(s) && IsNamed(s, name, id)
    ensures var op := SetInterval(name, seconds, at);
      var t, was := Step(s, op), s.jobs[id];
      && (seconds < 1.0 ==> Called(s, op).1 == None && t == s.(clock := at))
      && (seconds >= 1.0 && was.cron ==> Called(s, op).1 == Some(false) && t == s.(clock := at))
      && (seconds >= 1.0 && !was.cron ==>
            Called(s, op).1 == Some(true) && OnlyJob(s, t, id)
            && t.jobs[id] == was.(interval := seconds, nextRunAt := at + seconds))
  {
    hide FindFrom, Find, Named;
    NamedIsOne(s, name, id);
  }

  /** trigger makes the named job due now, enabled or not. */
  lemma TriggeredExactly(s: Sched, name: string, id: nat, at: real)
    requires CanStep(s) && IsNamed(s, name, id)
    ensures var op := Trigger(name, at);
      var t := Step(s, op);
      Called(s, op).1 == Some(true) && OnlyJob(s, t, id) && t.jobs[id] == s.jobs[id].(nextRunAt := at)
  {
    hide FindFrom, Find, Named;
    NamedIsOne(s, name, id);
  }

  /** remove takes the name off the table and nothing else; the object itself stays as it is. */
  lemma RemovedExactly(s: Sched, name: string, at: real)
    requires CanStep(s) && Has(s, name)
    ensures var op := Remove(name, at);
      var t := Step(s, op);
      && Called(s, op).1 == Some(true) && t.jobs == s.jobs && t.wake && t.stop == s.stop
      && t.place == s.place && t.passes == s.passes
      && (forall id :: id in t.table <==> id in s.table && s.jobs[id].name != name)
      && |t.table| == |s.table| - 1
  {
    hide FindFrom;
    HasIsFound(s, name);
    var p := Find(s, name);
    var rest := s.table[..p] + s.table[p + 1..];
    forall id ensures id in rest <==> id in s.table && s.jobs[id].name != name {
      if id in rest {
        var k :| 0 <= k < |rest| && rest[k] == id;
        assert s.table[if k < p then k else k + 1] == id;
      }
      if id in s.table && s.jobs[id].name != name {
        RemovedKeepsEntries(s, p, id);
      }
    }
  }

  /** Adding a job: a new object with the given name, flag and first time, never run. It takes the
      place of the name in the table, or the end of it; no other object or entry changes. */
  lemma AddedExactly(s: Sched, op: Op)
    requires CanStep(s) && (op.AddInterval? || op.AddCron?)
    ensures var t, n := Step(s, op), |s.jobs|;
      if op.AddInterval? && op.seconds < 1.0 then Called(s, op).1 == None && t == s.(clock := op.at)
      else
        && Called(s, op).1 == Some(true) && t.wake && t.stop == s.stop && t.place == s.place && t.passes == s.passes
        && |t.jobs| == n + 1 && t.jobs[..n] == s.jobs
        && t.jobs[n] == Job(op.name, if op.AddInterval? then op.seconds else 0.0,
                            if op.AddInterval? then op.at + op.seconds else op.next, op.enabled, 0, None, None,
                            op.AddCron?)
        && |t.table| == (if Has(s, op.name) then |s.table| else |s.table| + 1)
        && (!Has(s, op.name) ==> t.table[|s.table|] == n)
        && forall k :: 0 <= k < |s.table| ==> t.table[k] == if s.jobs[s.table[k]].name == op.name then n else s.table[k]
  {
    hide FindFrom;
    HasIsFound(s, op.name);
  }

  /** start begins only an idle loop, with both flags cleared; stop sets both and nothing else. */
  lemma StartStopExactly(s: Sched, at: real)
    requires CanStep(s)
    ensures Step(s, StartLoop(at))
            == if s.place == Idle then s.(stop := false, wake := false, place := Ready, clock := at)
               else s.(clock := at)
    ensures Step(s, StopLoop(at)) == s.(stop := true, wake := true, clock := at)
  {
    hide FindFrom;
  }

  /** When a job's run is over, one more run is counted and its end and error are noted, and an
      interval job is due its interval later. No other job changes. */
  lemma CompletionExactly(s: Sched, op: Op)
    requires CanStep(s) && s.place.Running? && op.Turn?
    ensures var t, id := Step(s, op), s.place.due[s.place.i];
      && |t.jobs| == |s.jobs| && (forall o :: 0 <= o < |s.jobs| && o != id ==> t.jobs[o] == s.jobs[o])
      && t.jobs[id].runs == s.jobs[id].runs + 1 && t.jobs[id].lastRunAt == Some(op.at)
      && t.jobs[id].lastError == op.error
      && t.jobs[id].nextRunAt == (if s.jobs[id].cron then op.next else op.at + s.jobs[id].interval)
      && t.jobs[id].enabled == s.jobs[id].enabled && t.jobs[id].interval == s.jobs[id].interval
      && t.jobs[id].name == s.jobs[id].name && t.jobs[id].cron == s.jobs[id].cron && t.table == s.table
  {
    hide DueOf, LeastWait, FindFrom, Proceed, Finished;
    ProceedKeepsJobs(s, op);
    FinishedIs(s.jobs[s.place.due[s.place.i]], op);
    ProceedKeepsTable(s, op);
  }

  lemma FinishedIs(job: Job, op: Op)
    requires op.Turn?
    ensures var f := Finished(job, op.at, op.error, op.next);
      && f.runs == job.runs + 1 && f.lastRunAt == Some(op.at) && f.lastError == op.error
      && f.nextRunAt == (if job.cron then op.next else op.at + job.interval)
      && f.enabled == job.enabled && f.interval == job.interval && f.name == job.name && f.cron == job.cron
  {
  }

  lemma ProceedKeepsTable(s: Sched, op: Op)
    requires CanStep(s) && s.place.Running? && op.Turn?
    ensures Step(s, op).table == s.table
  {
    hide DueOf, LeastWait, FindFrom, TableOk, Finished;
  }

  // ------------------------------------------------------------- disabled jobs

  /** The job object is disabled, and so it was for every pass from the n-th on. */
  ghost predicate OffSince(s: Sched, id: nat, n: nat) {
    && id < |s.jobs| && !s.jobs[id].enabled
    && forall k :: n <= k < |s.passes| ==> id < |s.passes[k].jobs| && !s.passes[k].jobs[id].enabled
  }

  /** The operation switches the job object on. */
  predicate SwitchesOn(s: Sched, op: Op, id: nat)
    requires TableOk(s.jobs, s.table)
  {
    op.SetEnabled? && op.enabled && IsNamed(s, op.name, id)
  }

  lemma CallKeepsOff(s: Sched, op: Op, id: nat, n: nat)
    requires CanStep(s) && !op.Turn? && OffSince(s, id, n) && !SwitchesOn(s, op, id)
    ensures OffSince(Step(s, op), id, n)
  {
    hide FindFrom;
  }

  lemma SameScan(p: Pass, q: Pass)
    requires p.(started := []) == q.(started := [])
    ensures p.jobs == q.jobs && p.table == q.table && p.at == q.at
  {
    assert p.(started := []).jobs == p.jobs && q.(started := []).jobs == q.jobs;
    assert p.(started := []).table == p.table && q.(started := []).table == q.table;
    assert p.(started := []).at == p.at && q.(started := []).at == q.at;
  }

  /** A turn adds at most one pass, which scans the jobs as they were. */
  lemma TurnScans(s: Sched, op: Op)
    requires CanStep(s) && op.Turn?
    ensures var t := Step(s, op);
      && |s.passes| <= |t.passes| <= |s.passes| + 1
      && (|t.passes| > |s.passes| ==> t.passes[|s.passes|].jobs == s.jobs && t.jobs == s.jobs)
  {
    hide DueOf, LeastWait, FindFrom, TableOk, Finished;
  }

  lemma TurnKeepsOff(s: Sched, op: Op, id: nat, n: nat)
    requires CanStep(s) && op.Turn? && OffSince(s, id, n)
    ensures OffSince(Step(s, op), id, n)
  {
    hide Step, CanStep, TableOk;
    var t := Step(s, op);
    TurnKeepsFlags(s, op, id);
    TurnScans(s, op);
    forall k | n <= k < |t.passes| ensures id < |t.passes[k].jobs| && !t.passes[k].jobs[id].enabled {
      if k < |s.passes| {
        StepKeepsScan(s, op, k);
        SameScan(s.passes[k], t.passes[k]);
      }
    }
  }

  lemma TurnKeepsFlags(s: Sched, op: Op, id: nat)
    requires CanStep(s) && op.Turn? && id < |s.jobs|
    ensures id < |Step(s, op).jobs| && Step(s, op).jobs[id].enabled == s.jobs[id].enabled
  {
    hide DueOf, LeastWait, FindFrom, TableOk;
  }

  /** From step a on, up to but not at step b, nothing switches the job object on. */
  ghost predicate LeftOff(states: seq<Sched>, ops: seq<Op>, id: nat, a: nat, b: nat)
    requires |states| == |ops| + 1 && b <= |ops|
  {
    forall k :: a <= k < b && CanStep(states[k]) ==> !SwitchesOn(states[k], ops[k], id)
  }

  lemma {:induction false} StaysOff(states: seq<Sched>, ops: seq<Op>, id: nat, a: nat, b: nat, n: nat)
    requires IsRun(states, ops) && a <= b <= |ops| && OffSince(states[a], id, n) && LeftOff(states, ops, id, a, b)
    ensures OffSince(states[b], id, n)
    decreases b
  {
    hide Inv, Step, Allowed, OffSince, SwitchesOn;
    if a < b {
      StaysOff(states, ops, id, a, b - 1, n);
      RunInv(states, ops, b - 1);
      TableOfInv(states[b - 1]);
      if ops[b - 1].Turn? {
        TurnKeepsOff(states[b - 1], ops[b - 1], id, n);
      } else {
        CallKeepsOff(states[b - 1], ops[b - 1], id, n);
      }
    }
  }

  /** A job that set_enabled has switched off at step a, and that nothing has switched on since, is
      started by no pass that begins after. */
  lemma DisabledIsNotStarted(states: seq<Sched>, ops: seq<Op>, id: nat, a: nat, b: nat, n: nat)
    requires IsRun(states, ops) && a < b <= |ops| && ops[a].SetEnabled? && !ops[a].enabled
    requires CanStep(states[a]) && IsNamed(states[a], ops[a].name, id) && LeftOff(states, ops, id, a + 1, b)
    requires |states[a].passes| <= n < |states[b].passes|
    ensures id !in states[b].passes[n].started && id < |states[b].jobs| && !states[b].jobs[id].enabled
  {
    hide Inv, Step, Allowed, LeftOff, CanStep;
    EnabledExactly(states[a], ops[a].name, id, false, ops[a].next, ops[a].at);
    StaysOff(states, ops, id, a + 1, b, |states[a].passes|);
    RunInv(states, ops, b);
    PassStartsDue(states[b], n);
  }

  // ------------------------------------------------------------- intervals

  /** The operation moves the next start of the job object `id`. */
  predicate Reschedules(s: Sched, op: Op, id: nat)
    requires TableOk(s.jobs, s.table)
  {
    && (op.SetInterval? || op.Trigger? || (op.SetEnabled? && op.enabled))
    && Find(s, op.name) < |s.table| && Named(s, op.name) == id
  }

  /** The operation is a turn that starts the job object `id`. */
  ghost predicate Starts(s: Sched, op: Op, id: nat)
    requires CanStep(s)
  {
    && op.Turn? && Step(s, op).place.Running?
    && var r := Step(s, op).place;
      r.i < |r.due| && r.due[r.i] == id
  }

  /** The job waits for time `until`: it is not ahead in this pass, or its time has already come. */
  ghost predicate WaitsFor(s: Sched, id: nat, until: real) {
    && id < |s.jobs| && s.jobs[id].nextRunAt == until
    && (s.place.Running? && s.place.i < |s.place.due| ==>
          id !in s.place.due[s.place.i..] || (until <= s.clock && id !in s.place.due[..s.place.i + 1]))
  }

  lemma CallKeepsWaiting(s: Sched, op: Op, id: nat, until: real)
    requires CanStep(s) && s.clock <= op.at && !op.Turn? && WaitsFor(s, id, until) && !Reschedules(s, op, id)
    ensures WaitsFor(Step(s, op), id, until)
  {
    hide DueOf, LeastWait, FindFrom, TableOk;
  }

  lemma ProceedKeepsWaiting(s: Sched, due: seq<nat>, i: nat, later: real, id: nat, until: real)
    requires TableOk(s.jobs, s.table) && s.passes != [] && i <= |due| && id < |s.jobs| && s.jobs[id].nextRunAt == until
    requires id !in due[i..] || (until <= s.clock && id !in due[..i])
    ensures i < |due| && due[i] == id ==> until <= s.clock
    ensures i == |due| || due[i] != id ==> WaitsFor(Proceed(s, due, i, later), id, until)
  {
    hide DueOf, LeastWait, FindFrom, TableOk;
    if i < |due| {
      assert due[i..] == [due[i]] + due[i + 1..];
      assert due[..i + 1] == due[..i] + [due[i]];
    }
  }

  lemma BegunKeepsWaiting(s: Sched, op: Op, id: nat, until: real)
    requires Inv(s) && CanStep(s) && op.Turn? && Allowed(s, op) && WaitsFor(s, id, until) && !s.place.Running?
    ensures if Starts(s, op, id) then until <= op.at else WaitsFor(Step(s, op), id, until)
  {
    hide DueOf, LeastWait, FindFrom, Inv;
    DueExactly(s.jobs, s.table, |s.table|, op.at);
    var due := DueOf(s.jobs, s.table, |s.table|, op.at);
    if s.place != Idle && !s.stop {
      var t := s.(clock := op.at, passes := s.passes + [Pass(op.at, s.jobs, s.table, [])]);
      assert due[0..] == due;
      ProceedKeepsWaiting(t, due, 0, op.later, id, until);
    }
  }

  lemma CompletedKeepsWaiting(s: Sched, op: Op, id: nat, until: real)
    requires CanStep(s) && op.Turn? && Allowed(s, op) && WaitsFor(s, id, until) && s.place.Running?
    ensures if Starts(s, op, id) then until <= op.at else WaitsFor(Step(s, op), id, until)
  {
    hide DueOf, LeastWait, FindFrom;
    var due, i := s.place.due, s.place.i;
    assert due[i..] == [due[i]] + due[i + 1..];
    assert due[..i + 1] == due[..i] + [due[i]];
    var t := s.(clock := op.at, jobs := s.jobs[due[i] := Finished(s.jobs[due[i]], op.at, op.error, op.next)]);
    ProceedKeepsWaiting(t, due, i + 1, op.later, id, until);
  }

  /** When a job completes, it waits for its interval from then on. */
  lemma CompletionWaits(s: Sched, op: Op)
    requires Inv(s) && CanStep(s) && op.Turn? && Allowed(s, op) && s.place.Running?
    requires !s.jobs[s.place.due[s.place.i]].cron
    ensures var id := s.place.due[s.place.i];
      WaitsFor(Step(s, op), id, op.at + s.jobs[id].interval) && s.jobs[id].interval >= 1.0
  {
    hide DueOf, LeastWait, FindFrom;
    var due, i := s.place.due, s.place.i;
    var id := due[i];
    assert PassOk(s, |s.passes| - 1);
    var p := s.passes[|s.passes| - 1];
    DueExactly(p.jobs, p.table, |p.table|, p.at);
    var t := s.(clock := op.at, jobs := s.jobs[id := Finished(s.jobs[id], op.at, op.error, op.next)]);
    ProceedKeepsWaiting(t, due, i + 1, op.later, id, op.at + s.jobs[id].interval);
  }

  /** From step a on, up to but not at step b, nothing reschedules or starts the job. */
  ghost predicate Untouched(states: seq<Sched>, ops: seq<Op>, id: nat, a: nat, b: nat)
    requires |states| == |ops| + 1 && b <= |ops|
  {
    forall k :: a <= k < b && CanStep(states[k]) ==>
      !Reschedules(states[k], ops[k], id) && !Starts(states[k], ops[k], id)
  }

  lemma {:induction false} WaitsOn(states: seq<Sched>, ops: seq<Op>, id: nat, until: real, a: nat, b: nat)
    requires IsRun(states, ops) && a <= b <= |ops| && WaitsFor(states[a], id, until)
    requires Untouched(states, ops, id, a, b)
    ensures WaitsFor(states[b], id, until)
    decreases b
  {
    hide Inv, WaitsFor, Step, Allowed, Starts, Reschedules;
    if a < b {
      WaitsOn(states, ops, id, until, a, b - 1);
      var s, op := states[b - 1], ops[b - 1];
      RunInv(states, ops, b - 1);
      TableOfInv(s);
      if !op.Turn? {
        AllowedIsLater(s, op);
        CallKeepsWaiting(s, op, id, until);
      } else if s.place.Running? {
        CompletedKeepsWaiting(s, op, id, until);
      } else {
        BegunKeepsWaiting(s, op, id, until);
      }
    }
  }

  lemma AllowedIsLater(s: Sched, op: Op)
    requires Allowed(s, op)
    ensures s.clock <= op.at
  {
  }

  /** A job's run is over at step a and nothing reschedules it: its next start, at step b, is at
      least its interval later. */
  lemma IntervalRespected(states: seq<Sched>, ops: seq<Op>, a: nat, b: nat, id: nat)
    requires IsRun(states, ops) && a < b < |ops| && ops[a].Turn? && CanStep(states[a]) && CanStep(states[b])
    requires states[a].place.Running? && states[a].place.due[states[a].place.i] == id && !states[a].jobs[id].cron
    requires Untouched(states, ops, id, a + 1, b) && Starts(states[b], ops[b], id)
    ensures ops[b].at >= ops[a].at + states[a].jobs[id].interval >= ops[a].at + 1.0
  {
    hide Inv, WaitsFor, Step, Allowed, Starts, Reschedules, Untouched;
    var until := ops[a].at + states[a].jobs[id].interval;
    RunInv(states, ops, a);
    RunInv(states, ops, b);
    CompletionWaits(states[a], ops[a]);
    WaitsOn(states, ops, id, until, a + 1, b);
    StartIsATurn(states[b], ops[b], id);
    if states[b].place.Running? {
      CompletedKeepsWaiting(states[b], ops[b], id, until);
    } else {
      BegunKeepsWaiting(states[b], ops[b], id, until);
    }
  }

  lemma StartIsATurn(s: Sched, op: Op, id: nat)
    requires CanStep(s) && Starts(s, op, id)
    ensures op.Turn?
  {
  }

  /** The bound is tight: in this run a job with an interval of one second completes at time 2
      and starts again at time 3. */
  lemma IntervalIsTight() returns (states: seq<Sched>, ops: seq<Op>)
    ensures IsRun(states, ops) && |ops| == 5 && ops[3].Turn? && CanStep(states[3]) && CanStep(states[4])
    ensures states[3].place == Running([0], 0) && !states[3].jobs[0].cron && states[3].jobs[0].interval == 1.0
    ensures Untouched(states, ops, 0, 4, 4) && Starts(states[4], ops[4], 0)
    ensures ops[4].at == ops[3].at + states[3].jobs[0].interval
  {
    hide *;
    var job := Job("a", 1.0, 1.0, true, 0, None, None, false);
    var done := job.(nextRunAt := 3.0, runs := 1, lastRunAt := Some(2.0));
    ops := [AddInterval("a", 1.0, true, 0.0), StartLoop(0.0), Turn(1.0, None, 0.0, 1.0), Turn(2.0, None, 0.0, 2.0),
            Turn(3.0, None, 0.0, 3.0)];
    var s1 := Sched([job], [0], false, true, Idle, [], 0.0);
    var s2 := s1.(wake := false, place := Ready);
    var first := Pass(1.0, [job], [0], [0]);
    var s3 := s2.(place := Running([0], 0), passes := [first], clock := 1.0);
    var s4 := Sched([done], [0], false, false, Sleeping(2.0, 1.0), [first], 2.0);
    var s5 := s4.(place := Running([0], 0), passes := [first, Pass(3.0, [done], [0], [0])], clock := 3.0);
    FirstSteps(job, s1, s2);
    PassOfOne(s2, job, 1.0, first);
    SleepOfOne(s3, job, done, s4);
    PassOfOne(s4, done, 3.0, Pass(3.0, [done], [0], [0]));
    assert [] + [first] == [first] && [first] + [Pass(3.0, [done], [0], [0])] == [first, Pass(3.0, [done], [0], [0])];
    NothingBetween([New, s1, s2, s3, s4, s5], ops);
    states := [New, s1, s2, s3, s4, s5];
    RunOfFive(states, ops);
  }

  lemma NothingBetween(states: seq<Sched>, ops: seq<Op>)
    requires |states| == 6 && |ops| == 5
    ensures Untouched(states, ops, 0, 4, 4)
  {
  }

  /** The operation is allowed, possible, and leads from s to t. */
  ghost predicate Leads(s: Sched, op: Op, t: Sched) {
    Allowed(s, op) && CanStep(s) && t == Step(s, op)
  }

  lemma RunOfFive(states: seq<Sched>, ops: seq<Op>)
    requires |states| == 6 && |ops| == 5 && states[0] == New
    requires Leads(states[0], ops[0], states[1]) && Leads(states[1], ops[1], states[2])
    requires Leads(states[2], ops[2], states[3])
    requires Leads(states[3], ops[3], states[4]) && Leads(states[4], ops[4], states[5])
    ensures IsRun(states, ops) && CanStep(states[3]) && CanStep(states[4])
  {
    hide Step, Allowed, CanStep;
  }

  lemma FirstSteps(job: Job, s1: Sched, s2: Sched)
    requires job == Job("a", 1.0, 1.0, true, 0, None, None, false)
    requires s1 == Sched([job], [0], false, true, Idle, [], 0.0) && s2 == s1.(wake := false, place := Ready)
    ensures Leads(New, AddInterval("a", 1.0, true, 0.0), s1) && Leads(s1, StartLoop(0.0), s2)
  {
  }

  lemma DueOfOne(job: Job, now: real)
    requires job.enabled && job.nextRunAt <= now
    ensures DueOf([job], [0], 1, now) == [0]
  {
    assert DueOf([job], [0], 0, now) == [];
  }

  lemma PassOfOne(s: Sched, job: Job, now: real, p: Pass)
    requires s.jobs == [job] && s.table == [0] && (s.place.Ready? || s.place.Sleeping?) && !s.stop
    requires job.enabled && job.nextRunAt <= now && p == Pass(now, [job], [0], [0])
    requires s.clock <= now && (s.place.Sleeping? ==> s.place.since + s.place.sleepFor <= now)
    ensures var op := Turn(now, None, 0.0, now);
      var t := s.(place := Running([0], 0), passes := s.passes + [p], clock := now);
      Leads(s, op, t) && Starts(s, op, 0)
  {
    hide DueOf, LeastWait, FindFrom;
    DueOfOne(job, now);
    assert |s.table| == 1 && [] + [0] == [0];
    var begun := s.passes + [Pass(now, [job], [0], [])];
    assert begun[|begun| - 1 := p] == s.passes + [p];
  }

  lemma WaitOfOne(job: Job, now: real)
    requires job.enabled
    ensures LeastWait([job], [0], 1, now) == Some(job.nextRunAt - now)
  {
    assert LeastWait([job], [0], 0, now) == None;
  }

  lemma SleepOfOne(s: Sched, job: Job, done: Job, t: Sched)
    requires s.jobs == [job] && s.table == [0] && s.place == Running([0], 0) && |s.passes| == 1
    requires !job.cron && job.enabled && job.interval == 1.0
    requires done == job.(nextRunAt := 3.0, runs := job.runs + 1, lastRunAt := Some(2.0))
    requires job.lastError == None
    requires t == s.(jobs := [done], wake := false, place := Sleeping(2.0, 1.0), clock := 2.0)
    requires s.clock <= 2.0
    ensures Leads(s, Turn(2.0, None, 0.0, 2.0), t)
  {
    hide DueOf, LeastWait, FindFrom;
    WaitOfOne(done, 2.0);
    assert s.jobs[0 := done] == [done];
  }

  lemma ProceedKeepsJobs(s: Sched, op: Op)
    requires CanStep(s) && s.place.Running? && op.Turn?
    ensures var id := s.place.due[s.place.i];
      Step(s, op).jobs == s.jobs[id := Finished(s.jobs[id], op.at, op.error, op.next)]
  {
    hide DueOf, LeastWait, FindFrom, TableOk, Finished;
  }

  // ------------------------------------------------------------- triggers

  lemma TriggerKeepsPlace(s: Sched, name: string, at: real)
    requires CanStep(s) && Find(s, name) < |s.table|
    ensures var t, id := Step(s, Trigger(name, at)), Named(s, name);
      CanStep(t) && t.place == s.place && t.passes == s.passes && t.table == s.table && t.clock == at
      && t.jobs == s.jobs[id := s.jobs[id].(nextRunAt := at)]
  {
    hide FindFrom;
  }

  /** A trigger while some job runs has left no trace on the jobs by the time that job completes, if
      and only if it was for that very job, or for one already due at exactly that time. */
  lemma TriggerLostExactly(s: Sched, name: string, at: real, turn: Op)
    requires CanStep(s) && s.place.Running? && turn.Turn? && Find(s, name) < |s.table|
    ensures CanStep(Step(s, Trigger(name, at)))
    ensures Step(Step(s, Trigger(name, at)), turn).jobs == Step(s, turn).jobs
            <==> Named(s, name) == s.place.due[s.place.i] || s.jobs[Named(s, name)].nextRunAt == at
  {
    hide DueOf, LeastWait, FindFrom, Step;
    TriggerKeepsPlace(s, name, at);
    var t, id, running := Step(s, Trigger(name, at)), Named(s, name), s.place.due[s.place.i];
    ProceedKeepsJobs(t, turn);
    ProceedKeepsJobs(s, turn);
    var a, b := Step(t, turn).jobs, Step(s, turn).jobs;
    if id != running {
      assert a[id] == s.jobs[id].(nextRunAt := at) && b[id] == s.jobs[id];
      if s.jobs[id].nextRunAt == at {
        assert t.jobs == s.jobs;
      }
    } else {
      assert a == b;
    }
  }

  /** The operation is for the job object `id`, and is not a trigger. */
  predicate Addresses(s: Sched, op: Op, id: nat)
    requires TableOk(s.jobs, s.table)
  {
    && (op.SetInterval? || op.SetEnabled? || op.Remove? || op.AddInterval? || op.AddCron?)
    && Find(s, op.name) < |s.table| && Named(s, op.name) == id
  }

  /** A registered, enabled job is overdue, is not ahead in the pass under way, and no pass has
      begun since the n-th. */
  ghost predicate Overdue(s: Sched, id: nat, n: nat) {
    && id in s.table && id < |s.jobs| && s.jobs[id].enabled && s.jobs[id].nextRunAt <= s.clock && |s.passes| == n
    && (s.place.Running? && s.place.i < |s.place.due| ==> id !in s.place.due[s.place.i..])
  }

  /** The n-th pass has begun, and its scan has found the job due. */
  ghost predicate Scanned(s: Sched, id: nat, n: nat) {
    n < |s.passes| && var p := s.passes[n];
    id in p.table && id < |p.jobs| && p.jobs[id].enabled && p.jobs[id].nextRunAt <= p.at
  }

  lemma RegisteredKeepsEntries(s: Sched, job: Job, id: nat)
    requires TableOk(s.jobs, s.table) && id in s.table
    requires Find(s, job.name) < |s.table| ==> Named(s, job.name) != id
    ensures id in Registered(s, job).table && Registered(s, job).jobs[id] == s.jobs[id]
  {
    hide FindFrom;
    var k :| 0 <= k < |s.table| && s.table[k] == id;
    assert Registered(s, job).table[k] == id;
  }

  lemma RemovedKeepsEntries(s: Sched, p: nat, id: nat)
    requires p < |s.table| && id in s.table && s.table[p] != id
    ensures id in s.table[..p] + s.table[p + 1..]
  {
    var k :| 0 <= k < |s.table| && s.table[k] == id;
    var rest := s.table[..p] + s.table[p + 1..];
    assert rest[if k < p then k else k - 1] == id;
  }

  lemma CallKeepsOverdue(s: Sched, op: Op, id: nat, n: nat)
    requires CanStep(s) && s.clock <= op.at && !op.Turn? && Overdue(s, id, n) && !Addresses(s, op, id)
    ensures Overdue(Step(s, op), id, n)
  {
    hide FindFrom, Registered, Named;
    match op
    case AddInterval(name, seconds, enabled, at) =>
      if seconds >= 1.0 {
        RegisteredKeeps(s, Job(name, seconds, at + seconds, enabled, 0, None, None, false));
        RegisteredKeepsEntries(s, Job(name, seconds, at + seconds, enabled, 0, None, None, false), id);
      }
    case AddCron(name, enabled, next, _) =>
      RegisteredKeeps(s, Job(name, 0.0, next, enabled, 0, None, None, true));
      RegisteredKeepsEntries(s, Job(name, 0.0, next, enabled, 0, None, None, true), id);
    case Remove(name, _) =>
      if Find(s, name) < |s.table| {
        NamedIs(s, name);
        RemovedKeepsEntries(s, Find(s, name), id);
      }
    case _ =>
  }

  lemma NamedIs(s: Sched, name: string)
    requires TableOk(s.jobs, s.table) && Find(s, name) < |s.table|
    ensures Named(s, name) == s.table[Find(s, name)]
  {
  }

  lemma RegisteredKeeps(s: Sched, job: Job)
    requires TableOk(s.jobs, s.table)
    ensures var r := Registered(s, job);
      r.place == s.place && r.passes == s.passes && |r.jobs| > |s.jobs| && r.clock == s.clock
  {
    hide FindFrom;
  }

  lemma ProceedKeepsOverdue(s: Sched, due: seq<nat>, i: nat, later: real, id: nat, n: nat)
    requires TableOk(s.jobs, s.table) && s.passes != [] && |s.passes| == n && s.clock <= later
    requires id in s.table && id < |s.jobs| && s.jobs[id].enabled && s.jobs[id].nextRunAt <= s.clock
    requires i <= |due| && id !in due[i..]
    ensures Overdue(Proceed(s, due, i, later).(clock := later), id, n)
  {
    hide DueOf, LeastWait, FindFrom, TableOk;
  }

  lemma CompletedKeepsOverdue(s: Sched, op: Op, id: nat, n: nat)
    requires CanStep(s) && op.Turn? && Allowed(s, op) && s.place.Running? && Overdue(s, id, n)
    ensures Overdue(Step(s, op), id, n)
  {
    hide DueOf, LeastWait, FindFrom, Proceed;
    var due, i := s.place.due, s.place.i;
    assert due[i..] == [due[i]] + due[i + 1..];
    var t := s.(jobs := s.jobs[due[i] := Finished(s.jobs[due[i]], op.at, op.error, op.next)]);
    ProceedKeepsOverdue(t, due, i + 1, op.later, id, n);
  }

  lemma ProceedKeepsScan(s: Sched, due: seq<nat>, i: nat, later: real, k: nat)
    requires TableOk(s.jobs, s.table) && k < |s.passes|
    ensures var r := Proceed(s, due, i, later);
      |r.passes| == |s.passes| && r.passes[k].(started := []) == s.passes[k].(started := [])
  {
    hide DueOf, LeastWait, FindFrom, TableOk;
  }

  lemma BegunScans(s: Sched, op: Op, id: nat, n: nat)
    requires CanStep(s) && op.Turn? && Allowed(s, op) && !s.place.Running? && Overdue(s, id, n)
    ensures if s.stop then Overdue(Step(s, op), id, n) else |Step(s, op).passes| == n + 1 && Scanned(Step(s, op), id, n)
  {
    hide DueOf, LeastWait, FindFrom, Proceed, TableOk;
    if !s.stop {
      var begun := s.(passes := s.passes + [Pass(op.at, s.jobs, s.table, [])]);
      ProceedKeepsScan(begun, DueOf(s.jobs, s.table, |s.table|, op.at), 0, op.later, n);
      assert begun.passes[n] == Pass(op.at, s.jobs, s.table, []);
    }
  }

  /** What a pass scanned never changes. */
  lemma StepKeepsScan(s: Sched, op: Op, k: nat)
    requires CanStep(s) && k < |s.passes|
    ensures |Step(s, op).passes| >= |s.passes|
    ensures Step(s, op).passes[k].(started := []) == s.passes[k].(started := [])
  {
    hide DueOf, LeastWait, FindFrom, Proceed, TableOk;
    if op.Turn? && s.place.Running? {
      var id := s.place.due[s.place.i];
      var t := s.(jobs := s.jobs[id := Finished(s.jobs[id], op.at, op.error, op.next)]);
      FinishedKeepsTable(s, id, op);
      ProceedKeepsScan(t, s.place.due, s.place.i + 1, op.later, k);
    } else if op.Turn? && s.place != Idle && !s.stop {
      var begun := s.(passes := s.passes + [Pass(op.at, s.jobs, s.table, [])]);
      ProceedKeepsScan(begun, DueOf(s.jobs, s.table, |s.table|, op.at), 0, op.later, k);
    } else if !op.Turn? {
      CallKeepsPasses(s, op);
    }
  }

  lemma FinishedKeepsTable(s: Sched, id: nat, op: Op)
    requires TableOk(s.jobs, s.table) && id < |s.jobs| && op.Turn?
    ensures TableOk(s.jobs[id := Finished(s.jobs[id], op.at, op.error, op.next)], s.table)
  {
  }

  lemma CallKeepsPasses(s: Sched, op: Op)
    requires TableOk(s.jobs, s.table) && !op.Turn?
    ensures Called(s, op).0.passes == s.passes
  {
    hide FindFrom;
  }

  lemma {:induction false} ScanStays(states: seq<Sched>, ops: seq<Op>, a: nat, b: nat, k: nat)
    requires IsRun(states, ops) && a <= b <= |ops| && k < |states[a].passes|
    ensures |states[b].passes| >= |states[a].passes|
    ensures states[b].passes[k].(started := []) == states[a].passes[k].(started := [])
    decreases b
  {
    hide Inv, Step, Allowed, CanStep;
    if a < b {
      ScanStays(states, ops, a, b - 1, k);
      RunInv(states, ops, b - 1);
      TableOfInv(states[b - 1]);
      StepKeepsScan(states[b - 1], ops[b - 1], k);
    }
  }

  /** Until the next pass begins nothing but a trigger is for the job object `id`. */
  ghost predicate LeftAlone(states: seq<Sched>, ops: seq<Op>, id: nat, a: nat, b: nat, n: nat)
    requires |states| == |ops| + 1 && b <= |ops|
  {
    forall k :: a <= k < b && CanStep(states[k]) && |states[k].passes| == n ==> !Addresses(states[k], ops[k], id)
  }

  /** An overdue job that is left alone stays overdue until the next pass, whose scan finds it. */
  lemma {:induction false} OverdueIsScanned(states: seq<Sched>, ops: seq<Op>, id: nat, n: nat, a: nat, b: nat)
    requires IsRun(states, ops) && a <= b <= |ops| && Overdue(states[a], id, n) && LeftAlone(states, ops, id, a, b, n)
    ensures Overdue(states[b], id, n) || Scanned(states[b], id, n)
    decreases b
  {
    hide Inv, Step, Allowed, CanStep, Overdue, Scanned, Addresses;
    if a < b {
      OverdueIsScanned(states, ops, id, n, a, b - 1);
      RunInv(states, ops, b - 1);
      TableOfInv(states[b - 1]);
      if Scanned(states[b - 1], id, n) {
        ScannedStays(states[b - 1], ops[b - 1], id, n);
      } else {
        OverdueCounts(states[b - 1], id, n);
        StepOfOverdue(states[b - 1], ops[b - 1], id, n);
      }
    }
  }

  lemma OverdueCounts(s: Sched, id: nat, n: nat)
    requires Overdue(s, id, n)
    ensures |s.passes| == n
  {
  }

  lemma ScannedStays(s: Sched, op: Op, id: nat, n: nat)
    requires CanStep(s) && Scanned(s, id, n)
    ensures Scanned(Step(s, op), id, n)
  {
    hide Step, CanStep;
    ScannedIndex(s, id, n);
    StepKeepsScan(s, op, n);
    var p, q := s.passes[n], Step(s, op).passes[n];
    assert q.table == q.(started := []).table == p.table && q.jobs == q.(started := []).jobs == p.jobs;
    assert q.at == q.(started := []).at == p.at;
  }

  lemma ScannedIndex(s: Sched, id: nat, n: nat)
    requires Scanned(s, id, n)
    ensures n < |s.passes|
  {
  }

  lemma StepOfOverdue(s: Sched, op: Op, id: nat, n: nat)
    requires CanStep(s) && Allowed(s, op) && Overdue(s, id, n) && !Addresses(s, op, id)
    ensures Overdue(Step(s, op), id, n) || Scanned(Step(s, op), id, n)
  {
    hide Step, CanStep, Allowed, Overdue, Scanned, Addresses;
    if !op.Turn? {
      AllowedIsLater(s, op);
      CallKeepsOverdue(s, op, id, n);
    } else if s.place.Running? {
      CompletedKeepsOverdue(s, op, id, n);
    } else {
      BegunScans(s, op, id, n);
    }
  }

  /** The pass under way at time a, and everything it still has ahead, is carried out: when it is
      over it has started what was ahead. */
  lemma AheadIsStarted(states: seq<Sched>, ops: seq<Op>, a: nat, b: nat)
    requires IsRun(states, ops) && a <= b <= |ops| && states[a].place.Running?
    ensures var s, t := states[a], states[b];
      && s.passes != [] && |t.passes| >= |s.passes| && s.place.i < |s.place.due|
      && (|t.passes| > |s.passes| || !t.place.Running? ==> t.passes[|s.passes| - 1].started == s.place.due)
  {
    hide Step, Allowed, CanStep, DueOf, LeastWait;
    RunInv(states, ops, a);
    RunInv(states, ops, b);
    var s, t, k := states[a], states[b], |states[a].passes| - 1;
    assert PassOk(s, k);
    ScanStays(states, ops, a, b, k);
    assert PassOk(t, k);
    var p, q := s.passes[k], t.passes[k];
    assert q.(started := []).table == p.(started := []).table && q.(started := []).jobs == p.(started := []).jobs;
    assert q.(started := []).at == p.(started := []).at;
  }

  lemma TriggerMakesOverdue(s: Sched, name: string, at: real)
    requires Inv(s) && CanStep(s) && s.clock <= at && Find(s, name) < |s.table| && s.jobs[Named(s, name)].enabled
    requires s.place.Running? ==> Named(s, name) !in s.place.due[s.place.i..]
    ensures Overdue(Step(s, Trigger(name, at)), Named(s, name), |s.passes|)
  {
    hide Step, TableOk, FindFrom;
    TriggerKeepsPlace(s, name, at);
  }

  /** The k-th pass is over. */
  predicate Over(s: Sched, k: nat) {
    |s.passes| > k + 1 || !s.place.Running?
  }

  /** A trigger of a registered, enabled job that is not itself running is honoured. If the job is
      still ahead in the pass under way, that pass starts it before it is over. Otherwise, if
      nothing else is done to the job until the next pass begins, that pass starts it. */
  lemma TriggerHonoured(states: seq<Sched>, ops: seq<Op>, a: nat, b: nat, id: nat)
    requires IsRun(states, ops) && a < b <= |ops| && ops[a].Trigger? && CanStep(states[a])
    requires Find(states[a], ops[a].name) < |states[a].table| && Named(states[a], ops[a].name) == id
    requires states[a].jobs[id].enabled && (states[a].place.Running? ==> states[a].place.due[states[a].place.i] != id)
    requires (states[a].place.Running? && id in states[a].place.due[states[a].place.i + 1..])
          || LeftAlone(states, ops, id, a + 1, b, |states[a].passes|)
    ensures var s, t := states[a], states[b];
      var n := |s.passes|;
      if s.place.Running? && id in s.place.due[s.place.i + 1..] then
        n > 0 && |t.passes| >= n
        && (Over(t, n - 1) ==>
              (|t.passes[n - 1].started| == |s.place.due| && id in t.passes[n - 1].started[s.place.i + 1..]))
      else |t.passes| > n && Over(t, n) ==> id in t.passes[n].started
  {
    hide Inv, Step, Allowed, DueOf, LeastWait, Overdue, Scanned, Addresses, LeftAlone;
    var s := states[a];
    RunInv(states, ops, a);
    RunInv(states, ops, b);
    if s.place.Running? && id in s.place.due[s.place.i + 1..] {
      AheadIsStarted(states, ops, a, b);
    } else {
      NotAhead(s, id);
      AllowedIsLater(s, ops[a]);
      TriggerMakesOverdue(s, ops[a].name, ops[a].at);
      OverdueIsScanned(states, ops, id, |s.passes|, a + 1, b);
      if |states[b].passes| > |s.passes| {
        ScannedOnly(states[b], id, |s.passes|);
        ScannedIsStarted(states[b], id, |s.passes|);
      }
    }
  }

  lemma NotAhead(s: Sched, id: nat)
    requires CanStep(s) && (s.place.Running? ==> s.place.due[s.place.i] != id && id !in s.place.due[s.place.i + 1..])
    ensures s.place.Running? ==> id !in s.place.due[s.place.i..]
  {
    if s.place.Running? {
      var due, i := s.place.due, s.place.i;
      assert due[i..] == [due[i]] + due[i + 1..];
    }
  }

  lemma ScannedOnly(s: Sched, id: nat, n: nat)
    requires (Overdue(s, id, n) || Scanned(s, id, n)) && |s.passes| > n
    ensures Scanned(s, id, n)
  {
  }

  lemma ScannedIsStarted(s: Sched, id: nat, n: nat)
    requires Inv(s) && Scanned(s, id, n)
    ensures n < |s.passes| && (|s.passes| > n + 1 || !s.place.Running? ==> id in s.passes[n].started)
  {
    hide Inv;
    PassStartsDue(s, n);
  }

  // ------------------------------------------------------------- stopping

  /** How many more turns a stopped loop can take. */
  function TurnsLeft(place: Place): (n: nat) {
    match place
    case Idle => 0
    case Running(due, i) => if i < |due| then |due| - i + 1 else 1
    case _ => 1
  }

  lemma StoppedStep(s: Sched, op: Op)
    requires CanStep(s) && s.stop && !op.StartLoop?
    ensures var t := Step(s, op);
      && t.stop && |t.passes| == |s.passes|
      && (op.Turn? && s.place != Idle ==> TurnsLeft(t.place) < TurnsLeft(s.place))
      && (!op.Turn? ==> t.place == s.place)
  {
    hide DueOf, LeastWait, FindFrom;
  }

  function Turns(ops: seq<Op>, a: nat, b: nat): (n: nat)
    requires a <= b <= |ops|
    decreases b
  {
    if a == b then 0 else Turns(ops, a, b - 1) + if ops[b - 1].Turn? then 1 else 0
  }

  /** After stop, and until the loop is started again, no pass begins, and the loop takes no more
      turns than its pass still needs. */
  lemma {:induction false} StopEndsTheLoop(states: seq<Sched>, ops: seq<Op>, a: nat, b: nat)
    requires IsRun(states, ops) && a <= b <= |ops| && states[a].stop
    requires forall k :: a <= k < b ==> !ops[k].StartLoop?
    ensures states[b].stop && |states[b].passes| == |states[a].passes|
    ensures Turns(ops, a, b) + TurnsLeft(states[b].place) <= TurnsLeft(states[a].place)
    decreases b
  {
    hide Inv, Step, CanStep, TurnsLeft;
    if a < b {
      StopEndsTheLoop(states, ops, a, b - 1);
      RunInv(states, ops, b - 1);
      TableOfInv(states[b - 1]);
      StoppedStep(states[b - 1], ops[b - 1]);
    }
  }
}
