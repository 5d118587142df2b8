/**
 The approval gate. Submitters park on a request, operators approve or deny it, and a
 timeout may fire at any moment. Every section the code runs under its lock contains no
 await, so it is one atomic step here; the steps of all parties interleave freely.
 */
module ApprovalGate {
  import opened Common

  datatype Status = Pending | Approved | Denied | TimedOut

  /** `released` is the request's event: set once an operator resolved it. */
  datatype Request = Request(capability: string, action: string, submittedAt: real, timeoutSeconds: real,
                             status: Status, resolvedAt: Option<real>, reason: Option<string>, released: bool)

  /** Request objects are shared by the pending table, the history and the submitter, so
      both collections hold ids into one table of requests. */
  datatype Gate = Gate(requests: map<string, Request>, pending: set<string>, history: seq<string>, capacity: nat)

  // ------------------------------------------------------ the locked sections

  function Fresh(capability: string, action: string, now: real, timeout: real): (r: Request) {
    Request(capability, action, now, if timeout < 1.0 then 1.0 else timeout, Pending, None, None, false)
  }

  function Enqueue(g: Gate, id: string, r: Request): (h: Gate) {
    g.(requests := g.requests[id := r], pending := g.pending + {id})
  }

  function MoveToHistory(g: Gate, id: string): (h: Gate) {
    var longer := g.history + [id];
    g.(pending := g.pending - {id},
       history := if |longer| > g.capacity then longer[|longer| - g.capacity..] else longer)
  }

  /** Whether an approve or deny takes effect, and hence returns true. */
  predicate Resolvable(g: Gate, id: string) {
    id in g.pending && id in g.requests && g.requests[id].status == Pending
  }

  function Resolve(g: Gate, id: string, status: Status, now: real, reason: Option<string>): (h: Gate) {
    if !Resolvable(g, id) then g
    else
      var r := g.requests[id].(status := status, resolvedAt := Some(now), reason := reason, released := true);
      MoveToHistory(g.(requests := g.requests[id := r]), id)
  }

  /** The submitter's own section after its timeout: note that it files the request away
      even when an operator resolved it first. */
  function Expire(g: Gate, id: string, now: real): (h: Gate)
    requires id in g.requests
  {
    var r := g.requests[id];
    var settled := if r.status != Pending then r
                   else r.(status := TimedOut, resolvedAt := Some(now), reason := Some("timeout"));
    MoveToHistory(g.(requests := g.requests[id := settled]), id)
  }

  class ApprovalGate {
    var requests: map<string, Request>
    var pending: set<string>
    var history: seq<string>
    const historySize: nat

    ghost function Abs(): Gate
      reads this
    {
      Gate(requests, pending, history, historySize)
    }

    constructor (historySize: int)
      ensures Abs() == Gate(map[], {}, [], Max(10, historySize))
    {
      requests, pending, history := map[], {}, [];
      this.historySize := Max(10, historySize);
    }

    method SubmitEnqueue(id: string, capability: string, action: string, now: real, timeout: real)
      modifies this
      ensures Abs() == Enqueue(old(Abs()), id, Fresh(capability, action, now, timeout))
    {
      var seconds := if timeout < 1.0 then 1.0 else timeout;
      requests := requests[id := Request(capability, action, now, seconds, Pending, None, None, false)];
      pending := pending + {id};
    }

    method MoveToHistoryLocked(id: string)
      modifies this
      ensures Abs() == MoveToHistory(old(Abs()), id)
    {
      pending := pending - {id};
      history := history + [id];
      if |history| > historySize {
        history := history[|history| - historySize..];
      }
    }

    method ResolveLocked(id: string, status: Status, now: real, reason: Option<string>) returns (done: bool)
      modifies this
      ensures Abs() == Resolve(old(Abs()), id, status, now, reason)
      ensures done == Resolvable(old(Abs()), id)
    {
      if id !in pending || id !in requests || requests[id].status != Pending {
        return false;
      }
      var r := requests[id].(status := status, resolvedAt := Some(now), reason := reason, released := true);
      requests := requests[id := r];
      MoveToHistoryLocked(id);
      done := true;
    }

    method SubmitTimeout(id: string, now: real)
      requires id in requests
      modifies this
      ensures Abs() == Expire(old(Abs()), id, now)
    {
      if requests[id].status == Pending {
        var r := requests[id].(status := TimedOut, resolvedAt := Some(now), reason := Some("timeout"));
        requests := requests[id := r];
      }
      assert requests == requests[id := requests[id]];
      MoveToHistoryLocked(id);
    }
  }

  // ------------------------------------------------------ the whole protocol

  /** Where a submitter is: waiting, past its timeout but not yet in the lock, or back with its request. */
  datatype Phase = Parked | TimingOut | Returned

  /** `moved` is every filing into the history ever made, `expired` who ran the timeout
      section, `touched` which requests' writes reached the disk. */
  datatype System = System(gate: Gate, phase: map<string, Phase>, moved: seq<string>, expired: set<string>,
                           touched: set<string>)

  datatype Event =
    | Submit(id: string, capability: string, action: string, at: real, timeout: real)
    | Decide(id: string, approve: bool, at: real, reason: Option<string>)
    | Fire(id: string)
    | RunTimeout(id: string, at: real)
    | Wake(id: string)
    | TouchFile(id: string)

  function Begin(capacity: nat): System {
    System(Gate(map[], {}, [], capacity), map[], [], {}, {})
  }

  predicate At(s: System, id: string, p: Phase) {
    id in s.phase && s.phase[id] == p
  }

  predicate Enabled(s: System, e: Event) {
    match e
    case Submit(id, _, _, _, _) => id !in s.gate.requests
    case Decide(_, _, _, _) => true
    case Fire(id) => At(s, id, Parked)
    case RunTimeout(id, _) => At(s, id, TimingOut) && id in s.gate.requests
    case Wake(id) => At(s, id, Parked) && id in s.gate.requests && s.gate.requests[id].released
    case TouchFile(id) => At(s, id, Returned) && id in s.gate.requests && s.gate.requests[id].status == Approved
  }

  function Next(s: System, e: Event): (t: System)
    requires Enabled(s, e)
  {
    match e
    case Submit(id, capability, action, at, timeout) =>
      s.(gate := Enqueue(s.gate, id, Fresh(capability, action, at, timeout)), phase := s.phase[id := Parked])
    case Decide(id, approve, at, reason) =>
      if Resolvable(s.gate, id)
      then s.(gate := Resolve(s.gate, id, if approve then Approved else Denied, at, reason), moved := s.moved + [id])
      else s
    case Fire(id) => s.(phase := s.phase[id := TimingOut])
    case RunTimeout(id, at) =>
      s.(gate := Expire(s.gate, id, at), phase := s.phase[id := Returned],
         moved := s.moved + [id], expired := s.expired + {id})
    case Wake(id) => s.(phase := s.phase[id := Returned])
    case TouchFile(id) => s.(touched := s.touched + {id})
  }

  /** The state a trace leads to; None when some event was not enabled. */
  function Run(capacity: nat, trace: seq<Event>): (r: Option<System>) {
    if trace == [] then Some(Begin(capacity))
    else match Run(capacity, trace[..|trace| - 1])
         case None => None
         case Some(s) => if Enabled(s, trace[|trace| - 1]) then Some(Next(s, trace[|trace| - 1])) else None
  }

  function Count(s: seq<string>, id: string): (n: nat) {
    if s == [] then 0 else Count(s[..|s| - 1], id) + if s[|s| - 1] == id then 1 else 0
  }

  function Suffix(s: seq<string>, n: nat): seq<string> {
    if |s| > n then s[|s| - n..] else s
  }

  predicate RequestInv(s: System, id: string)
    requires id in s.gate.requests && id in s.phase
  {
    var r := s.gate.requests[id];
    && (id in s.gate.pending <==> r.status == Pending)
    && (r.released <==> r.status == Approved || r.status == Denied)
    && (r.status == Pending <==> r.resolvedAt.None?)
    && (s.phase[id] == Returned ==> r.status != Pending)
    && (id in s.expired ==> s.phase[id] == Returned)
    && (r.status == TimedOut ==> id in s.expired)
    && Count(s.moved, id) == (if r.released then 1 else 0) + (if id in s.expired then 1 else 0)
  }

  predicate RequestsInv(s: System) {
    && s.phase.Keys == s.gate.requests.Keys
    && s.gate.pending <= s.gate.requests.Keys
    && s.expired <= s.gate.requests.Keys
    && forall id :: id in s.gate.requests ==> RequestInv(s, id)
  }

  predicate Resolved(s: System, id: string) {
    id in s.gate.requests && s.gate.requests[id].status != Pending
  }

  predicate HistoryInv(s: System) {
    && (forall k :: 0 <= k < |s.moved| ==> Resolved(s, s.moved[k]))
    && s.gate.history == Suffix(s.moved, s.gate.capacity)
  }

  predicate TouchedInv(s: System) {
    forall id :: id in s.touched ==> id in s.gate.requests && s.gate.requests[id].status == Approved
  }

  predicate Inv(s: System) {
    RequestsInv(s) && HistoryInv(s) && TouchedInv(s)
  }

  lemma CountSnoc(s: seq<string>, x: string, id: string)
    ensures Count(s + [x], id) == Count(s, id) + if x == id then 1 else 0
  {
    assert (s + [x])[..|s|] == s;
  }

  lemma SuffixSnoc(s: seq<string>, x: string, n: nat)
    ensures Suffix(s + [x], n) == Suffix(Suffix(s, n) + [x], n)
  {
  }

  lemma MoveIsSuffix(g: Gate, id: string)
    ensures MoveToHistory(g, id).history == Suffix(g.history + [id], g.capacity)
    ensures MoveToHistory(g, id).capacity == g.capacity
  {
  }

  /** Filing a resolved request extends the history by it. */
  lemma MoveKeepsHistory(s: System, t: System, g: Gate, id: string)
    requires HistoryInv(s)
    requires g.history == s.gate.history && g.capacity == s.gate.capacity
    requires t.gate == MoveToHistory(g, id) && t.moved == s.moved + [id] && Resolved(t, id)
    requires forall x :: Resolved(s, x) ==> Resolved(t, x)
    ensures HistoryInv(t)
  {
    MoveIsSuffix(g, id);
    SuffixSnoc(s.moved, id, s.gate.capacity);
    hide Suffix, Resolved;
    forall k | 0 <= k < |t.moved| ensures Resolved(t, t.moved[k]) {
      if k < |s.moved| {
        assert t.moved[k] == s.moved[k];
      }
    }
  }

  lemma {:induction false} CountAbsent(s: seq<string>, id: string)
    requires forall k :: 0 <= k < |s| ==> s[k] != id
    ensures Count(s, id) == 0
  {
    if s != [] {
      CountAbsent(s[..|s| - 1], id);
    }
  }

  lemma SubmitKeepsInv(s: System, e: Event)
    requires Inv(s) && e.Submit? && Enabled(s, e)
    ensures Inv(Next(s, e))
  {
    var t := Next(s, e);
    assert forall k :: 0 <= k < |s.moved| ==> Resolved(s, s.moved[k]);
    CountAbsent(s.moved, e.id);
    hide Count, Suffix;
    forall id | id in t.gate.requests ensures RequestInv(t, id) {
      assert id != e.id ==> RequestInv(s, id);
    }
    assert forall k :: 0 <= k < |s.moved| ==> Resolved(t, s.moved[k]);
  }

  lemma DecideKeepsRequest(s: System, e: Event, id: string)
    requires RequestsInv(s) && e.Decide? && Resolvable(s.gate, e.id) && id in s.gate.requests
    ensures id in Next(s, e).gate.requests && id in Next(s, e).phase && RequestInv(Next(s, e), id)
  {
    assert RequestInv(s, id) && RequestInv(s, e.id);
    CountSnoc(s.moved, e.id, id);
    hide Count;
  }

  lemma DecideKeepsRequests(s: System, e: Event)
    requires RequestsInv(s) && e.Decide? && Resolvable(s.gate, e.id)
    ensures RequestsInv(Next(s, e))
  {
    forall id | id in s.gate.requests ensures id in Next(s, e).phase && RequestInv(Next(s, e), id) {
      DecideKeepsRequest(s, e, id);
    }
    hide Count, RequestInv;
  }

  lemma DecideKeepsHistory(s: System, e: Event)
    requires HistoryInv(s) && e.Decide? && Resolvable(s.gate, e.id)
    ensures HistoryInv(Next(s, e))
  {
    var r := s.gate.requests[e.id].(status := if e.approve then Approved else Denied, resolvedAt := Some(e.at),
                                    reason := e.reason, released := true);
    hide HistoryInv;
    MoveKeepsHistory(s, Next(s, e), s.gate.(requests := s.gate.requests[e.id := r]), e.id);
  }

  lemma TimeoutKeepsRequest(s: System, e: Event, id: string)
    requires RequestsInv(s) && e.RunTimeout? && Enabled(s, e) && id in s.gate.requests
    ensures id in Next(s, e).gate.requests && id in Next(s, e).phase && RequestInv(Next(s, e), id)
  {
    assert RequestInv(s, id) && RequestInv(s, e.id);
    CountSnoc(s.moved, e.id, id);
    hide Count;
  }

  lemma TimeoutKeepsRequests(s: System, e: Event)
    requires RequestsInv(s) && e.RunTimeout? && Enabled(s, e)
    ensures RequestsInv(Next(s, e))
  {
    forall id | id in s.gate.requests ensures id in Next(s, e).phase && RequestInv(Next(s, e), id) {
      TimeoutKeepsRequest(s, e, id);
    }
    hide Count, RequestInv;
  }

  lemma TimeoutKeepsHistory(s: System, e: Event)
    requires HistoryInv(s) && e.RunTimeout? && Enabled(s, e)
    ensures HistoryInv(Next(s, e))
  {
    var r := s.gate.requests[e.id];
    var settled := if r.status != Pending then r
                   else r.(status := TimedOut, resolvedAt := Some(e.at), reason := Some("timeout"));
    hide HistoryInv;
    MoveKeepsHistory(s, Next(s, e), s.gate.(requests := s.gate.requests[e.id := settled]), e.id);
  }

  lemma QuietKeepsInv(s: System, e: Event)
    requires Inv(s) && Enabled(s, e) && (e.Fire? || e.Wake? || e.TouchFile?)
    ensures Inv(Next(s, e))
  {
    var t := Next(s, e);
    hide Count, Suffix;
    forall id | id in t.gate.requests ensures RequestInv(t, id) {
      assert RequestInv(s, id);
    }
    assert forall k :: 0 <= k < |s.moved| ==> Resolved(s, s.moved[k]) && Resolved(t, s.moved[k]);
  }

  lemma NextKeepsInv(s: System, e: Event)
    requires Inv(s) && Enabled(s, e)
    ensures Inv(Next(s, e))
  {
    hide RequestsInv, HistoryInv, Suffix, Count;
    match e {
      case Submit(_, _, _, _, _) => SubmitKeepsInv(s, e);
      case Decide(id, _, _, _) =>
        if Resolvable(s.gate, id) {
          DecideKeepsRequests(s, e);
          DecideKeepsHistory(s, e);
        }
      case RunTimeout(_, _) =>
        TimeoutKeepsRequests(s, e);
        TimeoutKeepsHistory(s, e);
      case _ => QuietKeepsInv(s, e);
    }
  }

  // ------------------------------------------------------ over every run

  lemma {:induction false} RunInv(capacity: nat, trace: seq<Event>)
    ensures Run(capacity, trace).Some? ==>
      Inv(Run(capacity, trace).value) && Run(capacity, trace).value.gate.capacity == capacity
  {
    hide Inv, Enabled, Next;
    if trace == [] {
      BeginInv(capacity);
    } else {
      RunInv(capacity, trace[..|trace| - 1]);
      var before := Run(capacity, trace[..|trace| - 1]);
      if before.Some? && Enabled(before.value, trace[|trace| - 1]) {
        NextKeepsInv(before.value, trace[|trace| - 1]);
        NextKeepsCapacity(before.value, trace[|trace| - 1]);
      }
    }
  }

  lemma BeginInv(capacity: nat)
    ensures Inv(Begin(capacity)) && Begin(capacity).gate.capacity == capacity
  {
  }

  lemma NextKeepsCapacity(s: System, e: Event)
    requires Enabled(s, e)
    ensures Next(s, e).gate.capacity == s.gate.capacity
  {
  }

  /** In every reachable state: pending holds exactly the unresolved requests, the history
      only resolved ones and never more than its bound, so the two are disjoint. */
  lemma PendingAndHistory(capacity: nat, trace: seq<Event>)
    requires Run(capacity, trace).Some?
    ensures var g := Run(capacity, trace).value.gate;
      && (forall id :: id in g.pending <==> id in g.requests && g.requests[id].status == Pending)
      && (forall k :: 0 <= k < |g.history| ==> g.history[k] in g.requests && g.requests[g.history[k]].status != Pending
                                               && g.history[k] !in g.pending)
      && |g.history| <= capacity
  {
    hide Run, Inv, RequestsInv, HistoryInv;
    RunInv(capacity, trace);
    PendingExactly(Run(capacity, trace).value);
    HistoryResolved(Run(capacity, trace).value);
  }

  lemma PendingExactly(s: System)
    requires Inv(s)
    ensures forall id :: id in s.gate.pending <==> id in s.gate.requests && s.gate.requests[id].status == Pending
  {
    hide Count, HistoryInv, TouchedInv;
    forall id | id in s.gate.requests ensures id in s.gate.pending <==> s.gate.requests[id].status == Pending {
      assert RequestInv(s, id);
    }
  }

  lemma HistoryResolved(s: System)
    requires Inv(s)
    ensures |s.gate.history| <= s.gate.capacity
    ensures forall k :: 0 <= k < |s.gate.history| ==> Resolved(s, s.gate.history[k])
  {
    hide RequestsInv, TouchedInv, Resolved;
    var cut := |s.moved| - |s.gate.history|;
    assert forall k :: 0 <= k < |s.gate.history| ==> s.gate.history[k] == s.moved[cut + k];
  }

  /** A prefix of a run is a run. */
  lemma {:induction false} PrefixRuns(capacity: nat, trace: seq<Event>, n: nat)
    requires n <= |trace| && Run(capacity, trace).Some?
    ensures Run(capacity, trace[..n]).Some?
    ensures n < |trace| ==> (
      && Enabled(Run(capacity, trace[..n]).value, trace[n])
      && Run(capacity, trace[..n + 1]) == Some(Next(Run(capacity, trace[..n]).value, trace[n])))
  {
    hide Enabled, Next;
    if n < |trace| {
      var front := trace[..|trace| - 1];
      if n < |trace| - 1 {
        PrefixRuns(capacity, front, n);
        assert front[..n] == trace[..n] && front[..n + 1] == trace[..n + 1] && front[n] == trace[n];
      } else {
        assert trace[..n] == front && trace[..n + 1] == trace;
      }
    } else {
      assert trace[..n] == trace;
    }
  }

  lemma SettledStays(s: System, e: Event, id: string)
    requires Inv(s) && Enabled(s, e) && id in s.gate.requests
    ensures id in Next(s, e).gate.requests
    ensures s.gate.requests[id].status != Pending ==> Next(s, e).gate.requests[id] == s.gate.requests[id]
    ensures s.gate.requests[id].status == Pending && Next(s, e).gate.requests[id].status != Pending ==>
      (e.Decide? && e.id == id && Next(s, e).gate.requests[id].status == if e.approve then Approved else Denied)
      || (e.RunTimeout? && e.id == id && Next(s, e).gate.requests[id].status == TimedOut)
  {
    hide Count, Suffix;
    assert RequestInv(s, id);
  }

  /** A request leaves Pending once: its record never changes after that. */
  lemma {:induction false} StatusSettles(capacity: nat, trace: seq<Event>, n: nat, id: string)
    requires n <= |trace| && Run(capacity, trace).Some? && Run(capacity, trace[..n]).Some?
    requires id in Run(capacity, trace[..n]).value.gate.requests
    ensures var before, after := Run(capacity, trace[..n]).value.gate, Run(capacity, trace).value.gate;
      id in after.requests && (before.requests[id].status != Pending ==> after.requests[id] == before.requests[id])
  {
    hide Enabled, Next, Inv;
    if n < |trace| {
      var front := trace[..|trace| - 1];
      assert front[..n] == trace[..n];
      StatusSettles(capacity, front, n, id);
      RunInv(capacity, front);
      SettledStays(Run(capacity, front).value, trace[|trace| - 1], id);
    } else {
      assert trace[..n] == trace;
    }
  }

  /** The k-th event is an approve (or deny) of id that returned true. */
  predicate Effective(capacity: nat, trace: seq<Event>, k: nat, id: string, approve: bool) {
    && k < |trace| && trace[k].Decide? && trace[k].id == id && trace[k].approve == approve
    && Run(capacity, trace[..k]).Some? && Resolvable(Run(capacity, trace[..k]).value.gate, id)
  }

  lemma EffectiveSettles(capacity: nat, trace: seq<Event>, k: nat, id: string, approve: bool)
    requires Run(capacity, trace).Some? && Effective(capacity, trace, k, id, approve)
    ensures var after := Run(capacity, trace[..k + 1]);
      after.Some? && id in after.value.gate.requests
      && after.value.gate.requests[id].status == if approve then Approved else Denied
  {
    PrefixRuns(capacity, trace, k);
    hide Run;
  }

  /** At most one approve or deny per request returns true. */
  lemma OneEffectiveDecision(capacity: nat, trace: seq<Event>, j: nat, k: nat, id: string, a: bool, b: bool)
    requires Run(capacity, trace).Some?
    requires Effective(capacity, trace, j, id, a) && Effective(capacity, trace, k, id, b)
    ensures j == k && a == b
  {
    hide Next, Enabled;
    if j < k {
      LaterNotEffective(capacity, trace, j, k, id, a);
    } else if k < j {
      LaterNotEffective(capacity, trace, k, j, id, b);
    }
  }

  lemma LaterNotEffective(capacity: nat, trace: seq<Event>, j: nat, k: nat, id: string, a: bool)
    requires Run(capacity, trace).Some? && j < k < |trace| && Effective(capacity, trace, j, id, a)
    ensures Run(capacity, trace[..k]).Some? && !Resolvable(Run(capacity, trace[..k]).value.gate, id)
  {
    PrefixRuns(capacity, trace, k);
    EffectiveSettles(capacity, trace, j, id, a);
    var front := trace[..k];
    assert front[..j + 1] == trace[..j + 1];
    hide Run, Next, Enabled;
    StatusSettles(capacity, front, j + 1, id);
  }

  /** A request is approved exactly when some approve of its id returned true. */
  lemma {:induction false} ApprovedIffApproveReturnedTrue(capacity: nat, trace: seq<Event>, id: string)
    requires Run(capacity, trace).Some?
    ensures var g := Run(capacity, trace).value.gate;
      (id in g.requests && g.requests[id].status == Approved)
       <==> exists k: nat :: Effective(capacity, trace, k, id, true)
  {
    var t := Run(capacity, trace).value;
    if k: nat :| Effective(capacity, trace, k, id, true) {
      EffectiveSettles(capacity, trace, k, id, true);
      hide Effective, Next, Enabled;
      StatusSettles(capacity, trace, k + 1, id);
    }
    if id in t.gate.requests && t.gate.requests[id].status == Approved {
      var k := ApprovalEvent(capacity, trace, id);
    }
  }

  lemma {:induction false} ApprovalEvent(capacity: nat, trace: seq<Event>, id: string) returns (k: nat)
    requires Run(capacity, trace).Some?
    requires id in Run(capacity, trace).value.gate.requests
    requires Run(capacity, trace).value.gate.requests[id].status == Approved
    ensures Effective(capacity, trace, k, id, true)
  {
    hide Next, Enabled, Inv;
    if trace == [] {
      assert false;
    } else {
      var front, e := trace[..|trace| - 1], trace[|trace| - 1];
      var s := Run(capacity, front).value;
      RunInv(capacity, front);
      if id in s.gate.requests && s.gate.requests[id].status == Approved {
        k := ApprovalEvent(capacity, front, id);
        assert front[..k] == trace[..k];
      } else {
        k := |trace| - 1;
        ApprovedBy(s, e, id);
      }
    }
  }

  lemma ApprovedBy(s: System, e: Event, id: string)
    requires Inv(s) && Enabled(s, e)
    requires !(id in s.gate.requests && s.gate.requests[id].status == Approved)
    requires id in Next(s, e).gate.requests && Next(s, e).gate.requests[id].status == Approved
    ensures e.Decide? && e.id == id && e.approve && Resolvable(s.gate, id)
  {
    hide Inv;
  }

  /** What submit returns: a settled request, approved exactly when an approve of it returned true. */
  lemma SubmitReturnsDecision(capacity: nat, trace: seq<Event>, id: string)
    requires Run(capacity, trace).Some? && At(Run(capacity, trace).value, id, Returned)
    ensures var g := Run(capacity, trace).value.gate;
      && id in g.requests && g.requests[id].status != Pending && id !in g.pending
      && (g.requests[id].status == Approved <==> exists k: nat :: Effective(capacity, trace, k, id, true))
  {
    RunInv(capacity, trace);
    ApprovedIffApproveReturnedTrue(capacity, trace, id);
    var s := Run(capacity, trace).value;
    assert id in s.phase.Keys;
    assert RequestInv(s, id);
  }

  /** A gated write reaches the disk only after an approve of its own request returned true. */
  lemma WriteOnlyAfterApproval(capacity: nat, trace: seq<Event>, k: nat, id: string)
    requires Run(capacity, trace).Some? && k < |trace| && trace[k] == TouchFile(id)
    ensures exists j: nat :: j < k && Effective(capacity, trace, j, id, true)
  {
    PrefixRuns(capacity, trace, k);
    var front := trace[..k];
    var j := ApprovalEvent(capacity, front, id);
    assert front[..j] == trace[..j];
    assert Effective(capacity, trace, j, id, true);
  }

  // ------------------------------------------------------ what the events make of a request

  /** The submit of a request. */
  function SubmitOf(trace: seq<Event>, id: string): Option<Event> {
    if trace == [] then None
    else
      var e := trace[|trace| - 1];
      if e.Submit? && e.id == id then Some(e) else SubmitOf(trace[..|trace| - 1], id)
  }

  /** The event that settled it: the first decision or timeout section of its own after its submit. */
  function SettledBy(trace: seq<Event>, id: string): Option<Event> {
    if trace == [] then None
    else
      var before, e := trace[..|trace| - 1], trace[|trace| - 1];
      if e.Submit? && e.id == id then None
      else if SettledBy(before, id).Some? then SettledBy(before, id)
      else if SubmitOf(before, id).Some? && (e.Decide? || e.RunTimeout?) && e.id == id then Some(e)
      else None
  }

  /** The requests filed into the history, in order: at the decision that settles one, and at every
      timeout section. */
  function Filings(trace: seq<Event>): (r: seq<string>) {
    if trace == [] then []
    else
      var before, e := trace[..|trace| - 1], trace[|trace| - 1];
      var files := e.RunTimeout?
        || (e.Decide? && SubmitOf(before, e.id).Some? && SettledBy(before, e.id).None?);
      if files then Filings(before) + [e.id] else Filings(before)
  }

  /** A request holds what its submit gave, its timeout raised to a second if shorter, and what
      settled it: an operator's word, its time and its reason, or else the timeout. Only an operator
      releases the submitter. */
  predicate Records(r: Request, submit: Event, settled: Option<Event>) {
    && submit.Submit?
    && r.capability == submit.capability && r.action == submit.action && r.submittedAt == submit.at
    && r.timeoutSeconds >= 1.0 && r.timeoutSeconds == (if submit.timeout >= 1.0 then submit.timeout else 1.0)
    && match settled
       case None => r.status == Pending && r.resolvedAt == None && r.reason == None && !r.released
       case Some(Decide(_, approve, at, reason)) =>
         (if approve then r.status == Approved else r.status == Denied)
         && r.resolvedAt == Some(at) && r.reason == reason && r.released
       case Some(RunTimeout(_, at)) =>
         r.status == TimedOut && r.resolvedAt == Some(at) && r.reason == Some("timeout") && !r.released
       case _ => false
  }

  /** The gate's table against the events. */
  ghost predicate Matches(s: System, trace: seq<Event>, id: string) {
    && (id in s.gate.requests <==> SubmitOf(trace, id).Some?)
    && (id !in s.gate.requests ==> SettledBy(trace, id).None?)
    && (id in s.gate.requests ==> Records(s.gate.requests[id], SubmitOf(trace, id).value, SettledBy(trace, id)))
  }

  lemma EventsStep(trace: seq<Event>, e: Event, id: string)
    ensures SubmitOf(trace + [e], id) == if e.Submit? && e.id == id then Some(e) else SubmitOf(trace, id)
    ensures SettledBy(trace + [e], id)
            == if e.Submit? && e.id == id then None
               else if SettledBy(trace, id).Some? then SettledBy(trace, id)
               else if SubmitOf(trace, id).Some? && (e.Decide? || e.RunTimeout?) && e.id == id then Some(e)
               else None
    ensures var files := e.RunTimeout?
        || (e.Decide? && SubmitOf(trace, e.id).Some? && SettledBy(trace, e.id).None?);
      Filings(trace + [e]) == if files then Filings(trace) + [e.id] else Filings(trace)
  {
    assert (trace + [e])[..|trace|] == trace;
  }

  lemma NextRecords(s: System, trace: seq<Event>, e: Event, id: string)
    requires RequestsInv(s) && Enabled(s, e) && Matches(s, trace, id)
    ensures Matches(Next(s, e), trace + [e], id)
  {
    EventsStep(trace, e, id);
    hide SubmitOf, SettledBy, Filings, Count;
    assert id in s.gate.requests ==> RequestInv(s, id);
  }

  /** In every reachable state each request is exactly what its submit and the event that settled it
      make of it. */
  lemma {:induction false} RecordExactly(capacity: nat, trace: seq<Event>, id: string)
    requires Run(capacity, trace).Some?
    ensures Matches(Run(capacity, trace).value, trace, id)
  {
    hide Next, Enabled, Inv, Matches;
    if trace == [] {
      NothingMatches(capacity, id);
    } else {
      var front, e := trace[..|trace| - 1], trace[|trace| - 1];
      RecordExactly(capacity, front, id);
      RunInv(capacity, front);
      InvHasRequests(Run(capacity, front).value);
      NextRecords(Run(capacity, front).value, front, e, id);
      assert trace == front + [e];
    }
  }

  lemma NothingMatches(capacity: nat, id: string)
    ensures Matches(Begin(capacity), [], id)
  {
  }

  lemma InvHasRequests(s: System)
    requires Inv(s)
    ensures RequestsInv(s) && s.gate.history == Suffix(s.moved, s.gate.capacity)
  {
    hide RequestsInv;
  }

  lemma NextFiles(s: System, trace: seq<Event>, e: Event)
    requires RequestsInv(s) && Enabled(s, e) && s.moved == Filings(trace) && Matches(s, trace, e.id)
    ensures Next(s, e).moved == Filings(trace + [e])
  {
    EventsStep(trace, e, e.id);
    hide SubmitOf, SettledBy, Filings, Count;
    assert e.id in s.gate.requests ==> RequestInv(s, e.id);
  }

  lemma {:induction false} MovedExactly(capacity: nat, trace: seq<Event>)
    requires Run(capacity, trace).Some?
    ensures Run(capacity, trace).value.moved == Filings(trace)
  {
    hide Next, Enabled, Inv, Matches, RequestsInv, SubmitOf, SettledBy, Filings, Suffix;
    if trace == [] {
      NothingFiled();
    } else {
      var front, e := trace[..|trace| - 1], trace[|trace| - 1];
      MovedExactly(capacity, front);
      RecordExactly(capacity, front, e.id);
      RunInv(capacity, front);
      InvHasRequests(Run(capacity, front).value);
      NextFiles(Run(capacity, front).value, front, e);
      assert trace == front + [e];
    }
  }

  lemma NothingFiled()
    ensures Filings([]) == []
  {
  }

  /** The history is always the latest filings, as many as it has room for. */
  lemma HistoryExactly(capacity: nat, trace: seq<Event>)
    requires Run(capacity, trace).Some?
    ensures var h := Run(capacity, trace).value.gate.history;
      && |h| == (if |Filings(trace)| > capacity then capacity else |Filings(trace)|)
      && h == Filings(trace)[|Filings(trace)| - |h|..]
  {
    hide Run, Filings, Inv, RequestsInv;
    MovedExactly(capacity, trace);
    RunInv(capacity, trace);
    InvHasRequests(Run(capacity, trace).value);
  }

  /** The history gets a request at most twice, and twice exactly when an operator resolved it
      while its submitter was on the way into the timeout section. */
  lemma FiledTwiceExactly(capacity: nat, trace: seq<Event>, id: string)
    requires Run(capacity, trace).Some? && id in Run(capacity, trace).value.gate.requests
    ensures var s := Run(capacity, trace).value;
      && Count(s.moved, id) <= 2
      && (Count(s.moved, id) == 2 <==> s.gate.requests[id].released && id in s.expired)
  {
    RunInv(capacity, trace);
    assert RequestInv(Run(capacity, trace).value, id);
  }

  /** Such a run exists: the timeout fires, the operator approves, then the submitter gets the lock. */
  lemma FiledTwiceHappens()
    ensures var trace := [Submit("r", "filesystem", "fs_write", 0.0, 120.0), Fire("r"),
                          Decide("r", true, 120.0, None), RunTimeout("r", 120.0)];
      Run(10, trace).Some? && Run(10, trace).value.gate.history == ["r", "r"]
  {
    hide Run;
    var e0, e1 := Submit("r", "filesystem", "fs_write", 0.0, 120.0), Fire("r");
    var e2, e3 := Decide("r", true, 120.0, None), RunTimeout("r", 120.0);
    FiledTwiceStates(e0, e1, e2, e3);
    hide Next, Enabled;
    RunEmpty(10);
    RunSnoc(10, [], e0);
    assert [] + [e0] == [e0];
    RunSnoc(10, [e0], e1);
    assert [e0] + [e1] == [e0, e1];
    RunSnoc(10, [e0, e1], e2);
    assert [e0, e1] + [e2] == [e0, e1, e2];
    RunSnoc(10, [e0, e1, e2], e3);
    assert [e0, e1, e2] + [e3] == [e0, e1, e2, e3];
  }

  lemma FiledTwiceStates(e0: Event, e1: Event, e2: Event, e3: Event)
    requires e0 == Submit("r", "filesystem", "fs_write", 0.0, 120.0) && e1 == Fire("r")
    requires e2 == Decide("r", true, 120.0, None) && e3 == RunTimeout("r", 120.0)
    ensures Enabled(Begin(10), e0)
    ensures Enabled(Next(Begin(10), e0), e1)
    ensures Enabled(Next(Next(Begin(10), e0), e1), e2)
    ensures Enabled(Next(Next(Next(Begin(10), e0), e1), e2), e3)
    ensures Next(Next(Next(Next(Begin(10), e0), e1), e2), e3).gate.history == ["r", "r"]
  {
    var r0 := Fresh("filesystem", "fs_write", 0.0, 120.0);
    var s1 := Next(Begin(10), e0);
    assert s1 == System(Gate(map["r" := r0], {"r"}, [], 10), map["r" := Parked], [], {}, {});
    var s2 := Next(s1, e1);
    assert Resolvable(s2.gate, "r") && s2.gate.history == [];
    var s3 := Next(s2, e2);
    assert s3.gate.history == ["r"] && At(s3, "r", TimingOut) && "r" in s3.gate.requests;
  }

  lemma RunEmpty(capacity: nat)
    ensures Run(capacity, []) == Some(Begin(capacity))
  {
  }

  lemma RunSnoc(capacity: nat, trace: seq<Event>, e: Event)
    requires Run(capacity, trace).Some? && Enabled(Run(capacity, trace).value, e)
    ensures Run(capacity, trace + [e]) == Some(Next(Run(capacity, trace).value, e))
  {
    hide Next, Enabled;
    assert (trace + [e])[..|trace|] == trace;
  }

  /** No submitter is stuck: whatever the operators do, its timeout can bring it back. */
  lemma TimeoutBringsBack(capacity: nat, trace: seq<Event>, id: string, now: real)
    requires Run(capacity, trace).Some? && At(Run(capacity, trace).value, id, Parked)
    ensures var after := Run(capacity, trace + [Fire(id)] + [RunTimeout(id, now)]);
      after.Some? && At(after.value, id, Returned) && after.value.gate.requests[id].status != Pending
  {
    RunInv(capacity, trace);
    var s := Run(capacity, trace).value;
    assert id in s.phase.Keys;
    RunSnoc(capacity, trace, Fire(id));
    RunSnoc(capacity, trace + [Fire(id)], RunTimeout(id, now));
    hide Run;
  }
}
