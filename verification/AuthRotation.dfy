/**
 Rotation over auth profiles with a cooldown after errors: round robin on a rotating
 deque, least used, or random. Profile names are distinct, as the pool's tables key
 everything by name.
 */
module AuthRotation {
  import opened Common

  datatype Policy = RoundRobin | LeastUsed | Random

  datatype Stats = Stats(uses: nat, lastUsedAt: real, lastErrorAt: Option<real>)

  /** `names` is the order of the stats table, `deque` the rotation. */
  datatype Pool = Pool(names: seq<string>, stats: map<string, Stats>, deque: seq<string>, policy: Policy,
                       cooldown: real)

  ghost predicate Valid(p: Pool) {
    && p.names != [] && Distinct(p.names)
    && Distinct(p.deque) && |p.deque| == |p.names|
    && (forall n :: n in p.deque <==> n in p.names)
    && (forall n :: n in p.names <==> n in p.stats)
  }

  function Create(names: seq<string>, policy: Policy, cooldown: real): (p: Pool) {
    Pool(names, map n | n in names :: Stats(0, 0.0, None), names, policy, cooldown)
  }

  predicate IsEligible(p: Pool, n: string, now: real) {
    n in p.stats && (p.stats[n].lastErrorAt.None? || now - p.stats[n].lastErrorAt.value > p.cooldown)
  }

  function Eligible(p: Pool, now: real, k: nat): (r: seq<string>)
    requires k <= |p.names|
    ensures forall n :: n in r <==> n in p.names[..k] && IsEligible(p, n, now)
  {
    if k == 0 then []
    else
      assert p.names[..k] == p.names[..k - 1] + [p.names[k - 1]];
      Eligible(p, now, k - 1) + if IsEligible(p, p.names[k - 1], now) then [p.names[k - 1]] else []
  }

  lemma NoneEligibleYet(p: Pool, now: real)
    ensures Eligible(p, now, 0) == []
  {
  }

  lemma EligibleStep(p: Pool, now: real, k: nat)
    requires k < |p.names|
    ensures Eligible(p, now, k + 1)
            == if IsEligible(p, p.names[k], now) then Eligible(p, now, k) + [p.names[k]] else Eligible(p, now, k)
  {
    hide IsEligible;
  }

  function ClearErrors(p: Pool): (r: Pool) {
    p.(stats := map n | n in p.stats :: p.stats[n].(lastErrorAt := None))
  }

  /** The position of the first deque entry that is a candidate. */
  function FirstIn(deque: seq<string>, candidates: seq<string>): (i: nat)
    ensures i <= |deque|
    ensures forall j :: 0 <= j < i ==> deque[j] !in candidates
    ensures i < |deque| ==> deque[i] in candidates
  {
    if deque == [] || deque[0] in candidates then 0 else 1 + FirstIn(deque[1..], candidates)
  }

  /** The first of the candidates with the fewest uses. */
  function Fewest(stats: map<string, Stats>, candidates: seq<string>): (n: string)
    requires candidates != [] && forall c :: c in candidates ==> c in stats
    ensures n in candidates && forall c :: c in candidates ==> stats[n].uses <= stats[c].uses
  {
    if |candidates| == 1 then candidates[0]
    else
      var rest := Fewest(stats, candidates[..|candidates| - 1]);
      var last := candidates[|candidates| - 1];
      assert forall c :: c in candidates <==> c == last || c in candidates[..|candidates| - 1];
      if stats[last].uses < stats[rest].uses then last else rest
  }

  function Rotate(deque: seq<string>, i: nat): (r: seq<string>)
    requires i < |deque|
  {
    deque[..i] + deque[i + 1..] + [deque[i]]
  }

  function Use(p: Pool, n: string, now: real): (r: Pool)
    requires n in p.stats
  {
    p.(stats := p.stats[n := p.stats[n].(uses := p.stats[n].uses + 1, lastUsedAt := now)])
  }

  /** The pool and candidates an acquire works with: all profiles, errors forgiven, when none is eligible. */
  function Candidates(p: Pool, now: real): (r: (Pool, seq<string>)) {
    var eligible := Eligible(p, now, |p.names|);
    if eligible == [] then (ClearErrors(p), p.names) else (p, eligible)
  }

  lemma CandidatesFacts(p: Pool, now: real)
    requires Valid(p)
    ensures var (q, candidates) := Candidates(p, now);
      && Valid(q) && q == p.(stats := q.stats)
      && candidates != [] && (forall c :: c in candidates ==> c in p.names && c in q.stats)
      && FirstIn(p.deque, candidates) < |p.deque|
      && ((forall c :: c in candidates ==> IsEligible(p, c, now))
          || (forall x :: x in p.names ==> !IsEligible(p, x, now)))
      && (forall x :: x in p.names && IsEligible(p, x, now) ==> q == p && x in candidates)
  {
    hide Distinct, IsEligible;
    assert p.names[..|p.names|] == p.names;
    var (q, candidates) := Candidates(p, now);
    assert candidates[0] in candidates && candidates[0] in p.deque;
  }

  /** An acquire; `pick` is the random choice. */
  function Acquired(p: Pool, now: real, pick: nat): (r: (Pool, string))
    requires Valid(p)
  {
    CandidatesFacts(p, now);
    var (q, candidates) := Candidates(p, now);
    match p.policy
    case Random =>
      var n := candidates[pick % |candidates|];
      (Use(q, n, now), n)
    case LeastUsed =>
      var n := Fewest(q.stats, candidates);
      (Use(q, n, now), n)
    case RoundRobin =>
      var i := FirstIn(q.deque, candidates);
      var n := q.deque[i];
      (Use(q.(deque := Rotate(q.deque, i)), n, now), n)
  }

  function Errored(p: Pool, n: string, now: real): (r: Pool)
    ensures Valid(p) ==> Valid(r)
  {
    if n in p.stats then p.(stats := p.stats[n := p.stats[n].(lastErrorAt := Some(now))]) else p
  }

  class AuthProfilePool {
    const names: seq<string>
    var stats: map<string, Stats>
    var roundRobin: seq<string>
    const policy: Policy
    const cooldown: real

    ghost function Abs(): Pool
      reads this
    {
      Pool(names, stats, roundRobin, policy, cooldown)
    }

    constructor (names: seq<string>, policy: Policy, cooldown: real)
      requires names != [] && Distinct(names)
      ensures Abs() == Create(names, policy, cooldown) && Valid(Abs())
    {
      this.names, this.policy, this.cooldown := names, policy, cooldown;
      stats, roundRobin := map n | n in names :: Stats(0, 0.0, None), names;
    }

    method EligibleNames(now: real) returns (eligible: seq<string>)
      ensures eligible == Eligible(Abs(), now, |names|)
    {
      hide Eligible;
      eligible := [];
      NoneEligibleYet(Abs(), now);
      for i := 0 to |names|
        invariant eligible == Eligible(Abs(), now, i)
      {
        EligibleStep(Abs(), now, i);
        var n := names[i];
        if n in stats && (stats[n].lastErrorAt.None? || now - stats[n].lastErrorAt.value > cooldown) {
          eligible := eligible + [n];
        }
      }
    }

    /** The eligible profiles; when there are none, every error is forgiven and all are. */
    method ChooseFrom(now: real) returns (eligible: seq<string>)
      modifies this`stats
      ensures (Abs(), eligible) == Candidates(old(Abs()), now)
    {
      eligible := EligibleNames(now);
      if eligible == [] {
        stats := map n | n in stats :: stats[n].(lastErrorAt := None);
        eligible := names;
      }
    }

    method Acquire(now: real, pick: nat) returns (chosen: string)
      requires Valid(Abs())
      modifies this
      ensures (Abs(), chosen) == Acquired(old(Abs()), now, pick)
      ensures Valid(Abs())
    {
      hide Valid, IsEligible, Candidates;
      AcquiredFacts(Abs(), now, pick);
      CandidatesFacts(Abs(), now);
      var eligible := ChooseFrom(now);
      match policy {
        case Random =>
          chosen := eligible[pick % |eligible|];
        case LeastUsed =>
          chosen := Fewest(stats, eligible);
        case RoundRobin =>
          var i := FirstIn(roundRobin, eligible);
          chosen := roundRobin[i];
          roundRobin := roundRobin[..i] + roundRobin[i + 1..] + [chosen];
      }
      stats := stats[chosen := stats[chosen].(uses := stats[chosen].uses + 1, lastUsedAt := now)];
    }

    method ReportError(name: string, now: real)
      modifies this
      ensures Abs() == Errored(old(Abs()), name, now)
    {
      if name in stats {
        stats := stats[name := stats[name].(lastErrorAt := Some(now))];
      }
    }
  }

  // ------------------------------------------------------------- every step

  lemma RotateIsPermutation(deque: seq<string>, i: nat)
    requires i < |deque| && Distinct(deque)
    ensures Distinct(Rotate(deque, i)) && |Rotate(deque, i)| == |deque|
    ensures forall n :: n in Rotate(deque, i) <==> n in deque
  {
    var r := Rotate(deque, i);
    assert forall j :: 0 <= j < |deque| ==>
      r[j] == if j < i then deque[j] else if j < |deque| - 1 then deque[j + 1] else deque[i];
    forall n ensures n in r <==> n in deque {
      if n in deque {
        var j :| 0 <= j < |deque| && deque[j] == n;
        assert r[if j < i then j else if j == i then |deque| - 1 else j - 1] == n;
      }
    }
  }

  lemma RotateKeepsValid(p: Pool, i: nat)
    requires Valid(p) && i < |p.deque|
    ensures Valid(p.(deque := Rotate(p.deque, i)))
  {
    RotateIsPermutation(p.deque, i);
    hide Rotate, Distinct;
  }

  lemma UseKeepsValid(p: Pool, n: string, now: real)
    requires Valid(p) && n in p.stats
    ensures Valid(Use(p, n, now)) && Use(p, n, now) == p.(stats := Use(p, n, now).stats)
  {
    hide Distinct;
  }

  lemma NamesHaveStats(p: Pool, n: string)
    requires Valid(p) && n in p.deque
    ensures n in p.names && n in p.stats
  {
  }

  /** The deque stays a permutation of the profiles, and what is returned was eligible unless
      no profile was. */
  lemma AcquiredFacts(p: Pool, now: real, pick: nat)
    requires Valid(p)
    ensures var (q, n) := Acquired(p, now, pick);
      && Valid(q) && q == p.(stats := q.stats, deque := q.deque)
      && n in p.names
      && (IsEligible(p, n, now) || forall x :: x in p.names ==> !IsEligible(p, x, now))
  {
    hide Valid, IsEligible, Candidates, Use, Rotate, FirstIn, Fewest;
    CandidatesFacts(p, now);
    var (q, candidates) := Candidates(p, now);
    var n := Acquired(p, now, pick).1;
    if p.policy == RoundRobin {
      var i := FirstIn(p.deque, candidates);
      RotateKeepsValid(q, i);
      NamesHaveStats(q, q.deque[i]);
      UseKeepsValid(q.(deque := Rotate(q.deque, i)), n, now);
    } else {
      UseKeepsValid(q, n, now);
    }
  }

  lemma ErroredFacts(p: Pool, n: string, now: real)
    requires Valid(p)
    ensures Valid(Errored(p, n, now)) && Errored(p, n, now).deque == p.deque
    ensures Errored(p, n, now).policy == p.policy && Errored(p, n, now).names == p.names
  {
  }

  // ------------------------------------------------------------- whole runs

  datatype Event = AcquireAt(now: real, pick: nat) | ErrorAt(name: string, now: real)

  /** The pool after some calls and the profiles the acquires among them returned. */
  function RunPool(p: Pool, events: seq<Event>): (r: (Pool, seq<string>))
    requires Valid(p)
    ensures Valid(r.0) && r.0.names == p.names && r.0.policy == p.policy && r.0.cooldown == p.cooldown
    decreases |events|
  {
    if events == [] then (p, [])
    else
      match events[0]
      case ErrorAt(n, now) =>
        ErroredFacts(p, n, now);
        RunPool(Errored(p, n, now), events[1..])
      case AcquireAt(now, pick) =>
        AcquiredFacts(p, now, pick);
        var (q, n) := Acquired(p, now, pick);
        var (last, names) := RunPool(q, events[1..]);
        (last, [n] + names)
  }

  /** x is eligible at every acquire of the run. */
  predicate StaysEligible(p: Pool, events: seq<Event>, x: string)
    requires Valid(p)
    decreases |events|
  {
    if events == [] then true
    else
      match events[0]
      case ErrorAt(n, now) =>
        ErroredFacts(p, n, now);
        StaysEligible(Errored(p, n, now), events[1..], x)
      case AcquireAt(now, pick) =>
        AcquiredFacts(p, now, pick);
        IsEligible(p, x, now) && StaysEligible(Acquired(p, now, pick).0, events[1..], x)
  }

  function Acquires(events: seq<Event>): (n: nat) {
    if events == [] then 0 else (if events[0].AcquireAt? then 1 else 0) + Acquires(events[1..])
  }

  /** x stands at position i of the rotation. */
  predicate Stands(p: Pool, x: string, i: nat) {
    i < |p.deque| && p.deque[i] == x
  }

  lemma RoundRobinTakesFirst(p: Pool, now: real, pick: nat)
    requires Valid(p) && p.policy == RoundRobin
    ensures var c := FirstIn(p.deque, Candidates(p, now).1);
      && c < |p.deque|
      && Acquired(p, now, pick).1 == p.deque[c]
      && Acquired(p, now, pick).0.deque == Rotate(p.deque, c)
  {
    hide Valid, IsEligible, Candidates, FirstIn, Rotate;
    CandidatesFacts(p, now);
  }

  lemma RotateMovesForward(deque: seq<string>, c: nat, i: nat)
    requires c < i < |deque|
    ensures |Rotate(deque, c)| == |deque| && Rotate(deque, c)[i - 1] == deque[i]
  {
  }

  /** With x eligible, an acquire either returns x or moves it one place forward. */
  lemma AcquireMovesForward(p: Pool, now: real, pick: nat, x: string, i: nat)
    requires Valid(p) && p.policy == RoundRobin && Stands(p, x, i) && IsEligible(p, x, now)
    ensures var (q, n) := Acquired(p, now, pick); n == x || (i > 0 && Stands(q, x, i - 1))
  {
    hide Valid, IsEligible, Candidates, FirstIn, Acquired, Rotate;
    CandidatesFacts(p, now);
    NamesHaveStats(p, x);
    RoundRobinTakesFirst(p, now, pick);
    var c := FirstIn(p.deque, Candidates(p, now).1);
    if c < i {
      RotateMovesForward(p.deque, c, i);
    }
  }

  /** Bounded wait: whatever errors and cooldowns befall the others, a profile that stays
      eligible is returned by one of the next i + 1 acquires, i being its place in the rotation. */
  lemma {:induction false} BoundedWait(p: Pool, events: seq<Event>, x: string, i: nat)
    requires Valid(p) && p.policy == RoundRobin && Stands(p, x, i)
    requires StaysEligible(p, events, x) && Acquires(events) > i
    ensures x in RunPool(p, events).1
    decreases |events|
  {
    hide Valid, IsEligible, Acquired, Errored;
    match events[0] {
      case ErrorAt(n, now) =>
        ErroredFacts(p, n, now);
        BoundedWait(Errored(p, n, now), events[1..], x, i);
      case AcquireAt(now, pick) =>
        AcquiredFacts(p, now, pick);
        AcquireMovesForward(p, now, pick, x, i);
        var (q, n) := Acquired(p, now, pick);
        if n != x {
          BoundedWait(q, events[1..], x, i - 1);
        }
    }
  }

  /** In particular, within as many acquires as there are profiles. */
  lemma WithinOneRound(p: Pool, events: seq<Event>, x: string)
    requires Valid(p) && p.policy == RoundRobin && x in p.names
    requires StaysEligible(p, events, x) && Acquires(events) >= |p.names|
    ensures x in RunPool(p, events).1
  {
    assert x in p.deque;
    var i :| 0 <= i < |p.deque| && p.deque[i] == x;
    hide *;
    assert Stands(p, x, i) by { StandsAt(p, x, i); }
    BoundedWait(p, events, x, i);
  }

  lemma StandsAt(p: Pool, x: string, i: nat)
    requires i < |p.deque| && p.deque[i] == x
    ensures Stands(p, x, i)
  {
  }

  /** Every profile is eligible at time t: none has an error, or all errors are past their cooldown. */
  predicate EveryoneEligible(p: Pool, t: real) {
    forall i :: 0 <= i < |p.names| ==> IsEligible(p, p.names[i], t)
  }

  /** The calls are acquires from time t on; no error is reported. */
  predicate OnlyAcquires(events: seq<Event>, t: real) {
    forall i :: 0 <= i < |events| ==> events[i].AcquireAt? && events[i].now >= t
  }

  lemma EligibleLater(p: Pool, t: real, now: real)
    requires EveryoneEligible(p, t) && t <= now
    ensures EveryoneEligible(p, now)
  {
  }

  /** The same profiles with the same errors. */
  predicate SameErrors(p: Pool, q: Pool) {
    && q.names == p.names && q.cooldown == p.cooldown && q.stats.Keys == p.stats.Keys
    && forall n :: n in p.stats ==> q.stats[n].lastErrorAt == p.stats[n].lastErrorAt
  }

  lemma UseKeepsErrors(p: Pool, deque: seq<string>, n: string, now: real)
    requires n in p.stats
    ensures SameErrors(p, Use(p.(deque := deque), n, now)) && SameErrors(p, Use(p, n, now))
  {
  }

  lemma SameErrorsSameEligible(p: Pool, q: Pool, t: real)
    requires SameErrors(p, q) && EveryoneEligible(p, t)
    ensures EveryoneEligible(q, t)
  {
  }

  lemma SomeoneEligible(p: Pool, t: real)
    requires Valid(p) && EveryoneEligible(p, t)
    ensures p.names[0] in p.names && IsEligible(p, p.names[0], t)
  {
    hide IsEligible;
  }

  lemma NameInStats(p: Pool, n: string)
    requires Valid(p) && n in p.names
    ensures n in p.stats
  {
  }

  /** An acquire adds no error, so everyone stays eligible. */
  lemma AcquireKeepsEligible(p: Pool, now: real, pick: nat, t: real)
    requires Valid(p) && EveryoneEligible(p, t) && t <= now
    ensures EveryoneEligible(Acquired(p, now, pick).0, t)
  {
    hide Valid, Rotate, FirstIn, Fewest, Candidates, Use, SameErrors, EveryoneEligible, IsEligible;
    CandidatesFacts(p, now);
    EligibleLater(p, t, now);
    SomeoneEligible(p, now);
    AcquiredFacts(p, now, pick);
    var (q, n) := Acquired(p, now, pick);
    NameInStats(p, n);
    UseKeepsErrors(p, Rotate(p.deque, FirstIn(p.deque, Candidates(p, now).1)), n, now);
    SameErrorsSameEligible(p, q, t);
  }

  lemma AllEligibleTakesFirst(p: Pool, now: real, pick: nat)
    requires Valid(p) && p.policy == RoundRobin
    requires EveryoneEligible(p, now)
    ensures p.deque != []
    ensures var (q, n) := Acquired(p, now, pick); n == p.deque[0] && q.deque == p.deque[1..] + [p.deque[0]]
  {
    CandidatesFacts(p, now);
    NamesHaveStats(p, p.deque[0]);
    var j :| 0 <= j < |p.names| && p.names[j] == p.deque[0];
    assert IsEligible(p, p.names[j], now);
    assert FirstIn(p.deque, Candidates(p, now).1) == 0;
    hide Valid, IsEligible, Candidates, FirstIn;
    assert p.deque[..0] + p.deque[1..] == p.deque[1..];
  }

  /** Without errors a run of at most n acquires returns the rotation from its head. */
  lemma {:induction false} ErrorFreeFollowsRotation(p: Pool, events: seq<Event>, t: real)
    requires Valid(p) && p.policy == RoundRobin && EveryoneEligible(p, t)
    requires OnlyAcquires(events, t) && |events| <= |p.deque|
    ensures RunPool(p, events).1 == p.deque[..|events|]
    decreases |events|
  {
    hide Valid, IsEligible, Acquired, EveryoneEligible;
    if events != [] {
      var e := events[0];
      AcquiredFacts(p, e.now, e.pick);
      EligibleLater(p, t, e.now);
      AllEligibleTakesFirst(p, e.now, e.pick);
      AcquireKeepsEligible(p, e.now, e.pick, t);
      var q := Acquired(p, e.now, e.pick).0;
      ErrorFreeFollowsRotation(q, events[1..], t);
      assert p.deque[..|events|] == [p.deque[0]] + p.deque[1..|events|];
      assert q.deque[..|events| - 1] == p.deque[1..|events|];
    }
  }

  /** Any n consecutive error-free acquires, n the number of profiles, are all different. */
  lemma ErrorFreeAcquiresDiffer(p: Pool, events: seq<Event>, t: real)
    requires Valid(p) && p.policy == RoundRobin && EveryoneEligible(p, t)
    requires OnlyAcquires(events, t) && |events| <= |p.names|
    ensures Distinct(RunPool(p, events).1)
  {
    hide RunPool, IsEligible, EveryoneEligible, OnlyAcquires;
    ErrorFreeFollowsRotation(p, events, t);
  }

  /** The use counts differ by at most one. */
  predicate Balanced(p: Pool) {
    forall a, b :: a in p.names && b in p.names && a in p.stats && b in p.stats ==>
      p.stats[a].uses <= p.stats[b].uses + 1
  }

  lemma LeastUsedKeepsBalance(p: Pool, now: real, pick: nat)
    requires Valid(p) && p.policy == LeastUsed && Balanced(p)
    requires EveryoneEligible(p, now)
    ensures Balanced(Acquired(p, now, pick).0)
  {
    hide IsEligible, Candidates, Distinct, FirstIn, Rotate, Eligible;
    CandidatesFacts(p, now);
    var candidates := Candidates(p, now).1;
    assert p.names[0] in p.names && IsEligible(p, p.names[0], now);
    assert forall n :: n in p.names ==> n in candidates;
  }

  /** Under least-used, error-free runs from a balanced pool (a new one is) stay balanced. */
  lemma {:induction false} LeastUsedStaysBalanced(p: Pool, events: seq<Event>, t: real)
    requires Valid(p) && p.policy == LeastUsed && Balanced(p) && EveryoneEligible(p, t) && OnlyAcquires(events, t)
    ensures Balanced(RunPool(p, events).0)
    decreases |events|
  {
    hide Valid, IsEligible, Acquired, Balanced, EveryoneEligible;
    if events != [] {
      var e := events[0];
      AcquiredFacts(p, e.now, e.pick);
      EligibleLater(p, t, e.now);
      LeastUsedKeepsBalance(p, e.now, e.pick);
      AcquireKeepsEligible(p, e.now, e.pick, t);
      LeastUsedStaysBalanced(Acquired(p, e.now, e.pick).0, events[1..], t);
    }
  }

  lemma NewPoolIsBalanced(names: seq<string>, policy: Policy, cooldown: real)
    requires names != [] && Distinct(names)
    ensures Valid(Create(names, policy, cooldown)) && Balanced(Create(names, policy, cooldown))
    ensures forall t: real :: EveryoneEligible(Create(names, policy, cooldown), t)
  {
  }

  // ------------------------------------------------------------- errors and cooldowns

  /** The profile has no error, or its error is further back than the cooldown. */
  predicate Free(p: Pool, n: string, now: real)
    requires n in p.stats
  {
    p.stats[n].lastErrorAt.None? || p.stats[n].lastErrorAt.value + p.cooldown < now
  }

  ghost predicate SomeoneFree(p: Pool, now: real)
    requires Valid(p)
  {
    exists m :: m in p.names && m in p.stats && Free(p, m, now)
  }

  /** report_error notes the time of a known profile's error and changes nothing else: no use count,
      no order, nobody else's errors; an unknown name changes nothing. */
  lemma ErrorIsNoted(p: Pool, n: string, now: real)
    ensures var q := Errored(p, n, now);
      && q.names == p.names && q.deque == p.deque && q.policy == p.policy && q.cooldown == p.cooldown
      && q.stats.Keys == p.stats.Keys
      && (forall m :: m in p.stats && m != n ==> q.stats[m] == p.stats[m])
      && (n in p.stats ==>
            q.stats[n].lastErrorAt == Some(now) && q.stats[n].uses == p.stats[n].uses
            && q.stats[n].lastUsedAt == p.stats[n].lastUsedAt)
  {
  }

  /** So the profile is not free until its cooldown is over, and free again after, and every other
      profile is as free as before. */
  lemma ErrorBars(p: Pool, n: string, t: real, now: real)
    requires n in p.stats
    ensures var q := Errored(p, n, t);
      && (Free(q, n, now) <==> now > t + p.cooldown)
      && forall m :: m in p.stats && m != n ==> (Free(q, m, now) <==> Free(p, m, now))
  {
  }

  lemma FreeIsEligible(p: Pool, n: string, now: real)
    requires n in p.stats
    ensures Free(p, n, now) <==> IsEligible(p, n, now)
  {
  }

  /** What an acquire does: it takes a free profile if there is one; without one everyone is
      forgiven. One more use of the taken profile is counted, at this time, and nothing else of the
      counts changes. The rotation gives the first free profile of the deque, least-used one with
      the fewest uses. */
  lemma AcquireExactly(p: Pool, now: real, pick: nat)
    requires Valid(p)
    ensures var (q, n) := Acquired(p, now, pick);
      && n in p.names && n in p.stats && q.stats.Keys == p.stats.Keys
      && q.stats[n].uses == p.stats[n].uses + 1 && q.stats[n].lastUsedAt == now
      && (forall m :: m in p.stats && m != n ==>
            q.stats[m].uses == p.stats[m].uses && q.stats[m].lastUsedAt == p.stats[m].lastUsedAt)
      && (SomeoneFree(p, now) ==>
            Free(p, n, now) && forall m :: m in p.stats ==> q.stats[m].lastErrorAt == p.stats[m].lastErrorAt)
      && (!SomeoneFree(p, now) ==> forall m :: m in p.stats ==> q.stats[m].lastErrorAt == None)
  {
    hide Valid, Rotate, FirstIn, Fewest, Use, ClearErrors, Eligible, Candidates, IsEligible, Free;
    CandidatesFacts(p, now);
    AcquiredFacts(p, now, pick);
    NamesAreStats(p);
    var (q, n) := Acquired(p, now, pick);
    forall m | m in p.names ensures m in p.stats && (Free(p, m, now) <==> IsEligible(p, m, now)) {
      NameInStats(p, m);
      FreeIsEligible(p, m, now);
    }
    ForgivenOrNot(p, now);
    AcquireUses(p, now, pick);
  }

  lemma NamesAreStats(p: Pool)
    requires Valid(p)
    ensures forall m :: m in p.names <==> m in p.stats
  {
  }

  /** The pool an acquire works with differs only in that everyone is forgiven if nobody is eligible. */
  lemma ForgivenOrNot(p: Pool, now: real)
    requires Valid(p)
    ensures var q := Candidates(p, now).0;
      && q.stats.Keys == p.stats.Keys
      && (forall m :: m in p.stats ==>
            q.stats[m].uses == p.stats[m].uses && q.stats[m].lastUsedAt == p.stats[m].lastUsedAt)
      && ((exists m :: m in p.names && IsEligible(p, m, now)) ==> q == p)
      && ((forall m :: m in p.names ==> !IsEligible(p, m, now)) ==>
            forall m :: m in p.stats ==> q.stats[m].lastErrorAt == None)
  {
    hide IsEligible, Distinct;
    assert p.names[..|p.names|] == p.names;
    var eligible := Eligible(p, now, |p.names|);
    if eligible != [] {
      assert eligible[0] in eligible;
    }
  }

  lemma AcquireUses(p: Pool, now: real, pick: nat)
    requires Valid(p)
    ensures var ((q, n), r) := (Acquired(p, now, pick), Candidates(p, now).0);
      && q.stats.Keys == r.stats.Keys && n in r.stats
      && (forall m :: m in r.stats ==> q.stats[m].lastErrorAt == r.stats[m].lastErrorAt)
      && (forall m :: m in r.stats && m != n ==> q.stats[m] == r.stats[m])
      && q.stats[n].uses == r.stats[n].uses + 1 && q.stats[n].lastUsedAt == now
  {
    hide Valid, Rotate, FirstIn, Fewest, Candidates, IsEligible;
    CandidatesFacts(p, now);
    AcquiredFacts(p, now, pick);
    var (r, candidates) := Candidates(p, now);
    NamesAreStats(r);
  }

  /** Round robin takes the first free profile of the deque and puts it last. */
  lemma RotationTakesFirstFree(p: Pool, now: real, pick: nat, i: nat)
    requires Valid(p) && p.policy == RoundRobin && i < |p.deque| && p.deque[i] in p.stats && Free(p, p.deque[i], now)
    requires forall j :: 0 <= j < i ==> p.deque[j] in p.stats && !Free(p, p.deque[j], now)
    ensures var (q, n) := Acquired(p, now, pick);
      n == p.deque[i] && q.deque == p.deque[..i] + p.deque[i + 1..] + [p.deque[i]]
  {
    hide Valid, IsEligible, FirstIn, Free, Use, Distinct;
    CandidatesFacts(p, now);
    RoundRobinTakesFirst(p, now, pick);
    var candidates := Candidates(p, now).1;
    NamesHaveStats(p, p.deque[i]);
    FreeIsEligible(p, p.deque[i], now);
    forall j | 0 <= j < i ensures p.deque[j] !in candidates {
      NamesHaveStats(p, p.deque[j]);
      FreeIsEligible(p, p.deque[j], now);
    }
    FirstIs(p.deque, candidates, i);
  }

  lemma {:induction false} FirstIs(deque: seq<string>, candidates: seq<string>, i: nat)
    requires i < |deque| && deque[i] in candidates && forall j :: 0 <= j < i ==> deque[j] !in candidates
    ensures FirstIn(deque, candidates) == i
  {
    if i > 0 {
      FirstIs(deque[1..], candidates, i - 1);
    }
  }

  /** At every acquire of the run another profile than n is free. */
  ghost predicate OthersFree(p: Pool, events: seq<Event>, n: string)
    requires Valid(p)
    decreases |events|
  {
    if events == [] then true
    else
      match events[0]
      case ErrorAt(m, now) =>
        ErroredFacts(p, m, now);
        OthersFree(Errored(p, m, now), events[1..], n)
      case AcquireAt(now, pick) =>
        AcquiredFacts(p, now, pick);
        (exists m :: m in p.names && m != n && m in p.stats && Free(p, m, now))
        && OthersFree(Acquired(p, now, pick).0, events[1..], n)
  }

  /** No event is earlier than t, and no acquire later than the cooldown after it. */
  predicate Within(events: seq<Event>, t: real, cooldown: real) {
    forall i :: 0 <= i < |events| ==> events[i].now >= t && (events[i].AcquireAt? ==> events[i].now <= t + cooldown)
  }

  /** After an error at time t, and whatever errors follow, a profile is not returned up to the end of
      its cooldown, as long as another profile is free at each acquire. */
  lemma {:induction false} BarredWhileOthersFree(p: Pool, events: seq<Event>, n: string, t: real)
    requires Valid(p) && n in p.stats && p.stats[n].lastErrorAt.Some? && p.stats[n].lastErrorAt.value >= t
    requires OthersFree(p, events, n) && Within(events, t, p.cooldown)
    ensures n !in RunPool(p, events).1
    decreases |events|
  {
    hide Valid, IsEligible, Acquired, Errored;
    if events != [] {
      match events[0] {
        case ErrorAt(m, now) =>
          ErroredFacts(p, m, now);
          ErrorIsNoted(p, m, now);
          BarredWhileOthersFree(Errored(p, m, now), events[1..], n, t);
        case AcquireAt(now, pick) =>
          AcquiredFacts(p, now, pick);
          AcquireExactly(p, now, pick);
          assert SomeoneFree(p, now) && !Free(p, n, now);
          BarredWhileOthersFree(Acquired(p, now, pick).0, events[1..], n, t);
      }
    }
  }

  /** report_error(n) at time t, said of the call itself. */
  lemma ReportedIsBarred(p: Pool, n: string, t: real, events: seq<Event>)
    requires Valid(p) && n in p.stats
    requires OthersFree(Errored(p, n, t), events, n) && Within(events, t, p.cooldown)
    ensures n !in RunPool(Errored(p, n, t), events).1
  {
    hide Valid, Errored, OthersFree, RunPool, Within;
    ErrorIsNoted(p, n, t);
    BarredWhileOthersFree(Errored(p, n, t), events, n, t);
  }

  /** With random rotation every free profile can be the one. */
  lemma RandomReachesAllFree(p: Pool, now: real, m: string) returns (pick: nat)
    requires Valid(p) && p.policy == Random && m in p.names && m in p.stats && Free(p, m, now)
    ensures Acquired(p, now, pick).1 == m
  {
    hide *;
    CandidatesFacts(p, now);
    FreeIsEligible(p, m, now);
    var candidates := Candidates(p, now).1;
    pick :| pick < |candidates| && candidates[pick] == m;
    RandomTakes(p, now, pick);
  }

  lemma RandomTakes(p: Pool, now: real, pick: nat)
    requires Valid(p) && p.policy == Random && pick < |Candidates(p, now).1|
    ensures Acquired(p, now, pick).1 == Candidates(p, now).1[pick]
  {
    hide Valid, Candidates, Use;
    CandidatesFacts(p, now);
    assert pick % |Candidates(p, now).1| == pick;
  }

  lemma FewestOfOne(stats: map<string, Stats>, n: string)
    requires n in stats
    ensures Fewest(stats, [n]) == n
  {
  }

  lemma FewestSnoc(stats: map<string, Stats>, candidates: seq<string>, n: string)
    requires candidates != [] && n in stats && forall c :: c in candidates ==> c in stats
    ensures (forall c :: c in candidates + [n] ==> c in stats)
    ensures var rest := Fewest(stats, candidates);
      Fewest(stats, candidates + [n]) == if stats[n].uses < stats[rest].uses then n else rest
  {
    assert (candidates + [n])[..|candidates|] == candidates;
  }

  lemma EligibleHaveStats(p: Pool, now: real, k: nat)
    requires Valid(p) && k <= |p.names|
    ensures forall c :: c in Eligible(p, now, k) ==> c in p.stats
  {
    hide Distinct, IsEligible;
  }

  /** Profile j has the fewest uses of the eligible among the first k, and fewer than those before it. */
  ghost predicate FirstFewest(p: Pool, now: real, k: nat, j: nat) {
    && j < k <= |p.names| && p.names[j] in p.stats
    && forall i: nat :: i < k && IsEligible(p, p.names[i], now) ==>
         p.stats[p.names[j]].uses <= p.stats[p.names[i]].uses
         && (i < j ==> p.stats[p.names[j]].uses < p.stats[p.names[i]].uses)
  }

  lemma FirstFewestStep(p: Pool, now: real, k: nat, j: nat)
    requires k < |p.names| && p.names[k] in p.stats && FirstFewest(p, now, k, j)
    ensures IsEligible(p, p.names[k], now) && p.stats[p.names[k]].uses < p.stats[p.names[j]].uses ==>
      FirstFewest(p, now, k + 1, k)
    ensures !IsEligible(p, p.names[k], now) || p.stats[p.names[j]].uses <= p.stats[p.names[k]].uses ==>
      FirstFewest(p, now, k + 1, j)
  {
  }

  lemma OnlyEligible(p: Pool, now: real, k: nat)
    requires k < |p.names| && p.names[k] in p.stats && Eligible(p, now, k) == []
    ensures FirstFewest(p, now, k + 1, k)
  {
    hide IsEligible;
    forall i: nat | i < k ensures !IsEligible(p, p.names[i], now) {
      assert p.names[i] in p.names[..k] && p.names[i] !in Eligible(p, now, k);
    }
  }

  /** Of the first k profiles the eligible one with the fewest uses, and of those the first, is taken. */
  lemma {:induction false} FewestIsFirst(p: Pool, now: real, k: nat) returns (j: nat)
    requires Valid(p) && k <= |p.names| && Eligible(p, now, k) != []
    ensures forall c :: c in Eligible(p, now, k) ==> c in p.stats
    ensures FirstFewest(p, now, k, j) && Fewest(p.stats, Eligible(p, now, k)) == p.names[j]
  {
    hide *;
    if k == 0 {
      NoneEligibleYet(p, now);
      assert false;
    } else {
      var before, n := Eligible(p, now, k - 1), p.names[k - 1];
      EligibleStep(p, now, k - 1);
      EligibleHaveStats(p, now, k);
      EligibleHaveStats(p, now, k - 1);
      NameInStats(p, n);
      if before == [] {
        j := k - 1;
        OnlyEligible(p, now, k - 1);
        FewestOfOne(p.stats, n);
      } else {
        var earlier := FewestIsFirst(p, now, k - 1);
        FirstFewestStep(p, now, k - 1, earlier);
        FewestSnoc(p.stats, before, n);
        InBounds(p, now, k - 1, earlier);
        j := if IsEligible(p, n, now) && p.stats[n].uses < p.stats[p.names[earlier]].uses then k - 1 else earlier;
      }
    }
  }

  lemma InBounds(p: Pool, now: real, k: nat, j: nat)
    requires FirstFewest(p, now, k, j)
    ensures j < k <= |p.names| && p.names[j] in p.stats
  {
  }

  /** Least-used takes a free profile with the fewest uses among the free ones, and of those the first. */
  lemma LeastUsedTakesFewest(p: Pool, now: real, pick: nat, i: nat) returns (j: nat)
    requires Valid(p) && p.policy == LeastUsed && i < |p.names| && p.names[i] in p.stats && Free(p, p.names[i], now)
    ensures j < |p.names| && Acquired(p, now, pick).1 == p.names[j]
    ensures p.names[j] in p.stats && Free(p, p.names[j], now) && p.stats[p.names[j]].uses <= p.stats[p.names[i]].uses
    ensures i < j ==> p.stats[p.names[j]].uses < p.stats[p.names[i]].uses
  {
    hide Valid, IsEligible, Free, Use, Distinct, Eligible;
    CandidatesFacts(p, now);
    FreeIsEligible(p, p.names[i], now);
    AcquireExactly(p, now, pick);
    assert SomeoneFree(p, now);
    j := FewestIsFirst(p, now, |p.names|);
  }
}
