/**
 The sliding-window rate limiter: per key a deque of recent accepted events, pruned on
 every call. It is proved against the full log of everything it ever accepted.
 */
module RateLimiter {
  import opened Common

  /** `log` is every accepted event of a key; the code only keeps `buckets`. */
  datatype Limiter = Limiter(window: real, maxEvents: int, buckets: map<string, seq<real>>, log: map<string, seq<real>>)

  function BucketOf(b: map<string, seq<real>>, key: string): seq<real> {
    if key in b then b[key] else []
  }

  /** Drop events from the front while they are older than the cutoff. */
  function Prune(events: seq<real>, cutoff: real): (r: seq<real>) {
    if events != [] && events[0] < cutoff then Prune(events[1..], cutoff) else events
  }

  function Consumed(l: Limiter, key: string, now: real): (r: (Limiter, bool)) {
    var recent := Prune(BucketOf(l.buckets, key), now - l.window);
    if |recent| >= l.maxEvents then (l.(buckets := l.buckets[key := recent]), false)
    else (l.(buckets := l.buckets[key := recent + [now]], log := l.log[key := BucketOf(l.log, key) + [now]]), true)
  }

  function RemainingAt(l: Limiter, key: string, now: real): (r: (Limiter, int)) {
    var recent := Prune(BucketOf(l.buckets, key), now - l.window);
    (l.(buckets := l.buckets[key := recent]), Max(0, l.maxEvents - |recent|))
  }

  class RateLimiter {
    const window: real
    const maxEvents: int
    var buckets: map<string, seq<real>>
    ghost var log: map<string, seq<real>>

    ghost function Abs(): Limiter
      reads this
    {
      Limiter(window, maxEvents, buckets, log)
    }

    constructor (window: real, maxEvents: int)
      ensures Abs() == Limiter(window, maxEvents, map[], map[])
    {
      this.window, this.maxEvents := window, maxEvents;
      buckets, log := map[], map[];
    }

    method PopOld(key: string, now: real) returns (events: seq<real>)
      modifies this`buckets
      ensures events == Prune(BucketOf(old(buckets), key), now - window)
      ensures buckets == old(buckets)[key := events]
    {
      var cutoff := now - window;
      events := BucketOf(buckets, key);
      while events != [] && events[0] < cutoff
        invariant Prune(events, cutoff) == Prune(BucketOf(old(buckets), key), cutoff)
        decreases |events|
      {
        events := events[1..];
      }
      buckets := buckets[key := events];
    }

    method Consume(key: string, now: real) returns (accepted: bool)
      modifies this
      ensures (Abs(), accepted) == Consumed(old(Abs()), key, now)
    {
      hide Prune;
      var events := PopOld(key, now);
      if |events| >= maxEvents {
        return false;
      }
      buckets := buckets[key := events + [now]];
      assert buckets == old(buckets)[key := events + [now]];
      log := log[key := BucketOf(log, key) + [now]];
      accepted := true;
    }

    method Remaining(key: string, now: real) returns (n: int)
      modifies this
      ensures (Abs(), n) == RemainingAt(old(Abs()), key, now)
    {
      var events := PopOld(key, now);
      n := Max(0, maxEvents - |events|);
    }
  }

  // ------------------------------------------------------------- the log of one key

  predicate Sorted(s: seq<real>) {
    forall i, j :: 0 <= i <= j < |s| ==> s[i] <= s[j]
  }

  predicate AllBefore(s: seq<real>, n: int, cutoff: real) {
    forall i :: 0 <= i < n && i < |s| ==> s[i] < cutoff
  }

  predicate AllFrom(s: seq<real>, cutoff: real) {
    forall i :: 0 <= i < |s| ==> s[i] >= cutoff
  }

  predicate AllUpTo(s: seq<real>, now: real) {
    forall i :: 0 <= i < |s| ==> s[i] <= now
  }

  /** The bucket is the end of the log, and everything cut off is older than the cutoff. */
  predicate KeepsTail(log: seq<real>, bucket: seq<real>, cutoff: real) {
    |bucket| <= |log| && bucket == log[|log| - |bucket|..] && AllBefore(log, |log| - |bucket|, cutoff)
  }

  /** Two accepted events n apart in the log are more than a window apart in time. */
  predicate Spaced(log: seq<real>, window: real, n: int) {
    && (n <= 0 ==> log == [])
    && forall i, j :: 0 <= i && i + n <= j < |log| && 0 < n ==> log[j] - log[i] > window
  }

  /** What holds of one key at time `now`. */
  predicate KeyInv(log: seq<real>, bucket: seq<real>, window: real, n: int, now: real) {
    Sorted(log) && AllUpTo(log, now) && KeepsTail(log, bucket, now - window) && Spaced(log, window, n)
  }

  lemma {:induction false} PruneTail(log: seq<real>, bucket: seq<real>, cutoff: real)
    requires Sorted(log) && KeepsTail(log, bucket, cutoff)
    ensures KeepsTail(log, Prune(bucket, cutoff), cutoff) && AllFrom(Prune(bucket, cutoff), cutoff)
    decreases |bucket|
  {
    var d := |log| - |bucket|;
    if bucket != [] && bucket[0] < cutoff {
      assert bucket[0] == log[d] && bucket[1..] == log[d + 1..];
      PruneTail(log, bucket[1..], cutoff);
    } else {
      forall i | 0 <= i < |bucket| ensures bucket[i] >= cutoff {
        assert bucket[i] == log[d + i] && bucket[0] == log[d];
      }
    }
  }

  lemma CutoffMoves(log: seq<real>, bucket: seq<real>, cutoff: real, later: real)
    requires KeepsTail(log, bucket, cutoff) && cutoff <= later
    ensures KeepsTail(log, bucket, later)
  {
  }

  /** How many of the first k events of a log lie in the closed interval [from, to]. */
  function CountIn(log: seq<real>, k: nat, from: real, to: real): (n: nat)
    requires k <= |log|
  {
    if k == 0 then 0 else CountIn(log, k - 1, from, to) + if from <= log[k - 1] <= to then 1 else 0
  }

  /** In a sorted log the events of an interval are one block. */
  lemma {:induction false} CountIsBlock(log: seq<real>, k: nat, from: real, to: real) returns (a: nat, b: nat)
    requires Sorted(log) && k <= |log|
    ensures a <= b <= k && CountIn(log, k, from, to) == b - a
    ensures forall i :: 0 <= i < k ==> (from <= log[i] <= to <==> a <= i < b)
  {
    a, b := 0, 0;
    if k > 0 {
      a, b := CountIsBlock(log, k - 1, from, to);
      if from <= log[k - 1] <= to {
        if a == b {
          a, b := k - 1, k;
        } else {
          assert log[a] <= log[b] <= log[k - 1];
          b := k;
        }
      }
    }
  }

  lemma {:induction false} CountTail(log: seq<real>, k: nat, d: nat, from: real, to: real)
    requires k <= |log| && AllBefore(log, d, from)
    requires forall i :: d <= i < |log| ==> from <= log[i] <= to
    ensures CountIn(log, k, from, to) == if k <= d then 0 else k - d
  {
    if k > 0 {
      CountTail(log, k - 1, d, from, to);
    }
  }

  /** Accepted events of a key in a closed interval. */
  function Accepted(l: Limiter, key: string, from: real, to: real): (n: nat) {
    CountIn(BucketOf(l.log, key), |BucketOf(l.log, key)|, from, to)
  }

  predicate Inv(l: Limiter, key: string, now: real) {
    KeyInv(BucketOf(l.log, key), BucketOf(l.buckets, key), l.window, l.maxEvents, now)
  }

  lemma PruneKeepsKey(log: seq<real>, bucket: seq<real>, window: real, n: int, last: real, now: real)
    requires KeyInv(log, bucket, window, n, last) && last <= now
    ensures KeyInv(log, Prune(bucket, now - window), window, n, now)
    ensures AllFrom(Prune(bucket, now - window), now - window)
    ensures |Prune(bucket, now - window)| == CountIn(log, |log|, now - window, now)
  {
    hide Prune, KeepsTail, Spaced, Sorted, CountIn;
    CutoffMoves(log, bucket, last - window, now - window);
    PruneTail(log, bucket, now - window);
    TailCounted(log, Prune(bucket, now - window), now - window, now);
  }

  lemma TailCounted(log: seq<real>, recent: seq<real>, cutoff: real, now: real)
    requires KeepsTail(log, recent, cutoff) && AllFrom(recent, cutoff) && AllUpTo(log, now)
    ensures |recent| == CountIn(log, |log|, cutoff, now)
  {
    var d := |log| - |recent|;
    forall i | d <= i < |log| ensures cutoff <= log[i] <= now {
      assert log[i] == recent[i - d];
    }
    CountTail(log, |log|, d, cutoff, now);
  }

  lemma AcceptKeepsKey(log: seq<real>, recent: seq<real>, window: real, n: int, now: real)
    requires KeyInv(log, recent, window, n, now) && |recent| < n
    ensures KeyInv(log + [now], recent + [now], window, n, now)
  {
    hide KeepsTail, Spaced;
    AcceptKeepsSpacing(log, recent, now, window, n);
    AcceptKeepsTail(log, recent, now, now - window);
  }

  lemma AcceptKeepsSpacing(log: seq<real>, recent: seq<real>, now: real, window: real, n: int)
    requires Spaced(log, window, n) && KeepsTail(log, recent, now - window) && |recent| < n
    ensures Spaced(log + [now], window, n)
  {
    var more := log + [now];
    forall i, j | 0 <= i && i + n <= j < |more| ensures more[j] - more[i] > window {
      if j == |log| {
        assert more[i] == log[i] < now - window;
      } else {
        assert more[i] == log[i] && more[j] == log[j];
      }
    }
  }

  lemma AcceptKeepsTail(log: seq<real>, recent: seq<real>, now: real, cutoff: real)
    requires KeepsTail(log, recent, cutoff)
    ensures KeepsTail(log + [now], recent + [now], cutoff)
  {
    var d := |log| - |recent|;
    assert (log + [now])[d..] == log[d..] + [now];
  }

  // ------------------------------------------------------------- one call

  /** A consume is rejected exactly when the closed window ending now already holds
      max_events accepted events, and remaining is what is left of them. */
  lemma RejectedExactly(l: Limiter, key: string, last: real, now: real)
    requires Inv(l, key, last) && last <= now
    ensures Consumed(l, key, now).1 <==> Accepted(l, key, now - l.window, now) < l.maxEvents
    ensures RemainingAt(l, key, now).1 == Max(0, l.maxEvents - Accepted(l, key, now - l.window, now))
  {
    hide Prune, KeyInv, CountIn;
    PruneKeepsKey(BucketOf(l.log, key), BucketOf(l.buckets, key), l.window, l.maxEvents, last, now);
  }

  lemma CallKeepsInv(l: Limiter, call: Call, key: string, last: real)
    requires Inv(l, key, last) && last <= call.at
    ensures Inv(Step(l, call), key, call.at)
    ensures Step(l, call).window == l.window && Step(l, call).maxEvents == l.maxEvents
  {
    hide Prune, KeyInv;
    var log, bucket := BucketOf(l.log, key), BucketOf(l.buckets, key);
    PruneKeepsKey(log, bucket, l.window, l.maxEvents, last, call.at);
    if call.key != key {
      TimePasses(log, bucket, l.window, l.maxEvents, last, call.at);
    } else if call.Consuming? {
      var recent := Prune(bucket, call.at - l.window);
      if |recent| < l.maxEvents {
        AcceptKeepsKey(log, recent, l.window, l.maxEvents, call.at);
      }
    }
  }

  lemma TimePasses(log: seq<real>, bucket: seq<real>, window: real, n: int, last: real, now: real)
    requires KeyInv(log, bucket, window, n, last) && last <= now
    ensures KeyInv(log, bucket, window, n, now)
  {
    hide KeepsTail, Spaced, Sorted;
    CutoffMoves(log, bucket, last - window, now - window);
  }

  // ------------------------------------------------------------- whole runs

  datatype Call = Consuming(key: string, at: real) | Asking(key: string, at: real)

  function Step(l: Limiter, call: Call): (r: Limiter) {
    match call
    case Consuming(key, at) => Consumed(l, key, at).0
    case Asking(key, at) => RemainingAt(l, key, at).0
  }

  /** The limiter after the first k calls. */
  function Run(l: Limiter, calls: seq<Call>, k: nat): (r: Limiter)
    requires k <= |calls|
  {
    if k == 0 then l else Step(Run(l, calls, k - 1), calls[k - 1])
  }

  predicate Monotone(calls: seq<Call>) {
    forall i, j :: 0 <= i <= j < |calls| ==> calls[i].at <= calls[j].at
  }

  function New(window: real, maxEvents: int): Limiter {
    Limiter(window, maxEvents, map[], map[])
  }

  /** Over every run with a monotone clock the bucket is the tail of the log, nothing it dropped
      is inside the window, and accepted events max_events apart are more than a window apart. */
  lemma {:induction false} RunInv(window: real, maxEvents: int, calls: seq<Call>, k: nat, key: string)
    requires Monotone(calls) && 0 < k <= |calls|
    ensures var l := Run(New(window, maxEvents), calls, k);
      Inv(l, key, calls[k - 1].at) && l.window == window && l.maxEvents == maxEvents
  {
    hide Inv, Step;
    if k == 1 {
      EmptyInv(window, maxEvents, calls[0].at, key);
      assert Run(New(window, maxEvents), calls, 0) == New(window, maxEvents);
      CallKeepsInv(New(window, maxEvents), calls[0], key, calls[0].at);
    } else {
      RunInv(window, maxEvents, calls, k - 1, key);
      CallKeepsInv(Run(New(window, maxEvents), calls, k - 1), calls[k - 1], key, calls[k - 2].at);
    }
  }

  lemma EmptyInv(window: real, maxEvents: int, start: real, key: string)
    ensures Inv(New(window, maxEvents), key, start)
  {
  }

  /** Over any run with a monotone clock, every closed interval as long as the window holds at
      most max_events accepted events of a key. */
  lemma SlidingWindow(window: real, maxEvents: int, calls: seq<Call>, key: string, from: real)
    requires Monotone(calls)
    ensures Accepted(Run(New(window, maxEvents), calls, |calls|), key, from, from + window) <= Max(0, maxEvents)
  {
    hide Run, KeepsTail, CountIn;
    if calls == [] {
      NothingAccepted(window, maxEvents, calls, key, from);
    } else {
      RunInv(window, maxEvents, calls, |calls|, key);
      var log := BucketOf(Run(New(window, maxEvents), calls, |calls|).log, key);
      var a, b := CountIsBlock(log, |log|, from, from + window);
      NoBlockLonger(log, a, b, window, maxEvents, from);
    }
  }

  lemma SpacedApart(log: seq<real>, i: nat, window: real, n: int)
    requires 0 < n && i + n < |log| && Spaced(log, window, n)
    ensures log[i + n] - log[i] > window
  {
  }

  lemma NoBlockLonger(log: seq<real>, a: nat, b: nat, window: real, n: int, from: real)
    requires a <= b <= |log| && Spaced(log, window, n) && Sorted(log)
    requires forall i :: a <= i < b ==> from <= log[i] <= from + window
    ensures b - a <= Max(0, n)
  {
    if n > 0 && a + n < b {
      SpacedApart(log, a, window, n);
    }
  }

  lemma NothingAccepted(window: real, maxEvents: int, calls: seq<Call>, key: string, from: real)
    ensures Accepted(Run(New(window, maxEvents), calls, 0), key, from, from + window) == 0
  {
  }

  // ------------------------------------------------------------- remaining

  /** k calls of consume at the same instant, and how many of them are accepted. */
  function Burst(l: Limiter, key: string, now: real, k: nat): (r: (Limiter, nat)) {
    if k == 0 then (l, 0)
    else
      var (before, n) := Burst(l, key, now, k - 1);
      var (after, ok) := Consumed(before, key, now);
      (after, if ok then n + 1 else n)
  }

  lemma PruneRecent(events: seq<real>, cutoff: real)
    requires AllFrom(events, cutoff)
    ensures Prune(events, cutoff) == events
  {
  }

  /** The pruned bucket of a key at time `now`. */
  function RecentOf(l: Limiter, key: string, now: real): (r: seq<real>) {
    Prune(BucketOf(l.buckets, key), now - l.window)
  }

  lemma ConsumeOnce(l: Limiter, key: string, now: real)
    requires l.window >= 0.0 && AllFrom(RecentOf(l, key, now), now - l.window)
    ensures var (after, ok) := Consumed(l, key, now);
      && after.window == l.window && after.maxEvents == l.maxEvents
      && RecentOf(after, key, now) == RecentOf(l, key, now) + (if ok then [now] else [])
      && AllFrom(RecentOf(after, key, now), now - l.window)
      && (ok <==> |RecentOf(l, key, now)| < l.maxEvents)
  {
    hide Prune;
    PruneRecent(RecentOf(l, key, now), now - l.window);
    PruneRecent(RecentOf(l, key, now) + [now], now - l.window);
  }

  lemma {:induction false} BurstCounts(l: Limiter, key: string, now: real, k: nat)
    requires l.window >= 0.0 && AllFrom(RecentOf(l, key, now), now - l.window)
    ensures var (after, n) := Burst(l, key, now, k);
      && n == Min(k, Max(0, l.maxEvents - |RecentOf(l, key, now)|))
      && after.window == l.window && after.maxEvents == l.maxEvents
      && AllFrom(RecentOf(after, key, now), now - l.window)
      && |RecentOf(after, key, now)| == |RecentOf(l, key, now)| + n
  {
    hide RecentOf, Consumed, AllFrom;
    if k > 0 {
      BurstCounts(l, key, now, k - 1);
      ConsumeOnce(Burst(l, key, now, k - 1).0, key, now);
    }
  }

  lemma {:induction false} PruneAll(events: seq<real>, cutoff: real)
    requires AllBefore(events, |events|, cutoff)
    ensures Prune(events, cutoff) == []
  {
    if events != [] {
      PruneAll(events[1..], cutoff);
    }
  }

  /** With a negative window even the event just accepted is pruned, and nothing is ever refused. */
  lemma {:induction false} NegativeWindowForgets(l: Limiter, key: string, now: real, k: nat)
    requires l.window < 0.0 && l.maxEvents > 0
    requires AllBefore(BucketOf(l.buckets, key), |BucketOf(l.buckets, key)|, now - l.window)
    ensures var (after, n) := Burst(l, key, now, k);
      && n == k && after.window == l.window && after.maxEvents == l.maxEvents
      && AllBefore(BucketOf(after.buckets, key), |BucketOf(after.buckets, key)|, now - l.window)
  {
    hide Prune;
    if k > 0 {
      NegativeWindowForgets(l, key, now, k - 1);
      PruneAll(BucketOf(Burst(l, key, now, k - 1).0.buckets, key), now - l.window);
    }
  }

  lemma TailUpTo(log: seq<real>, bucket: seq<real>, now: real, cutoff: real, later: real)
    requires KeepsTail(log, bucket, cutoff) && AllUpTo(log, now) && now < later
    ensures AllBefore(bucket, |bucket|, later)
  {
    var d := |log| - |bucket|;
    forall i | 0 <= i < |bucket| ensures bucket[i] < later {
      assert bucket[i] == log[d + i];
    }
  }

  /** remaining is how many more consumes would be accepted at that instant, for every such
      number of calls, exactly when the window is not negative (or nothing is ever accepted). */
  lemma RemainingIsExact(l: Limiter, key: string, last: real, now: real)
    requires Inv(l, key, last) && last <= now
    ensures (forall k: nat :: Burst(l, key, now, k).1 == Min(k, RemainingAt(l, key, now).1))
            <==> l.window >= 0.0 || l.maxEvents <= 0
  {
    hide Prune, AllFrom, AllBefore, KeepsTail, Burst;
    var left := RemainingAt(l, key, now).1;
    PruneKeepsKey(BucketOf(l.log, key), BucketOf(l.buckets, key), l.window, l.maxEvents, last, now);
    if l.window >= 0.0 || l.maxEvents <= 0 {
      forall k: nat ensures Burst(l, key, now, k).1 == Min(k, left) {
        if l.window >= 0.0 {
          BurstCounts(l, key, now, k);
        } else {
          NothingFits(l, key, now, k);
        }
      }
    } else {
      TailUpTo(BucketOf(l.log, key), BucketOf(l.buckets, key), last, last - l.window, now - l.window);
      NegativeWindowForgets(l, key, now, left + 1);
      assert Burst(l, key, now, left + 1).1 != Min(left + 1, left);
    }
  }

  lemma {:induction false} NothingFits(l: Limiter, key: string, now: real, k: nat)
    requires l.maxEvents <= 0
    ensures Burst(l, key, now, k).1 == 0 && Burst(l, key, now, k).0.maxEvents == l.maxEvents
  {
    hide Prune;
    if k > 0 {
      NothingFits(l, key, now, k - 1);
    }
  }
}
