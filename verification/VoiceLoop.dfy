/**
 The realtime voice loop: playback, barge-in and latency accounting, driven by the events of a
 duplex session. Every event carries what the outside answers to it: the clock's reading and
 whether the sink, the transcript callback or the cancel call raises.
 */
module VoiceLoop {
  import opened Common

  datatype Event =
    | AudioDelta(data: string, at: real, sinkRaises: bool)
    | SpeechStarted(cancelRaises: bool)
    | SpeechStopped(at: real)
    | ResponseDone
    | TranscriptDelta(callbackRaises: bool)
    | SessionError
    | OtherEvent

  datatype Outcome = GoesOn | Stops | Raises

  /** The loop's fields and its player's, plus what the sink and the session have seen. */
  datatype State = State(
    speaking: bool, stoppedAt: Option<real>, bargeIns: nat, responses: nat, latency: Option<real>,
    playing: bool, sink: seq<string>, cancels: nat)

  const Fresh: State := State(false, None, 0, 0, None, false, [], 0)

  function OnAudio(s: State, e: Event): (r: (State, Outcome))
    requires e.AudioDelta?
  {
    var timed := if s.stoppedAt.None? then s
                 else s.(stoppedAt := None, latency := Some((e.at - s.stoppedAt.value) * 1000.0));
    if e.sinkRaises then (timed, Raises)
    else (timed.(sink := s.sink + [e.data], playing := true, speaking := true), GoesOn)
  }

  function MaybeBargeIn(s: State, e: Event): (r: (State, Outcome))
    requires e.SpeechStarted?
  {
    if !(s.speaking && s.playing) then (s, GoesOn)
    else
      var counted := s.(bargeIns := s.bargeIns + 1, cancels := s.cancels + 1);
      if e.cancelRaises then (counted, Raises) else (counted.(playing := false, speaking := false), GoesOn)
  }

  function Handled(s: State, e: Event): (r: (State, Outcome)) {
    match e
    case AudioDelta(_, _, _) => OnAudio(s, e)
    case SpeechStarted(_) => MaybeBargeIn(s, e)
    case SpeechStopped(at) => (s.(stoppedAt := Some(at)), GoesOn)
    case ResponseDone => (s.(speaking := false, responses := s.responses + 1), GoesOn)
    case TranscriptDelta(callbackRaises) => (s, if callbackRaises then Raises else GoesOn)
    case SessionError => (s, Stops)
    case OtherEvent => (s, GoesOn)
  }

  /** The state after the first k events, each of them handled. */
  function After(s: State, events: seq<Event>, k: nat): (r: State)
    requires k <= |events|
  {
    if k == 0 then s else Handled(After(s, events, k - 1), events[k - 1]).0
  }

  function OutcomeAt(s: State, events: seq<Event>, i: nat): (r: Outcome)
    requires i < |events|
  {
    Handled(After(s, events, i), events[i]).1
  }

  /** A run handles exactly n events: it went on after all of them but the last, and stopped there
      only if the stream ended or the last one said so. */
  ghost predicate RunsFor(s: State, events: seq<Event>, n: nat) {
    && n <= |events|
    && (forall i: nat :: i + 1 < n ==> OutcomeAt(s, events, i) == GoesOn)
    && (n < |events| ==> n > 0 && OutcomeAt(s, events, n - 1) != GoesOn)
  }

  class BufferedAudioPlayer {
    var playing: bool
    ghost var sink: seq<string>

    constructor ()
      ensures !playing && sink == []
    {
      playing, sink := false, [];
    }

    method Play(chunk: string, sinkRaises: bool) returns (raised: bool)
      modifies this
      ensures raised == sinkRaises
      ensures playing == (!raised || old(playing)) && sink == if raised then old(sink) else old(sink) + [chunk]
    {
      raised := sinkRaises;
      if !raised {
        sink := sink + [chunk];
        playing := true;
      }
    }

    method Stop()
      modifies this
      ensures !playing && sink == old(sink)
    {
      playing := false;
    }
  }

  class RealtimeVoiceLoop {
    const player: BufferedAudioPlayer
    var speaking: bool
    var stoppedAt: Option<real>
    var bargeIns: nat
    var responses: nat
    var latency: Option<real>
    ghost var cancels: nat

    ghost function Abs(): State
      reads this, player
    {
      State(speaking, stoppedAt, bargeIns, responses, latency, player.playing, player.sink, cancels)
    }

    constructor (player: BufferedAudioPlayer)
      ensures this.player == player
      ensures Abs() == Fresh.(playing := player.playing, sink := player.sink)
    {
      this.player := player;
      speaking, stoppedAt, bargeIns, responses, latency, cancels := false, None, 0, 0, None, 0;
    }

    method HandleAudio(e: Event) returns (outcome: Outcome)
      requires e.AudioDelta?
      modifies this, player
      ensures (Abs(), outcome) == OnAudio(old(Abs()), e)
    {
      if stoppedAt.Some? {
        latency := Some((e.at - stoppedAt.value) * 1000.0);
        stoppedAt := None;
      }
      var raised := player.Play(e.data, e.sinkRaises);
      if raised {
        return Raises;
      }
      speaking := true;
      outcome := GoesOn;
    }

    method BargeIn(e: Event) returns (outcome: Outcome)
      requires e.SpeechStarted?
      modifies this, player
      ensures (Abs(), outcome) == MaybeBargeIn(old(Abs()), e)
    {
      if !(speaking && player.playing) {
        return GoesOn;
      }
      bargeIns := bargeIns + 1;
      cancels := cancels + 1;
      if e.cancelRaises {
        return Raises;
      }
      player.Stop();
      speaking := false;
      outcome := GoesOn;
    }

    method Handle(e: Event) returns (outcome: Outcome)
      modifies this, player
      ensures (Abs(), outcome) == Handled(old(Abs()), e)
    {
      outcome := GoesOn;
      match e
      case AudioDelta(_, _, _) => outcome := HandleAudio(e);
      case SpeechStarted(_) => outcome := BargeIn(e);
      case SpeechStopped(at) => stoppedAt := Some(at);
      case ResponseDone => speaking, responses := false, responses + 1;
      case TranscriptDelta(callbackRaises) => outcome := if callbackRaises then Raises else GoesOn;
      case SessionError => outcome := Stops;
      case OtherEvent =>
    }

    /** `n` is how many events were taken from the stream; playback is off on every exit. */
    method Run(events: seq<Event>) returns (ghost n: nat, raised: bool)
      modifies this, player
      ensures RunsFor(old(Abs()), events, n)
      ensures Abs() == After(old(Abs()), events, n).(playing := false)
      ensures raised <==> n > 0 && OutcomeAt(old(Abs()), events, n - 1) == Raises
    {
      hide Handled;
      var i, outcome := 0, GoesOn;
      while i < |events| && outcome == GoesOn
        invariant 0 <= i <= |events| && Abs() == After(old(Abs()), events, i)
        invariant forall j: nat :: j + 1 < i ==> OutcomeAt(old(Abs()), events, j) == GoesOn
        invariant i > 0 ==> outcome == OutcomeAt(old(Abs()), events, i - 1)
        invariant i == 0 ==> outcome == GoesOn
        decreases |events| - i
      {
        outcome := Handle(events[i]);
        i := i + 1;
      }
      n := i;
      if player.playing {
        player.Stop();
      }
      raised := outcome == Raises;
    }
  }

  // ------------------------------------------------------------- the trace

  /** The latest of the first k events that satisfies p, or -1. */
  function Last(events: seq<Event>, k: nat, p: Event -> bool): (r: int)
    requires k <= |events|
    ensures -1 <= r < k && (r >= 0 ==> p(events[r]))
    ensures forall j :: r < j < k ==> !p(events[j])
  {
    if k == 0 then -1 else if p(events[k - 1]) then k - 1 else Last(events, k - 1, p)
  }

  function CountUpTo(events: seq<Event>, k: nat, p: Event -> bool): (n: nat)
    requires k <= |events|
  {
    if k == 0 then 0 else CountUpTo(events, k - 1, p) + if p(events[k - 1]) then 1 else 0
  }

  const IsAudio := (e: Event) => e.AudioDelta?
  const IsSpeechStopped := (e: Event) => e.SpeechStopped?
  const IsResponseDone := (e: Event) => e.ResponseDone?
  const Silences := (e: Event) => e.ResponseDone? || e.SpeechStarted?

  /** Before event i some audio was played with no response end and no user speech since. */
  predicate AudibleAt(events: seq<Event>, i: nat)
    requires i <= |events|
  {
    Last(events, i, IsAudio) > Last(events, i, Silences)
  }

  predicate BargesAt(events: seq<Event>, i: nat)
    requires i < |events|
  {
    events[i].SpeechStarted? && AudibleAt(events, i)
  }

  function CountBarges(events: seq<Event>, k: nat): (n: nat)
    requires k <= |events|
  {
    if k == 0 then 0 else CountBarges(events, k - 1) + if BargesAt(events, k - 1) then 1 else 0
  }

  /** The user stopped speaking and no audio has come since. */
  predicate Waiting(events: seq<Event>, i: nat)
    requires i <= |events|
  {
    Last(events, i, IsSpeechStopped) > Last(events, i, IsAudio)
  }

  /** The latest audio among the first k events that ended a wait, or -1. */
  function LastAnswer(events: seq<Event>, k: nat): (r: int)
    requires k <= |events|
    ensures -1 <= r < k && (r >= 0 ==> events[r].AudioDelta? && Waiting(events, r))
    ensures forall j :: r < j < k ==> !(events[j].AudioDelta? && Waiting(events, j))
  {
    if k == 0 then -1
    else if events[k - 1].AudioDelta? && Waiting(events, k - 1) then k - 1
    else LastAnswer(events, k - 1)
  }

  function AtOf(e: Event): real {
    if e.AudioDelta? || e.SpeechStopped? then e.at else 0.0
  }

  function LatencyAt(events: seq<Event>, i: nat): (ms: real)
    requires i < |events| && Waiting(events, i)
  {
    (AtOf(events[i]) - AtOf(events[Last(events, i, IsSpeechStopped)])) * 1000.0
  }

  /** All the sink was given. */
  function Sunk(events: seq<Event>, k: nat): (r: seq<string>)
    requires k <= |events|
  {
    if k == 0 then []
    else Sunk(events, k - 1)
         + if events[k - 1].AudioDelta? && !events[k - 1].sinkRaises then [events[k - 1].data] else []
  }

  /** While the run goes on, the assistant counts as speaking exactly when it is audible, and
      then the player is on. */
  lemma {:induction false} SpeakingIsAudible(events: seq<Event>, k: nat)
    requires k <= |events| && forall i: nat :: i < k ==> OutcomeAt(Fresh, events, i) == GoesOn
    ensures After(Fresh, events, k).speaking <==> AudibleAt(events, k)
    ensures After(Fresh, events, k).speaking ==> After(Fresh, events, k).playing
  {
    if k > 0 {
      SpeakingIsAudible(events, k - 1);
      assert OutcomeAt(Fresh, events, k - 1) == GoesOn;
    }
  }

  /** barge_ins and the calls of cancel_response are both the number of speech starts that found
      audio playing. */
  lemma {:induction false} BargeInsCounted(events: seq<Event>, k: nat)
    requires k <= |events| && forall i: nat :: i + 1 < k ==> OutcomeAt(Fresh, events, i) == GoesOn
    ensures After(Fresh, events, k).bargeIns == CountBarges(events, k) == After(Fresh, events, k).cancels
  {
    hide AudibleAt;
    if k > 0 {
      BargeInsCounted(events, k - 1);
      SpeakingIsAudible(events, k - 1);
    }
  }

  /** The latest of the first k events that barged in, or -1. */
  function LastBarge(events: seq<Event>, k: nat): (r: int)
    requires k <= |events|
    ensures -1 <= r < k && (r >= 0 ==> BargesAt(events, r))
    ensures forall j :: r < j < k ==> !BargesAt(events, j)
  {
    if k == 0 then -1 else if BargesAt(events, k - 1) then k - 1 else LastBarge(events, k - 1)
  }

  /** While a run goes on the player is on exactly when some audio came after the latest barge-in;
      a barge-in stops it at once. */
  lemma {:induction false} PlayingExactly(events: seq<Event>, k: nat)
    requires k <= |events| && forall i: nat :: i < k ==> OutcomeAt(Fresh, events, i) == GoesOn
    ensures After(Fresh, events, k).playing <==> Last(events, k, IsAudio) > LastBarge(events, k)
    ensures k > 0 && BargesAt(events, k - 1) ==> !After(Fresh, events, k).playing && !After(Fresh, events, k).speaking
  {
    hide AudibleAt;
    if k > 0 {
      PlayingExactly(events, k - 1);
      SpeakingIsAudible(events, k - 1);
      assert OutcomeAt(Fresh, events, k - 1) == GoesOn;
    }
  }

  lemma {:induction false} ResponsesCounted(events: seq<Event>, k: nat)
    requires k <= |events|
    ensures After(Fresh, events, k).responses == CountUpTo(events, k, IsResponseDone)
    ensures After(Fresh, events, k).sink == Sunk(events, k)
  {
    if k > 0 {
      ResponsesCounted(events, k - 1);
    }
  }

  lemma {:induction false} StopwatchRuns(events: seq<Event>, k: nat)
    requires k <= |events|
    ensures After(Fresh, events, k).stoppedAt
            == if Waiting(events, k) then Some(AtOf(events[Last(events, k, IsSpeechStopped)])) else None
  {
    if k > 0 {
      StopwatchRuns(events, k - 1);
    }
  }

  /** The last latency is from the latest end of speech to the first audio after it. */
  lemma {:induction false} LatencyMeasured(events: seq<Event>, k: nat)
    requires k <= |events|
    ensures After(Fresh, events, k).latency
            == var i := LastAnswer(events, k); if i < 0 then None else Some(LatencyAt(events, i))
  {
    hide Waiting;
    if k > 0 {
      LatencyMeasured(events, k - 1);
      StopwatchRuns(events, k - 1);
    }
  }

  /** Event i ends the run, said of the events alone. */
  predicate EndsAt(events: seq<Event>, i: nat)
    requires i < |events|
  {
    match events[i]
    case AudioDelta(_, _, sinkRaises) => sinkRaises
    case SpeechStarted(cancelRaises) => cancelRaises && AudibleAt(events, i)
    case TranscriptDelta(callbackRaises) => callbackRaises
    case SessionError => true
    case _ => false
  }

  /** A run takes events up to the first that ends it, or all of them. */
  lemma {:induction false} RunEndsFirst(events: seq<Event>, n: nat)
    requires RunsFor(Fresh, events, n)
    ensures forall i: nat :: i + 1 < n ==> !EndsAt(events, i)
    ensures n < |events| ==> n > 0 && EndsAt(events, n - 1)
  {
    hide AudibleAt;
    forall i: nat | i < n ensures EndsAt(events, i) <==> OutcomeAt(Fresh, events, i) != GoesOn {
      SpeakingIsAudible(events, i);
    }
  }

  /** The whole trace of one run of a new loop over a new player. */
  lemma VoiceTrace(events: seq<Event>, n: nat)
    requires RunsFor(Fresh, events, n)
    ensures var s := After(Fresh, events, n);
      && s.bargeIns == CountBarges(events, n) == s.cancels
      && s.responses == CountUpTo(events, n, IsResponseDone)
      && s.sink == Sunk(events, n)
      && s.latency == (var i := LastAnswer(events, n); if i < 0 then None else Some(LatencyAt(events, i)))
    ensures forall k: nat :: k < n || (k == n && (n == 0 || OutcomeAt(Fresh, events, n - 1) == GoesOn)) ==>
      (After(Fresh, events, k).playing <==> Last(events, k, IsAudio) > LastBarge(events, k))
    ensures forall i: nat :: i + 1 < n ==> !EndsAt(events, i)
    ensures n < |events| ==> n > 0 && EndsAt(events, n - 1)
  {
    hide After, EndsAt, LastBarge, CountBarges, Sunk, LastAnswer, Waiting, LatencyAt, OutcomeAt;
    BargeInsCounted(events, n);
    ResponsesCounted(events, n);
    LatencyMeasured(events, n);
    RunEndsFirst(events, n);
    forall k: nat | k < n || (k == n && (n == 0 || OutcomeAt(Fresh, events, n - 1) == GoesOn))
      ensures After(Fresh, events, k).playing <==> Last(events, k, IsAudio) > LastBarge(events, k)
    {
      PlayingExactly(events, k);
    }
  }
}
