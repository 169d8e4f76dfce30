/** Whole runs of the watchdog: what fires, why it fires, and how often. */
module WatchdogRuns {
  import opened Prelude
  import opened Watchdog

  // ---------- runs ----------

  /** Everything that can touch one device's runtime between two restarts. */
  datatype Event =
    | Poll(frame: Frame)
    | UserOff(at: real)
    | IntentAdded(token: nat)
    | IntentDiscarded(token: nat)
    | Dismiss

  function Apply(s: State, e: Event): State {
    match e
    case Poll(f) => Tick(s, f).0
    case UserOff(at) => s.(lastUserOff := at)
    case IntentAdded(t) => s.(pendingOff := s.pendingOff + {t})
    case IntentDiscarded(t) => s.(pendingOff := s.pendingOff - {t})
    case Dismiss => Dismissed(s)
  }

  /** The state after the first `n` events of a run that starts fresh. */
  function At(es: seq<Event>, n: nat): State
    requires n <= |es|
  {
    if n == 0 then FRESH else Apply(At(es, n - 1), es[n - 1])
  }

  /** The event is a tick that answers "cycle": a power cut. */
  predicate CutsNow(s: State, e: Event) {
    e.Poll? && Tick(s, e.frame).1 == Cycle
  }

  predicate Cuts(es: seq<Event>, i: nat)
    requires i < |es|
  {
    CutsNow(At(es, i), es[i])
  }

  /** The time of the latest tick among the first `n` events. */
  function Clock(es: seq<Event>, n: nat): real
    requires n <= |es|
  {
    if n == 0 then 0.0
    else if es[n - 1].Poll? then es[n - 1].frame.now
    else Clock(es, n - 1)
  }

  /** Ticks carry positive times that never go back. */
  ghost predicate GoodClock(es: seq<Event>) {
    forall i | 0 <= i < |es| && es[i].Poll? :: es[i].frame.now > 0.0 && es[i].frame.now >= Clock(es, i)
  }

  ghost predicate NoDismiss(es: seq<Event>) {
    forall i | 0 <= i < |es| :: !es[i].Dismiss?
  }

  // ---------- what the detector sees ----------

  datatype Sight = High | Low | Mid | PortOff | Graced | Quiet | Cleared

  function Classify(s: State, e: Event): Sight {
    match e
    case Dismiss => Cleared
    case Poll(f) =>
      if !f.acOn then PortOff
      else if GraceActive(s, f) then Graced
      else if Untracked(s, f) then Quiet
      else if f.outputW.value >= OUTPUT_BASELINE_W then High
      else if f.outputW.value <= f.floorW then Low
      else Mid
    case _ => Quiet
  }

  function Seen(es: seq<Event>, i: nat): Sight
    requires i < |es|
  {
    Classify(At(es, i), es[i])
  }

  /** The part of the state that decides whether an episode is latched. */
  datatype Detector = Detector(lastHigh: real, firstLow: real, lows: nat, trip: bool)

  function DetectorOf(s: State): Detector {
    Detector(s.lastHigh, s.firstLow, s.lowSamples, s.tripActive)
  }

  predicate Arms(d: Detector, now: real) {
    && d.lows >= COLLAPSE_MIN_SAMPLES
    && d.firstLow > 0.0
    && now - d.firstLow >= COLLAPSE_MIN_DURATION_S
    && d.lastHigh > 0.0
    && d.firstLow - d.lastHigh <= ABRUPT_DROP_MAX_S
  }

  function Advance(d: Detector, sight: Sight, now: real): Detector {
    match sight
    case Quiet => d
    case Graced => d.(firstLow := 0.0, lows := 0)
    case High => Detector(now, 0.0, 0, false)
    case Mid => Detector(d.lastHigh, 0.0, 0, false)
    case PortOff => Detector(d.lastHigh, 0.0, 0, false)
    case Cleared => Detector(d.lastHigh, 0.0, 0, false)
    case Low =>
      var low := d.(firstLow := if d.firstLow == 0.0 then now else d.firstLow, lows := d.lows + 1);
      low.(trip := d.trip || Arms(low, now))
  }

  /** The detector moves by what it sees alone: pacing, caps and the badge never feed back into it. */
  lemma DetectorAbstracts(s: State, e: Event, now: real)
    requires e.Poll? ==> now == e.frame.now
    ensures DetectorOf(Apply(s, e)) == Advance(DetectorOf(s), Classify(s, e), now)
  {
  }

  function Det(es: seq<Event>, n: nat): Detector
    requires n <= |es|
  {
    DetectorOf(At(es, n))
  }

  // ---------- how often power is cut ----------

  /** Power cuts among the first `n` events, counted from the latest accepted high frame. */
  function CutsSinceHigh(es: seq<Event>, n: nat): nat
    requires n <= |es|
  {
    if n == 0 || Seen(es, n - 1) == High then 0
    else CutsSinceHigh(es, n - 1) + if Cuts(es, n - 1) then 1 else 0
  }

  /** Episodes that latched among the first `n` events, counted from the latest accepted high frame. */
  function EpisodesSinceHigh(es: seq<Event>, n: nat): nat
    requires n <= |es|
  {
    if n == 0 || Seen(es, n - 1) == High then 0
    else EpisodesSinceHigh(es, n - 1) + if !At(es, n - 1).tripActive && At(es, n).tripActive then 1 else 0
  }

  /** Power cuts among the events `from .. to`. */
  function CutsBetween(es: seq<Event>, from: nat, to: nat): nat
    requires from <= to <= |es|
  {
    if from == to then 0 else CutsBetween(es, from, to - 1) + if Cuts(es, to - 1) then 1 else 0
  }

  /** What happened since the latest accepted high frame; a repeat is the second cut of an episode. */
  datatype Tally = Tally(episodes: nat, cuts: nat, repeats: nat, closed: nat)

  predicate Latches(s: State, e: Event) {
    !s.tripActive && Apply(s, e).tripActive
  }

  predicate Repeats(s: State, e: Event) {
    CutsNow(s, e) && s.tripActive && s.episodeCycles == 1
  }

  /** `closed` counts the repeats of all episodes but the last. */
  function Counted(t: Tally, s: State, e: Event): Tally {
    if Classify(s, e) == High then Tally(0, 0, 0, 0)
    else Tally(t.episodes + if Latches(s, e) then 1 else 0, t.cuts + if CutsNow(s, e) then 1 else 0,
               t.repeats + if Repeats(s, e) then 1 else 0, if Latches(s, e) then t.repeats else t.closed)
  }

  function TallyAt(es: seq<Event>, n: nat): Tally
    requires n <= |es|
  {
    if n == 0 then Tally(0, 0, 0, 0) else Counted(TallyAt(es, n - 1), At(es, n - 1), es[n - 1])
  }

  lemma {:induction false} TallyCounts(es: seq<Event>, n: nat)
    requires n <= |es|
    ensures TallyAt(es, n).cuts == CutsSinceHigh(es, n) && TallyAt(es, n).episodes == EpisodesSinceHigh(es, n)
  {
    if n > 0 {
      TallyCounts(es, n - 1);
    }
  }

  /** `k` times `p`, for the few multiples that occur. */
  function Times(k: nat, p: real): real {
    if k == 0 then 0.0 else if k == 1 then p else if k == 2 then p + p else p + p + p
  }

  /** The earliest time these episodes and repeats can be over: six seconds each, and `p` each. */
  function Elapsed(t: Tally, p: real): real {
    Times(t.episodes, 6.0) + Times(t.repeats, p)
  }

  /** What every event keeps when ticks wait at least `p` between cuts, however often the error is dismissed. */
  ghost predicate SpanBound(s: State, clock: real, t: Tally, p: real) {
    && 0.0 <= s.firstLow <= clock && 0.0 <= s.lastHigh <= clock
    && (s.lowSamples > 0 ==> s.firstLow > 0.0)
    && (s.firstLow > 0.0 ==> s.firstLow >= s.lastHigh)
    && (if t.episodes == 0 then t == Tally(0, 0, 0, 0) && !s.tripActive else GateBound(s, clock, t, p))
    && (s.tripActive ==> LatchBound(s, clock, t, p))
    && (!s.tripActive && s.firstLow > 0.0 ==> s.firstLow >= s.lastHigh + Elapsed(t, p))
  }

  /** The last episode could only latch while its streak started within 15 s of the high frame. */
  ghost predicate GateBound(s: State, clock: real, t: Tally, p: real) {
    && 0 < t.episodes <= 3 && s.lastHigh > 0.0
    && t.closed <= t.episodes - 1 && t.closed <= t.repeats <= t.closed + 1
    && Times(t.episodes - 1, 6.0) + Times(t.closed, p) <= ABRUPT_DROP_MAX_S
    && clock >= s.lastHigh + Elapsed(t, p)
    && t.cuts <= t.episodes + t.repeats
  }

  ghost predicate LatchBound(s: State, clock: real, t: Tally, p: real) {
    && s.episodeCycles <= 2
    && t.repeats == t.closed + (if s.episodeCycles == 2 then 1 else 0)
    && (s.episodeCycles == 0 ==> t.cuts <= t.episodes + t.repeats - 1)
    && (s.episodeCycles == 1 ==> s.lastHigh + Elapsed(t, p) <= s.lastAttempt <= clock)
  }

  /** A high frame starts a new span. */
  lemma SpanRestarts(s: State, f: Frame, clock: real, t: Tally, p: real)
    requires SpanBound(s, clock, t, p) && f.now >= clock && f.now > 0.0
    requires Classify(s, Poll(f)) == High
    ensures SpanBound(Apply(s, Poll(f)), f.now, Tally(0, 0, 0, 0), p)
  {
  }

  lemma SpanLatches(s: State, f: Frame, clock: real, t: Tally, p: real)
    requires SpanBound(s, clock, t, p) && p >= 0.0 && f.now >= clock && f.now > 0.0
    requires Latches(s, Poll(f)) && Classify(s, Poll(f)) != High
    ensures SpanBound(Apply(s, Poll(f)), f.now, Counted(t, s, Poll(f)), p)
  {
    DetectorAbstracts(s, Poll(f), f.now);
    assert Classify(s, Poll(f)) == Low;
    assert t.episodes <= 2;
  }

  lemma SpanCuts(s: State, f: Frame, clock: real, t: Tally, p: real)
    requires SpanBound(s, clock, t, p) && p >= 0.0 && f.now >= clock && f.now > 0.0
    requires p == 0.0 || f.retryS >= p
    requires s.tripActive && CutsNow(s, Poll(f))
    ensures SpanBound(Apply(s, Poll(f)), f.now, Counted(t, s, Poll(f)), p)
  {
    DetectorAbstracts(s, Poll(f), f.now);
    assert s.episodeCycles <= 1;
  }

  lemma SpanContinues(s: State, e: Event, clock: real, clock': real, t: Tally, p: real)
    requires SpanBound(s, clock, t, p) && p >= 0.0
    requires clock' == if e.Poll? then e.frame.now else clock
    requires clock' >= clock && (e.Poll? ==> clock' > 0.0)
    requires Classify(s, e) != High && !Latches(s, e) && !CutsNow(s, e)
    ensures SpanBound(Apply(s, e), clock', Counted(t, s, e), p)
  {
    DetectorAbstracts(s, e, clock');
    assert Counted(t, s, e) == t;
  }

  lemma SpanStep(s: State, e: Event, s': State, clock: real, clock': real, t: Tally, t': Tally, p: real)
    requires SpanBound(s, clock, t, p) && p >= 0.0 && s' == Apply(s, e) && t' == Counted(t, s, e)
    requires clock' == if e.Poll? then e.frame.now else clock
    requires clock' >= clock && (e.Poll? ==> clock' > 0.0 && (p == 0.0 || e.frame.retryS >= p))
    ensures SpanBound(s', clock', t', p)
  {
    if Classify(s, e) == High {
      SpanRestarts(s, e.frame, clock, t, p);
    } else if Latches(s, e) {
      SpanLatches(s, e.frame, clock, t, p);
    } else if CutsNow(s, e) {
      SpanCuts(s, e.frame, clock, t, p);
    } else {
      SpanContinues(s, e, clock, clock', t, p);
    }
  }

  /** A good clock on which every tick waits at least `p` seconds after the last cut; zero waits for nothing. */
  ghost predicate Waits(es: seq<Event>, p: real) {
    GoodClock(es) && p >= 0.0 && (p == 0.0 || forall i | 0 <= i < |es| && es[i].Poll? :: es[i].frame.retryS >= p)
  }

  lemma WaitsAt(es: seq<Event>, n: nat, p: real)
    requires 0 < n <= |es| && Waits(es, p)
    ensures var e := es[n - 1];
            && Clock(es, n) == (if e.Poll? then e.frame.now else Clock(es, n - 1))
            && Clock(es, n) >= Clock(es, n - 1)
            && (e.Poll? ==> Clock(es, n) > 0.0 && (p == 0.0 || e.frame.retryS >= p))
  {
  }

  lemma SpanStarts(p: real)
    ensures SpanBound(FRESH, 0.0, Tally(0, 0, 0, 0), p)
  {
  }

  lemma SpanAdvances(es: seq<Event>, n: nat, p: real)
    requires 0 < n <= |es| && Waits(es, p)
    requires SpanBound(At(es, n - 1), Clock(es, n - 1), TallyAt(es, n - 1), p)
    ensures SpanBound(At(es, n), Clock(es, n), TallyAt(es, n), p)
  {
    WaitsAt(es, n, p);
    SpanStep(At(es, n - 1), es[n - 1], At(es, n), Clock(es, n - 1), Clock(es, n),
             TallyAt(es, n - 1), TallyAt(es, n), p);
  }

  /** The span invariant after each of the first `n` events. */
  ghost predicate SpanKept(es: seq<Event>, n: nat, p: real)
    requires n <= |es|
  {
    forall i: nat | i <= n :: SpanBound(At(es, i), Clock(es, i), TallyAt(es, i), p)
  }

  lemma SpanKeptAdvances(es: seq<Event>, n: nat, p: real)
    requires 0 < n <= |es| && Waits(es, p) && SpanKept(es, n - 1, p)
    ensures SpanKept(es, n, p)
  {
    SpanAdvances(es, n, p);
  }

  lemma {:induction false} SpanKeptHolds(es: seq<Event>, n: nat, p: real)
    requires n <= |es| && Waits(es, p)
    ensures SpanKept(es, n, p)
  {
    if n == 0 {
      SpanStarts(p);
    } else {
      SpanKeptHolds(es, n - 1, p);
      SpanKeptAdvances(es, n, p);
    }
  }

  lemma SpanBoundHolds(es: seq<Event>, n: nat, p: real)
    requires n <= |es| && Waits(es, p)
    ensures SpanBound(At(es, n), Clock(es, n), TallyAt(es, n), p)
  {
    SpanKeptHolds(es, n, p);
  }

  /**
   * Between two accepted high-output frames at most three episodes latch and power is cut at
   * most six times: for any retry interval and any number of dismissals.
   */
  lemma AtMostThreeEpisodes(es: seq<Event>, n: nat)
    requires n <= |es| && GoodClock(es)
    ensures EpisodesSinceHigh(es, n) <= 3
    ensures CutsSinceHigh(es, n) <= 6
  {
    SpanBoundHolds(es, n, 0.0);
    TallyCounts(es, n);
  }

  /** Longer waits leave room for fewer second cuts before the 15 s gate closes. */
  lemma WaitsBoundCuts(es: seq<Event>, n: nat, p: real)
    requires n <= |es| && Waits(es, p)
    ensures p > 1.5 ==> CutsSinceHigh(es, n) <= 5
    ensures p > 3.0 ==> CutsSinceHigh(es, n) <= 4
  {
    SpanBoundHolds(es, n, p);
    TallyCounts(es, n);
  }

  /** A run on a good clock in which every tick uses the retry interval `retry`; the error may be dismissed. */
  ghost predicate Steady(es: seq<Event>, retry: real) {
    GoodClock(es) && forall i | 0 <= i < |es| && es[i].Poll? :: es[i].frame.retryS == retry
  }

  /** A run nobody dismisses, on a good clock, in which every tick uses the retry interval `retry`. */
  ghost predicate Paced(es: seq<Event>, retry: real) {
    Steady(es, retry) && NoDismiss(es)
  }

  /** What pacing adds: after the second cut no later streak can start close enough to the high frame. */
  ghost predicate PacedBound(s: State, clock: real, cuts: nat) {
    && (cuts > 0 ==> s.lastHigh + 6.0 <= s.lastAttempt <= clock)
    && (cuts > 1 ==> s.lastAttempt > s.lastHigh + 15.0)
    && (cuts > 1 && s.tripActive ==> s.episodeCycles >= cuts - 1)
    && (cuts > 1 && !s.tripActive && s.firstLow > 0.0 ==> s.firstLow >= s.lastAttempt)
    && cuts <= 3
  }

  lemma PacedCut(s: State, f: Frame, clock: real, t: Tally)
    requires SpanBound(s, clock, t, 0.0) && PacedBound(s, clock, t.cuts)
    requires f.now >= clock && f.now > 0.0 && f.retryS > 9.0
    requires Classify(s, Poll(f)) != High && CutsNow(s, Poll(f))
    ensures PacedBound(Apply(s, Poll(f)), f.now, t.cuts + 1)
  {
    DetectorAbstracts(s, Poll(f), f.now);
  }

  lemma PacedOther(s: State, e: Event, clock: real, clock': real, t: Tally)
    requires SpanBound(s, clock, t, 0.0) && PacedBound(s, clock, t.cuts)
    requires clock' == if e.Poll? then e.frame.now else clock
    requires clock' >= clock && (e.Poll? ==> clock' > 0.0)
    requires !e.Dismiss? && Classify(s, e) != High && !CutsNow(s, e)
    ensures PacedBound(Apply(s, e), clock', t.cuts)
  {
    DetectorAbstracts(s, e, clock');
    if t.cuts > 1 && !s.tripActive {
      assert !Apply(s, e).tripActive;
    }
  }

  lemma PacedBoundStep(s: State, e: Event, s': State, clock: real, clock': real, t: Tally, t': Tally)
    requires SpanBound(s, clock, t, 0.0) && PacedBound(s, clock, t.cuts) && s' == Apply(s, e) && t' == Counted(t, s, e)
    requires clock' == if e.Poll? then e.frame.now else clock
    requires clock' >= clock && (e.Poll? ==> clock' > 0.0 && e.frame.retryS > 9.0)
    requires !e.Dismiss?
    ensures PacedBound(s', clock', t'.cuts)
  {
    if Classify(s, e) != High {
      if CutsNow(s, e) {
        PacedCut(s, e.frame, clock, t);
      } else {
        PacedOther(s, e, clock, clock', t);
      }
    }
  }

  lemma PacedAdvances(es: seq<Event>, n: nat, retry: real)
    requires 0 < n <= |es| && Paced(es, retry) && retry > 9.0
    requires SpanBound(At(es, n - 1), Clock(es, n - 1), TallyAt(es, n - 1), 0.0)
    requires PacedBound(At(es, n - 1), Clock(es, n - 1), TallyAt(es, n - 1).cuts)
    ensures PacedBound(At(es, n), Clock(es, n), TallyAt(es, n).cuts)
  {
    WaitsAt(es, n, retry);
    PacedBoundStep(At(es, n - 1), es[n - 1], At(es, n), Clock(es, n - 1), Clock(es, n),
                   TallyAt(es, n - 1), TallyAt(es, n));
  }

  /** What pacing adds, after each of the first `n` events. */
  ghost predicate PacedKept(es: seq<Event>, n: nat)
    requires n <= |es|
  {
    forall i: nat | i <= n :: PacedBound(At(es, i), Clock(es, i), TallyAt(es, i).cuts)
  }

  lemma PacedKeptAdvances(es: seq<Event>, n: nat, retry: real)
    requires 0 < n <= |es| && Paced(es, retry) && retry > 9.0 && SpanKept(es, n - 1, 0.0) && PacedKept(es, n - 1)
    ensures PacedKept(es, n)
  {
    PacedAdvances(es, n, retry);
  }

  lemma {:induction false} PacedKeptHolds(es: seq<Event>, n: nat, retry: real)
    requires n <= |es| && Paced(es, retry) && retry > 9.0
    ensures PacedKept(es, n)
  {
    if n > 0 {
      PacedKeptHolds(es, n - 1, retry);
      SpanKeptHolds(es, n - 1, 0.0);
      PacedKeptAdvances(es, n, retry);
    }
  }

  lemma PacedBoundHolds(es: seq<Event>, n: nat, retry: real)
    requires n <= |es| && Paced(es, retry) && retry > 9.0
    ensures PacedBound(At(es, n), Clock(es, n), CutsSinceHigh(es, n))
  {
    PacedKeptHolds(es, n, retry);
    TallyCounts(es, n);
  }

  // ---------- runs put together event by event ----------

  function FrameAt(acOn: bool, w: real, sample: real, now: real, retry: real): Event {
    Poll(Frame(acOn, Some(w), Some(sample), 100.0, now, retry, 60.0))
  }

  /** Between dismissals only the high mark and the last stamp are remembered. */
  function Calm(high: real, stamp: real): State {
    FRESH.(lastHigh := high, lastSample := stamp)
  }

  function LowAt(sample: real, t: real, retry: real): Event {
    FrameAt(true, 0.0, sample, t, retry)
  }

  /** One known event on one known state. */
  lemma Next(es: seq<Event>, n: nat, s: State, e: Event, t: State)
    requires n < |es| && At(es, n) == s && es[n] == e && Apply(s, e) == t
    ensures At(es, n + 1) == t
    ensures Classify(s, e) != High ==> CutsSinceHigh(es, n + 1) == CutsSinceHigh(es, n) + if CutsNow(s, e) then 1 else 0
    ensures Classify(s, e) == High ==> CutsSinceHigh(es, n + 1) == 0
  {
  }

  /** A low frame that is not enough to arm the detector. */
  lemma LowWaits(s: State, sample: real, t: real, retry: real)
    requires s == Calm(s.lastHigh, s.lastSample).(lastAttempt := s.lastAttempt, firstLow := s.firstLow,
                                                  lowSamples := s.lowSamples)
    requires s.lowSamples < 2 && s.lastSample != sample
    ensures var e := LowAt(sample, t, retry);
            && Apply(s, e) == s.(firstLow := if s.firstLow == 0.0 then t else s.firstLow,
                                 lowSamples := s.lowSamples + 1, lastSample := sample)
            && Classify(s, e) == Low && !CutsNow(s, e)
  {
  }

  /** The low frame that arms it, at a time the interval allows a cut. */
  lemma LowArms(s: State, sample: real, t: real, retry: real)
    requires s == Calm(s.lastHigh, s.lastSample).(lastAttempt := s.lastAttempt, firstLow := s.firstLow, lowSamples := 2)
    requires 0.0 < s.lastHigh <= s.firstLow <= s.lastHigh + 15.0 && t >= s.firstLow + 6.0
    requires t - s.lastAttempt >= retry && s.lastSample != sample
    ensures var e := LowAt(sample, t, retry);
            && Apply(s, e) == s.(attempts := 1, lastAttempt := t, lowSamples := 3, lastSample := sample,
                                 tripActive := true, episodeCycles := 1)
            && Classify(s, e) == Low && CutsNow(s, e)
  {
  }

  /** Two low frames after a calm state: the streak has begun. */
  lemma StreakBegins(es: seq<Event>, n: nat, s: State, sample: real, t: real, retry: real)
    requires n + 2 <= |es| && At(es, n) == s && t > 0.0
    requires s == Calm(s.lastHigh, sample - 1.0).(lastAttempt := s.lastAttempt)
    requires es[n] == LowAt(sample, t, retry) && es[n + 1] == LowAt(sample + 1.0, t + 3.0, retry)
    ensures CutsSinceHigh(es, n + 2) == CutsSinceHigh(es, n)
    ensures At(es, n + 2) == s.(firstLow := t, lowSamples := 2, lastSample := sample + 1.0)
  {
    var s1 := s.(firstLow := t, lowSamples := 1, lastSample := sample);
    LowWaits(s, sample, t, retry);
    Next(es, n, s, es[n], s1);
    LowWaits(s1, sample + 1.0, t + 3.0, retry);
    Next(es, n + 1, s1, es[n + 1], s1.(lowSamples := 2, lastSample := sample + 1.0));
  }

  /** Three low frames in time after the high one: armed once the streak is six seconds old, and cut. */
  lemma StreakCuts(es: seq<Event>, n: nat, s: State, sample: real, t: real, t': real, retry: real)
    requires n + 3 <= |es| && At(es, n) == s
    requires s == Calm(s.lastHigh, sample - 1.0).(lastAttempt := s.lastAttempt)
    requires 0.0 < s.lastHigh <= t <= s.lastHigh + 15.0 && t' >= t + 6.0 && t' - s.lastAttempt >= retry
    requires es[n] == LowAt(sample, t, retry)
    requires es[n + 1] == LowAt(sample + 1.0, t + 3.0, retry)
    requires es[n + 2] == LowAt(sample + 2.0, t', retry)
    ensures CutsSinceHigh(es, n + 3) == CutsSinceHigh(es, n) + 1
    ensures At(es, n + 3) == s.(attempts := 1, lastAttempt := t', firstLow := t, lowSamples := 3,
                                lastSample := sample + 2.0, tripActive := true, episodeCycles := 1)
  {
    StreakBegins(es, n, s, sample, t, retry);
    var s2 := At(es, n + 2);
    LowArms(s2, sample + 2.0, t', retry);
    Next(es, n + 2, s2, es[n + 2], s2.(attempts := 1, lastAttempt := t', lowSamples := 3,
                                       lastSample := sample + 2.0, tripActive := true, episodeCycles := 1));
  }

  /** The episode's second cut, once the interval has passed again. */
  lemma LowRepeats(s: State, sample: real, t: real, retry: real)
    requires s.tripActive && s.episodeCycles == 1 && s.lastSample != sample
    requires s.lastUserOff == 0.0 && s.pendingOff == {} && s.firstLow > 0.0 && t - s.lastAttempt >= retry
    ensures var e := LowAt(sample, t, retry);
            && Apply(s, e) == s.(attempts := s.attempts + 1, lastAttempt := t, lowSamples := s.lowSamples + 1,
                                 lastSample := sample, episodeCycles := 2)
            && Classify(s, e) == Low && CutsNow(s, e)
  {
  }

  /** The same, as the next step of a run. */
  lemma CutAgain(es: seq<Event>, n: nat, s: State, sample: real, t: real, retry: real)
    requires n < |es| && At(es, n) == s && s.tripActive && s.episodeCycles == 1 && s.lastSample != sample
    requires s.lastUserOff == 0.0 && s.pendingOff == {} && s.firstLow > 0.0 && t - s.lastAttempt >= retry
    requires es[n] == LowAt(sample, t, retry)
    ensures CutsSinceHigh(es, n + 1) == CutsSinceHigh(es, n) + 1
    ensures At(es, n + 1) == s.(attempts := s.attempts + 1, lastAttempt := t, lowSamples := s.lowSamples + 1,
                                lastSample := sample, episodeCycles := 2)
  {
    LowRepeats(s, sample, t, retry);
    Next(es, n, s, es[n], s.(attempts := s.attempts + 1, lastAttempt := t, lowSamples := s.lowSamples + 1,
                             lastSample := sample, episodeCycles := 2));
  }

  lemma {:induction false} AtAppend(a: seq<Event>, b: seq<Event>, n: nat)
    requires n <= |a|
    ensures At(a + b, n) == At(a, n) && Clock(a + b, n) == Clock(a, n) && CutsSinceHigh(a + b, n) == CutsSinceHigh(a, n)
  {
    if n > 0 {
      AtAppend(a, b, n - 1);
      assert (a + b)[n - 1] == a[n - 1];
    }
  }

  lemma SteadyAppend(a: seq<Event>, e: Event, retry: real)
    requires Steady(a, retry)
    requires e.Poll? ==> e.frame.now > 0.0 && e.frame.now >= Clock(a, |a|) && e.frame.retryS == retry
    ensures Steady(a + [e], retry)
    ensures Clock(a + [e], |a| + 1) == if e.Poll? then e.frame.now else Clock(a, |a|)
  {
    var es := a + [e];
    AtAppend(a, [e], |a|);
    forall i | 0 <= i < |es| && es[i].Poll?
      ensures es[i].frame.now > 0.0 && es[i].frame.now >= Clock(es, i) && es[i].frame.retryS == retry
    {
      AtAppend(a, [e], i);
      if i < |a| {
        assert es[i] == a[i];
      }
    }
  }

  function Extra(twice: bool, p: real): real {
    if twice then p else 0.0
  }

  /** Low frames at `t`, three seconds on, and `d` seconds on. */
  function Lows(sample: real, t: real, d: real, retry: real): seq<Event> {
    [LowAt(sample, t, retry), LowAt(sample + 1.0, t + 3.0, retry), LowAt(sample + 2.0, t + d, retry)]
  }

  lemma LowsAreSteady(a: seq<Event>, sample: real, t: real, d: real, retry: real) returns (es: seq<Event>)
    requires Steady(a, retry) && Clock(a, |a|) <= t && t > 0.0 && d >= 6.0
    ensures es == a + Lows(sample, t, d, retry)
    ensures Steady(es, retry) && Clock(es, |es|) == t + d && (NoDismiss(a) ==> NoDismiss(es))
  {
    var x, y, z := LowAt(sample, t, retry), LowAt(sample + 1.0, t + 3.0, retry), LowAt(sample + 2.0, t + d, retry);
    SteadyAppend(a, x, retry);
    SteadyAppend(a + [x], y, retry);
    SteadyAppend(a + [x] + [y], z, retry);
    es := a + [x] + [y] + [z];
  }

  /** They arm the detector after `d` seconds and cut power, if the interval has passed by then. */
  lemma AppendLows(a: seq<Event>, s: State, t: real, d: real, retry: real) returns (es: seq<Event>)
    requires Steady(a, retry) && Clock(a, |a|) <= t && At(a, |a|) == s
    requires s == Calm(s.lastHigh, s.lastSample).(lastAttempt := s.lastAttempt)
    requires 0.0 < s.lastHigh <= t <= s.lastHigh + 15.0 && d >= 6.0 && t + d - s.lastAttempt >= retry
    ensures Steady(es, retry) && Clock(es, |es|) == t + d && (NoDismiss(a) ==> NoDismiss(es))
    ensures CutsSinceHigh(es, |es|) == CutsSinceHigh(a, |a|) + 1
    ensures At(es, |es|) == s.(attempts := 1, lastAttempt := t + d, firstLow := t, lowSamples := 3,
                               lastSample := s.lastSample + 3.0, tripActive := true, episodeCycles := 1)
  {
    var b := Lows(s.lastSample + 1.0, t, d, retry);
    es := LowsAreSteady(a, s.lastSample + 1.0, t, d, retry);
    AtAppend(a, b, |a|);
    StreakCuts(es, |a|, s, s.lastSample + 1.0, t, t + d, retry);
  }

  /** The same episode cut again `p` seconds later. */
  lemma AppendRepeat(a: seq<Event>, s: State, sample: real, p: real, retry: real) returns (es: seq<Event>)
    requires Steady(a, retry) && At(a, |a|) == s && s.tripActive && s.episodeCycles == 1 && s.lastSample != sample
    requires s.lastUserOff == 0.0 && s.pendingOff == {} && s.firstLow > 0.0 && p >= retry && p >= 0.0
    requires s.lastAttempt == Clock(a, |a|) > 0.0
    ensures Steady(es, retry) && Clock(es, |es|) == Clock(a, |a|) + p && (NoDismiss(a) ==> NoDismiss(es))
    ensures CutsSinceHigh(es, |es|) == CutsSinceHigh(a, |a|) + 1
    ensures At(es, |es|).lastAttempt == Clock(es, |es|)
    ensures var t := At(es, |es|);
            t.lastHigh == s.lastHigh && t.lastSample == sample && t.lastUserOff == 0.0 && t.pendingOff == {}
  {
    var e := LowAt(sample, Clock(a, |a|) + p, retry);
    es := a + [e];
    SteadyAppend(a, e, retry);
    AtAppend(a, [e], |a|);
    CutAgain(es, |a|, s, sample, Clock(a, |a|) + p, retry);
  }

  lemma AppendDismiss(a: seq<Event>, retry: real) returns (es: seq<Event>)
    requires Steady(a, retry) && At(a, |a|).lastUserOff == 0.0 && At(a, |a|).pendingOff == {}
    ensures Steady(es, retry) && Clock(es, |es|) == Clock(a, |a|)
    ensures CutsSinceHigh(es, |es|) == CutsSinceHigh(a, |a|)
    ensures At(es, |es|) == Calm(At(a, |a|).lastHigh, At(a, |a|).lastSample)
  {
    var s := At(a, |a|);
    es := a + [Dismiss];
    SteadyAppend(a, Dismiss, retry);
    AtAppend(a, [Dismiss], |a|);
    Next(es, |a|, s, Dismiss, Calm(s.lastHigh, s.lastSample));
  }

  /** One episode of a run, cut once or twice and then dismissed. */
  lemma AppendEpisode(a: seq<Event>, twice: bool, t: real, p: real, high: real, retry: real) returns (es: seq<Event>)
    requires Steady(a, retry) && Clock(a, |a|) <= t && At(a, |a|) == Calm(high, At(a, |a|).lastSample)
    requires 0.0 < high <= t <= high + 15.0 && t + 6.0 >= retry && p >= retry && p >= 0.0
    ensures Steady(es, retry) && Clock(es, |es|) == t + 6.0 + Extra(twice, p)
    ensures CutsSinceHigh(es, |es|) == CutsSinceHigh(a, |a|) + if twice then 2 else 1
    ensures At(es, |es|) == Calm(high, At(es, |es|).lastSample)
  {
    var sample := At(a, |a|).lastSample + 4.0;
    es := AppendLows(a, At(a, |a|), t, 6.0, retry);
    if twice {
      es := AppendRepeat(es, At(es, |es|), sample, p, retry);
    }
    es := AppendDismiss(es, retry);
  }

  /** The port reports off at once: the episode ends, the pacing clock stays. */
  lemma AppendOff(a: seq<Event>, retry: real) returns (es: seq<Event>)
    requires Steady(a, retry) && Clock(a, |a|) > 0.0 && At(a, |a|).lastUserOff == 0.0 && At(a, |a|).pendingOff == {}
    ensures Steady(es, retry) && Clock(es, |es|) == Clock(a, |a|) && (NoDismiss(a) ==> NoDismiss(es))
    ensures CutsSinceHigh(es, |es|) == CutsSinceHigh(a, |a|)
    ensures var s := At(a, |a|);
            At(es, |es|) == Calm(s.lastHigh, s.lastSample + 1.0).(lastAttempt := s.lastAttempt)
  {
    var s := At(a, |a|);
    var e := FrameAt(false, 0.0, s.lastSample + 1.0, Clock(a, |a|), retry);
    es := a + [e];
    SteadyAppend(a, e, retry);
    AtAppend(a, [e], |a|);
    Next(es, |a|, s, e, Calm(s.lastHigh, s.lastSample + 1.0).(lastAttempt := s.lastAttempt));
  }

  function Wait(retry: real): real {
    if retry > 0.0 then retry else 0.0
  }

  lemma OnlyHigh(t: real, retry: real) returns (es: seq<Event>)
    requires t > 0.0
    ensures Steady(es, retry) && Clock(es, |es|) == t && NoDismiss(es)
    ensures CutsSinceHigh(es, |es|) == 0 && At(es, |es|) == Calm(t, 1.0)
  {
    var high := FrameAt(true, 500.0, 1.0, t, retry);
    es := [] + [high];
    SteadyAppend([], high, retry);
    Next(es, 0, FRESH, high, Calm(t, 1.0));
  }

  // ---------- undismissed runs ----------

  /**
   * A run nobody dismisses: an episode ended by the port reporting off, then a second one cut twice.
   * The first is cut twice too if wanted, which leaves time for the second only when the interval is nine
   * seconds or less.
   */
  lemma PacedRun(more: bool, retry: real) returns (es: seq<Event>)
    requires more ==> retry <= 9.0
    ensures Paced(es, retry) && CutsSinceHigh(es, |es|) == if more then 4 else 3
  {
    var p := if more then 9.0 else Wait(retry);
    var t := 100.0 + p;
    es := OnlyHigh(t, retry);
    es := AppendLows(es, At(es, |es|), t, 6.0, retry);
    if more {
      es := AppendRepeat(es, At(es, |es|), At(es, |es|).lastSample + 1.0, p, retry);
    }
    es := AppendOff(es, retry);
    es := AppendLows(es, At(es, |es|), Clock(es, |es|), 6.0 + p, retry);
    es := AppendRepeat(es, At(es, |es|), At(es, |es|).lastSample + 1.0, p, retry);
  }

  ghost predicate NeverMoreThanThree(retry: real) {
    forall es: seq<Event> | Paced(es, retry) :: CutsSinceHigh(es, |es|) <= 3
  }

  /**
   * The power-cut bound, with the exact pacing it needs: power is cut at most three times per
   * high-output frame on every run exactly when the retry interval is longer than nine seconds.
   */
  lemma ThreeCutsExactly(retry: real)
    ensures NeverMoreThanThree(retry) <==> retry > 9.0
  {
    if retry > 9.0 {
      forall es: seq<Event> | Paced(es, retry) ensures CutsSinceHigh(es, |es|) <= 3 {
        PacedBoundHolds(es, |es|, retry);
      }
    } else {
      var es := PacedRun(true, retry);
    }
  }

  /** The bound of three is reached at every retry interval, so it cannot be lowered. */
  lemma ThreeCutsHappen(retry: real) returns (es: seq<Event>)
    ensures Paced(es, retry) && CutsSinceHigh(es, |es|) == 3
  {
    es := PacedRun(false, retry);
  }

  lemma {:induction false} CutsWithinSpan(es: seq<Event>, from: nat, to: nat)
    requires from <= to <= |es|
    requires forall k | from <= k < to :: Seen(es, k) != High
    ensures CutsBetween(es, from, to) <= CutsSinceHigh(es, to)
  {
    if from < to {
      CutsWithinSpan(es, from, to - 1);
    }
  }

  /** Any stretch of events without an accepted high frame holds at most three power cuts. */
  lemma CutsBetweenHighFrames(es: seq<Event>, from: nat, to: nat, retry: real)
    requires from <= to <= |es| && Paced(es, retry) && retry > 9.0
    requires forall k | from <= k < to :: Seen(es, k) != High
    ensures CutsBetween(es, from, to) <= 3
  {
    CutsWithinSpan(es, from, to);
    PacedBoundHolds(es, to, retry);
  }

  /** Two power cuts with no dismissal between them are at least the second tick's retry interval apart. */
  lemma CutsAreSpaced(es: seq<Event>, i: nat, j: nat)
    requires i < j < |es| && GoodClock(es) && Cuts(es, i) && Cuts(es, j)
    requires forall k | i < k < j :: !es[k].Dismiss?
    ensures es[j].frame.now - es[i].frame.now >= es[j].frame.retryS
  {
    LastAttemptAdvances(es, i, j);
  }

  lemma {:induction false} LastAttemptAdvances(es: seq<Event>, i: nat, n: nat)
    requires i < n <= |es| && GoodClock(es) && Cuts(es, i)
    requires forall k | i < k < n :: !es[k].Dismiss?
    ensures es[i].frame.now <= At(es, n).lastAttempt <= Clock(es, n)
  {
    if n > i + 1 {
      LastAttemptAdvances(es, i, n - 1);
    }
  }

  // ---------- dismissed runs ----------

  /** A high frame and three dismissed episodes in a row, the last one cut twice, the others as asked. */
  lemma DismissedRun(first: bool, second: bool, retry: real) returns (es: seq<Event>)
    requires Extra(first, Wait(retry)) + Extra(second, Wait(retry)) <= 3.0
    ensures Steady(es, retry)
    ensures CutsSinceHigh(es, |es|) == 4 + (if first then 1 else 0) + if second then 1 else 0
  {
    var p := Wait(retry);
    var t := 100.0 + p;
    es := OnlyHigh(t, retry);
    es := AppendEpisode(es, first, t, p, t, retry);
    es := AppendEpisode(es, second, Clock(es, |es|), p, t, retry);
    es := AppendEpisode(es, true, Clock(es, |es|), p, t, retry);
  }

  ghost predicate NeverMoreThan(bound: nat, retry: real) {
    forall es: seq<Event> | Steady(es, retry) :: CutsSinceHigh(es, |es|) <= bound
  }

  lemma SteadyBound(es: seq<Event>, retry: real)
    requires Steady(es, retry)
    ensures CutsSinceHigh(es, |es|) <= if retry > 3.0 then 4 else if retry > 1.5 then 5 else 6
  {
    AtMostThreeEpisodes(es, |es|);
    if retry > 1.5 {
      WaitsBoundCuts(es, |es|, retry);
    }
  }

  /**
   * The exact bounds when the error may be dismissed at any time: four cuts per high-output frame
   * for retry intervals longer than three seconds, five for those longer than one and a half, six
   * for the rest; each is reached, so three is never enough.
   */
  lemma DismissedBoundsExactly(retry: real)
    ensures !NeverMoreThan(3, retry)
    ensures NeverMoreThan(4, retry) <==> retry > 3.0
    ensures NeverMoreThan(5, retry) <==> retry > 1.5
    ensures NeverMoreThan(6, retry)
  {
    forall es: seq<Event> | Steady(es, retry)
      ensures CutsSinceHigh(es, |es|) <= if retry > 3.0 then 4 else if retry > 1.5 then 5 else 6
    {
      SteadyBound(es, retry);
    }
    var four := DismissedRun(false, false, retry);
    if retry <= 3.0 {
      var five := DismissedRun(true, false, retry);
      assert CutsSinceHigh(five, |five|) == 5;
    }
    if retry <= 1.5 {
      var six := DismissedRun(true, true, retry);
      assert CutsSinceHigh(six, |six|) == 6;
    }
  }

  // ---------- the badge ----------

  ghost predicate EpisodeBooks(s: State) {
    && s.attempts == s.episodeCycles <= MAX_CYCLES_PER_EPISODE
    && (!s.tripActive ==> s.episodeCycles == 0)
    && (s.badge ==> s.tripActive && s.episodeCycles == MAX_CYCLES_PER_EPISODE)
  }

  lemma EpisodeBooksStep(s: State, e: Event)
    requires EpisodeBooks(s)
    ensures EpisodeBooks(Apply(s, e))
    ensures s.badge && Apply(s, e).tripActive ==> Apply(s, e).badge
  {
  }

  /**
   * After any run the attempt counter agrees with the episode's own, and the badge shows only while
   * an episode that has used up its cuts is latched.
   */
  lemma {:induction false} BadgeMeansExhausted(es: seq<Event>, n: nat)
    requires n <= |es|
    ensures EpisodeBooks(At(es, n))
  {
    if n > 0 {
      BadgeMeansExhausted(es, n - 1);
      EpisodeBooksStep(At(es, n - 1), es[n - 1]);
    }
  }

  /** The badge is never wiped in mid-outage: it stays for as long as the episode stays latched. */
  lemma {:induction false} BadgeOutlastsTicks(es: seq<Event>, i: nat, n: nat)
    requires i <= n <= |es| && At(es, i).badge
    requires forall k | i < k <= n :: At(es, k).tripActive
    ensures At(es, n).badge
  {
    if i < n {
      BadgeOutlastsTicks(es, i, n - 1);
      BadgeMeansExhausted(es, n - 1);
      EpisodeBooksStep(At(es, n - 1), es[n - 1]);
    }
  }
}
