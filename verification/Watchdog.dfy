/** The hardware-trip watchdog: one device's recovery state and the tick that drives it. */
module Watchdog {
  import opened Prelude

  const OUTPUT_BASELINE_W := 300.0
  const COLLAPSE_MIN_SAMPLES := 3
  const COLLAPSE_MIN_DURATION_S := 6.0
  const ABRUPT_DROP_MAX_S := 15.0
  const MAX_CYCLES_PER_EPISODE := 2

  datatype Action = Idle | Cycle | Waiting | UserGrace | Error

  /** What one poll tick hands to the watchdog. */
  datatype Frame = Frame(
    acOn: bool,
    outputW: Option<real>,
    sampleTs: Option<real>,
    floorW: real,
    now: real,
    retryS: real,
    graceS: real)

  /** The fields of a `WatchdogState`; `badge` stands for a non-empty error message. */
  datatype State = State(
    attempts: nat,
    lastAttempt: real,
    lastUserOff: real,
    pendingOff: set<nat>,
    badge: bool,
    lastHigh: real,
    firstLow: real,
    lowSamples: nat,
    lastSample: real,
    tripActive: bool,
    episodeCycles: nat)

  const FRESH := State(0, 0.0, 0.0, {}, false, 0.0, 0.0, 0, 0.0, false, 0)

  predicate GraceActive(s: State, f: Frame) {
    s.pendingOff != {} || (s.lastUserOff != 0.0 && f.now - s.lastUserOff < f.graceS)
  }

  /** The frame is not looked at: detection is off, there is no reading, or it is a cached frame. */
  predicate Untracked(s: State, f: Frame) {
    f.floorW <= 0.0 || f.outputW.None? || f.sampleTs == Some(s.lastSample)
  }

  predicate FullSignature(s: State, now: real) {
    && s.lowSamples >= COLLAPSE_MIN_SAMPLES
    && s.firstLow > 0.0
    && now - s.firstLow >= COLLAPSE_MIN_DURATION_S
    && s.lastHigh > 0.0
    && s.firstLow - s.lastHigh <= ABRUPT_DROP_MAX_S
  }

  /** Pacing, badge and the user's own switch are not the detector's to change. */
  ghost predicate OnlyDetects(s: State, t: State) {
    && t.attempts == s.attempts && t.lastAttempt == s.lastAttempt && t.badge == s.badge
    && t.lastUserOff == s.lastUserOff && t.pendingOff == s.pendingOff
  }

  function EndEpisode(s: State): State {
    if s.tripActive then s.(tripActive := false, episodeCycles := 0) else s
  }

  /** The streak after a tracked frame with the port on and output `w`. */
  function Level(s: State, w: real, floorW: real, now: real): (t: State)
    ensures OnlyDetects(s, t) && t.lastSample == s.lastSample
  {
    if w >= OUTPUT_BASELINE_W then
      EndEpisode(s.(lastHigh := now, firstLow := 0.0, lowSamples := 0))
    else if w <= floorW then
      s.(firstLow := if s.firstLow == 0.0 then now else s.firstLow, lowSamples := s.lowSamples + 1)
    else
      EndEpisode(s.(firstLow := 0.0, lowSamples := 0))
  }

  function TrackCollapse(s: State, f: Frame): (t: State)
    ensures OnlyDetects(s, t)
    ensures t.lastSample == if !Untracked(s, f) && f.sampleTs.Some? then f.sampleTs.value else s.lastSample
  {
    if Untracked(s, f) then s
    else
      var seen := if f.sampleTs.Some? then s.(lastSample := f.sampleTs.value) else s;
      if !f.acOn then seen.(firstLow := 0.0, lowSamples := 0)
      else
        var leveled := Level(seen, f.outputW.value, f.floorW, f.now);
        if !leveled.tripActive && FullSignature(leveled, f.now)
        then leveled.(tripActive := true, episodeCycles := 0)
        else leveled
  }

  /** One tick: the new state and the action the caller must carry out. */
  function Tick(s: State, f: Frame): (r: (State, Action))
    ensures r.0.lastUserOff == s.lastUserOff && r.0.pendingOff == s.pendingOff
  {
    var grace := GraceActive(s, f);
    var t := if grace then s.(firstLow := 0.0, lowSamples := 0) else TrackCollapse(s, f);
    if !f.acOn then
      (t.(attempts := 0, badge := false, tripActive := false, episodeCycles := 0,
          firstLow := 0.0, lowSamples := 0), Idle)
    else if !t.tripActive then
      (t.(attempts := 0, badge := false), Idle)
    else if grace then
      (t, UserGrace)
    else if t.episodeCycles >= MAX_CYCLES_PER_EPISODE then
      (t.(badge := true), Error)
    else if f.now - t.lastAttempt >= f.retryS then
      (t.(attempts := t.attempts + 1, lastAttempt := f.now, episodeCycles := t.episodeCycles + 1), Cycle)
    else
      (t, Waiting)
  }

  function Dismissed(s: State): State {
    s.(attempts := 0, lastAttempt := 0.0, badge := false, tripActive := false,
       episodeCycles := 0, firstLow := 0.0, lowSamples := 0)
  }

  /** The mutable per-device runtime, updated field by field as the program does. */
  class WatchdogState {
    var consecutiveAttempts: nat
    var lastAttemptTs: real
    var lastUserOffTs: real
    var pendingUserOffIntents: set<nat>
    var errorLatched: bool
    var lastHighOutputTs: real
    var firstLowTs: real
    var lowSamples: nat
    var lastSampleTs: real
    var hwTripActive: bool
    var episodeCycles: nat

    ghost function View(): State
      reads this
    {
      State(consecutiveAttempts, lastAttemptTs, lastUserOffTs, pendingUserOffIntents, errorLatched,
            lastHighOutputTs, firstLowTs, lowSamples, lastSampleTs, hwTripActive, episodeCycles)
    }

    constructor ()
      ensures View() == FRESH
    {
      consecutiveAttempts, lastAttemptTs, lastUserOffTs := 0, 0.0, 0.0;
      pendingUserOffIntents, errorLatched := {}, false;
      lastHighOutputTs, firstLowTs, lowSamples, lastSampleTs := 0.0, 0.0, 0, 0.0;
      hwTripActive, episodeCycles := false, 0;
    }

    method Track(f: Frame)
      modifies this
      ensures View() == TrackCollapse(old(View()), f)
    {
      if f.floorW <= 0.0 || f.outputW.None? {
        return;
      }
      if f.sampleTs.Some? {
        if f.sampleTs.value == lastSampleTs {
          return;
        }
        lastSampleTs := f.sampleTs.value;
      }
      if !f.acOn {
        firstLowTs, lowSamples := 0.0, 0;
        return;
      }
      var w := f.outputW.value;
      if w >= OUTPUT_BASELINE_W {
        lastHighOutputTs := f.now;
        firstLowTs, lowSamples := 0.0, 0;
        if hwTripActive {
          hwTripActive, episodeCycles := false, 0;
        }
      } else if w <= f.floorW {
        if firstLowTs == 0.0 {
          firstLowTs := f.now;
        }
        lowSamples := lowSamples + 1;
      } else {
        firstLowTs, lowSamples := 0.0, 0;
        if hwTripActive {
          hwTripActive, episodeCycles := false, 0;
        }
      }
      if !hwTripActive && lowSamples >= COLLAPSE_MIN_SAMPLES && firstLowTs > 0.0
         && f.now - firstLowTs >= COLLAPSE_MIN_DURATION_S && lastHighOutputTs > 0.0
         && firstLowTs - lastHighOutputTs <= ABRUPT_DROP_MAX_S
      {
        hwTripActive, episodeCycles := true, 0;
      }
    }

    method Evaluate(f: Frame) returns (action: Action)
      modifies this
      ensures (View(), action) == Tick(old(View()), f)
    {
      var grace := pendingUserOffIntents != {}
                   || (lastUserOffTs != 0.0 && f.now - lastUserOffTs < f.graceS);
      if grace {
        firstLowTs, lowSamples := 0.0, 0;
      } else {
        Track(f);
      }
      if !f.acOn {
        consecutiveAttempts, errorLatched := 0, false;
        hwTripActive, episodeCycles := false, 0;
        firstLowTs, lowSamples := 0.0, 0;
        return Idle;
      }
      if !hwTripActive {
        consecutiveAttempts, errorLatched := 0, false;
        return Idle;
      }
      if grace {
        return UserGrace;
      }
      if episodeCycles >= MAX_CYCLES_PER_EPISODE {
        errorLatched := true;
        return Error;
      }
      if f.now - lastAttemptTs >= f.retryS {
        consecutiveAttempts := consecutiveAttempts + 1;
        lastAttemptTs := f.now;
        episodeCycles := episodeCycles + 1;
        return Cycle;
      }
      return Waiting;
    }

    method RecordUserOff(now: real)
      modifies this
      ensures View() == old(View()).(lastUserOff := now)
    {
      lastUserOffTs := now;
    }

    method DismissError()
      modifies this
      ensures View() == Dismissed(old(View()))
    {
      consecutiveAttempts, lastAttemptTs, errorLatched := 0, 0.0, false;
      hwTripActive, episodeCycles := false, 0;
      firstLowTs, lowSamples := 0.0, 0;
    }
  }
}
