/** Why a power cut happens, told from the run's history alone, and what cached frames cannot change. */
module WatchdogHistory {
  import opened Prelude
  import opened Watchdog
  import opened WatchdogRuns
  import opened WatchdogSignature

  // ---------- what each event showed, from the run alone ----------

  /** The time the user last switched off, or zero. */
  function LastUserOff(es: seq<Event>, n: nat): real
    requires n <= |es|
  {
    if n == 0 then 0.0 else if es[n - 1].UserOff? then es[n - 1].at else LastUserOff(es, n - 1)
  }

  /** An OFF command of this token was announced and has not been settled. */
  ghost predicate Pending(es: seq<Event>, n: nat, token: nat)
    requires n <= |es|
  {
    exists i :: 0 <= i < n && es[i] == IntentAdded(token) && forall k | i < k < n :: es[k] != IntentDiscarded(token)
  }

  /** An OFF command is in flight, or the user's last OFF is within its grace at this tick. */
  ghost predicate InGrace(es: seq<Event>, n: nat, f: Frame)
    requires n <= |es|
  {
    || (exists token: nat :: Pending(es, n, token))
    || (LastUserOff(es, n) != 0.0 && f.now - LastUserOff(es, n) < f.graceS)
  }

  /** The frame is looked at: no grace, detection on, a reading there, and its stamp not the last one seen. */
  ghost predicate LookedAt(es: seq<Event>, n: nat, f: Frame, lastStamp: real)
    requires n <= |es|
  {
    !InGrace(es, n, f) && f.floorW > 0.0 && f.outputW.Some? && f.sampleTs != Some(lastStamp)
  }

  /** The stamp of the latest frame that was looked at and has one, or zero. */
  ghost function LastStamp(es: seq<Event>, n: nat): real
    requires n <= |es|
  {
    if n == 0 then 0.0
    else
      var last, e := LastStamp(es, n - 1), es[n - 1];
      if e.Poll? && LookedAt(es, n - 1, e.frame, last) && e.frame.sampleTs.Some? then e.frame.sampleTs.value else last
  }

  /** What event `i` shows the detector: 300 W and more is power, the floor and less is none. */
  ghost function SightOf(es: seq<Event>, i: nat): Sight
    requires i < |es|
  {
    match es[i]
    case Dismiss => Cleared
    case Poll(f) =>
      if !f.acOn then PortOff
      else if InGrace(es, i, f) then Graced
      else if !LookedAt(es, i, f, LastStamp(es, i)) then Quiet
      else if f.outputW.value >= 300.0 then High
      else if f.outputW.value <= f.floorW then Low
      else Mid
    case _ => Quiet
  }

  lemma GraceStep(s: State, e: Event)
    ensures Apply(s, e).lastUserOff == if e.UserOff? then e.at else s.lastUserOff
    ensures Apply(s, e).pendingOff == match e
                                      case IntentAdded(t) => s.pendingOff + {t}
                                      case IntentDiscarded(t) => s.pendingOff - {t}
                                      case _ => s.pendingOff
  {
  }

  lemma PendingStep(es: seq<Event>, n: nat, token: nat)
    requires 0 < n <= |es|
    ensures Pending(es, n, token) <==>
            es[n - 1] == IntentAdded(token) || (Pending(es, n - 1, token) && es[n - 1] != IntentDiscarded(token))
  {
  }

  lemma {:induction false} IntentsArePending(es: seq<Event>, n: nat, token: nat)
    requires n <= |es|
    ensures At(es, n).lastUserOff == LastUserOff(es, n)
    ensures token in At(es, n).pendingOff <==> Pending(es, n, token)
  {
    if n > 0 {
      IntentsArePending(es, n - 1, token);
      GraceStep(At(es, n - 1), es[n - 1]);
      PendingStep(es, n, token);
    }
  }

  lemma GraceExactly(es: seq<Event>, n: nat, f: Frame)
    requires n <= |es|
    ensures GraceActive(At(es, n), f) <==> InGrace(es, n, f)
  {
    IntentsArePending(es, n, 0);
    if token: nat :| token in At(es, n).pendingOff {
      IntentsArePending(es, n, token);
    }
    if token: nat :| Pending(es, n, token) {
      IntentsArePending(es, n, token);
    }
  }

  predicate Tracks(s: State, e: Event) {
    e.Poll? && !GraceActive(s, e.frame) && !Untracked(s, e.frame)
  }

  lemma StampStep(s: State, e: Event)
    ensures Apply(s, e).lastSample ==
            if Tracks(s, e) && e.frame.sampleTs.Some? then e.frame.sampleTs.value else s.lastSample
  {
  }

  /** The stamp that marks cached frames is that of the latest frame looked at. */
  lemma {:induction false} StampsAreHistory(es: seq<Event>, n: nat)
    requires n <= |es|
    ensures At(es, n).lastSample == LastStamp(es, n)
  {
    if n > 0 {
      StampsAreHistory(es, n - 1);
      StampStep(At(es, n - 1), es[n - 1]);
      if es[n - 1].Poll? {
        GraceExactly(es, n - 1, es[n - 1].frame);
      }
    }
  }

  lemma SightsAreHistory(es: seq<Event>, i: nat)
    requires i < |es|
    ensures Seen(es, i) == SightOf(es, i)
  {
    StampsAreHistory(es, i);
    if es[i].Poll? {
      GraceExactly(es, i, es[i].frame);
    }
  }

  ghost function Looks(es: seq<Event>): (ls: seq<Look>)
    ensures |ls| == |es|
  {
    seq(|es|, i requires 0 <= i < |es| => Look(SightOf(es, i), Clock(es, i + 1)))
  }

  lemma {:induction false} DetectorFollowsLooks(es: seq<Event>, n: nat)
    requires n <= |es|
    ensures Det(es, n) == After(Looks(es), n)
  {
    if n > 0 {
      DetectorFollowsLooks(es, n - 1);
      SightsAreHistory(es, n - 1);
      var look := Look(Seen(es, n - 1), Clock(es, n));
      DetectorAbstracts(At(es, n - 1), es[n - 1], look.time);
      assert Looks(es)[n - 1] == look;
    }
  }

  lemma {:induction false} ClockAdvances(es: seq<Event>, i: nat, n: nat)
    requires i <= n <= |es| && GoodClock(es)
    ensures Clock(es, i) <= Clock(es, n)
  {
    if i < n {
      ClockAdvances(es, i, n - 1);
    }
  }

  lemma LooksInOrder(es: seq<Event>)
    requires GoodClock(es)
    ensures InOrder(Looks(es))
  {
    var ls := Looks(es);
    forall i, j | 0 <= i < j < |ls| ensures ls[i].time <= ls[j].time {
      ClockAdvances(es, i + 1, j + 1);
    }
    forall i | 0 <= i < |ls| && (ls[i].sight == Low || ls[i].sight == High) ensures ls[i].time > 0.0 {
      assert SightOf(es, i) == ls[i].sight && es[i].Poll?;
    }
  }

  /**
   * The episode latch means exactly what the history shows: it is set after `n` events if and only
   * if a full signature completed and nothing has cleared it since. It never times out.
   */
  lemma {:induction false} LatchedExactly(es: seq<Event>, n: nat)
    requires n <= |es| && GoodClock(es)
    ensures At(es, n).tripActive <==> Suspected(Looks(es), n)
  {
    LooksInOrder(es);
    DetectorFollowsLooks(es, n);
    TripExactly(Looks(es), n);
  }

  // ---------- every answer, from the history ----------

  /** Power cuts answered since the signature that stands after `n` events completed. */
  ghost function CutsInEpisode(es: seq<Event>, n: nat): nat
    requires n <= |es|
  {
    if n == 0 || !Suspected(Looks(es), n) then 0
    else CutsInEpisode(es, n - 1) + if Cuts(es, n - 1) then 1 else 0
  }

  /** The time of the last cut since the last dismissal, or zero. */
  function LastCutTime(es: seq<Event>, n: nat): real
    requires n <= |es|
  {
    if n == 0 || es[n - 1].Dismiss? then 0.0
    else if Cuts(es, n - 1) then es[n - 1].frame.now
    else LastCutTime(es, n - 1)
  }

  lemma BooksStep(s: State, e: Event)
    ensures var t, cut := Apply(s, e), CutsNow(s, e);
            && t.lastAttempt == (if e.Dismiss? then 0.0 else if cut then e.frame.now else s.lastAttempt)
            && (t.tripActive ==>
                  t.episodeCycles == (if s.tripActive then s.episodeCycles else 0) + if cut then 1 else 0)
  {
  }

  /** The counters the state keeps are the counts the history shows. */
  lemma {:induction false} BooksAreCounts(es: seq<Event>, n: nat)
    requires n <= |es| && GoodClock(es)
    ensures At(es, n).lastAttempt == LastCutTime(es, n)
    ensures CutsInEpisode(es, n) == if At(es, n).tripActive then At(es, n).episodeCycles else 0
  {
    if n > 0 {
      BooksAreCounts(es, n - 1);
      LatchedExactly(es, n);
      BooksStep(At(es, n - 1), es[n - 1]);
    }
  }

  /** What the tick answers, given whether the latch stands after it, grace, cuts so far and pacing. */
  function Answer(latched: bool, grace: bool, cuts: nat, paced: bool): Action {
    if !latched then Idle
    else if grace then UserGrace
    else if cuts >= 2 then Error
    else if paced then Cycle
    else Waiting
  }

  lemma AnswerOf(s: State, f: Frame)
    ensures Tick(s, f).1 ==
            Answer(Tick(s, f).0.tripActive, GraceActive(s, f), if s.tripActive then s.episodeCycles else 0,
                   f.now - s.lastAttempt >= f.retryS)
    ensures Tick(s, f).1 == Cycle ==> f.acOn
  {
  }

  /**
   * Every answer of every run is a function of the history: idle unless a completed signature stands
   * uncleared; then grace while the user's OFF is pending or recent; then an error once the episode
   * has had its two cuts; then a cut if the retry interval has passed since the last one, else waiting.
   */
  lemma {:induction false} AnswersExactly(es: seq<Event>, n: nat)
    requires n < |es| && GoodClock(es) && es[n].Poll?
    ensures Tick(At(es, n), es[n].frame).1 ==
            Answer(Suspected(Looks(es), n + 1), InGrace(es, n, es[n].frame), CutsInEpisode(es, n),
                   es[n].frame.now - LastCutTime(es, n) >= es[n].frame.retryS)
  {
    LatchedExactly(es, n + 1);
    GraceExactly(es, n, es[n].frame);
    BooksAreCounts(es, n);
    AnswerOf(At(es, n), es[n].frame);
  }

  /**
   * When power is cut: exactly on a tick without user grace, while a completed signature stands
   * uncleared, the episode has a cut left, and the retry interval has passed since the last cut. In
   * particular every cut has the port reporting on.
   */
  lemma {:induction false} CutsExactlyWhenJustified(es: seq<Event>, n: nat)
    requires n < |es| && GoodClock(es) && es[n].Poll?
    ensures Cuts(es, n) <==>
              && Suspected(Looks(es), n + 1)
              && !InGrace(es, n, es[n].frame)
              && CutsInEpisode(es, n) < 2
              && es[n].frame.now - LastCutTime(es, n) >= es[n].frame.retryS
    ensures Cuts(es, n) ==> es[n].frame.acOn
  {
    AnswersExactly(es, n);
    AnswerOf(At(es, n), es[n].frame);
  }

  // ---------- the badge, from the history ----------

  /** The tick after the first `i` events answers with an error, as the history has it. */
  ghost predicate ErrorShown(es: seq<Event>, i: nat)
    requires i < |es|
  {
    && es[i].Poll?
    && Answer(Suspected(Looks(es), i + 1), InGrace(es, i, es[i].frame), CutsInEpisode(es, i),
              es[i].frame.now - LastCutTime(es, i) >= es[i].frame.retryS) == Error
  }

  /** The signature stood uncleared after every event from `i` on. */
  ghost predicate StoodSince(es: seq<Event>, i: nat, n: nat)
    requires n <= |es|
  {
    forall k: nat | i < k <= n :: Suspected(Looks(es), k)
  }

  ghost predicate ErrorStands(es: seq<Event>, n: nat)
    requires n <= |es|
  {
    exists i: nat :: i < n && ErrorShown(es, i) && StoodSince(es, i, n)
  }

  lemma StoodStep(es: seq<Event>, i: nat, n: nat)
    requires i < n <= |es|
    ensures StoodSince(es, i, n) <==> StoodSince(es, i, n - 1) && Suspected(Looks(es), n)
  {
  }

  lemma ErrorGoesOn(es: seq<Event>, n: nat)
    requires 0 < n <= |es| && Suspected(Looks(es), n)
    ensures ErrorShown(es, n - 1) || ErrorStands(es, n - 1) ==> ErrorStands(es, n)
  {
    if ErrorShown(es, n - 1) {
      StoodStep(es, n - 1, n);
    } else if ErrorStands(es, n - 1) {
      var i: nat :| i < n - 1 && ErrorShown(es, i) && StoodSince(es, i, n - 1);
      StoodStep(es, i, n);
    }
  }

  lemma ErrorStood(es: seq<Event>, n: nat)
    requires 0 < n <= |es| && ErrorStands(es, n)
    ensures Suspected(Looks(es), n) && (ErrorShown(es, n - 1) || ErrorStands(es, n - 1))
  {
    var i: nat :| i < n && ErrorShown(es, i) && StoodSince(es, i, n);
    StoodStep(es, i, n);
  }

  /** The badge is set by an error answer and kept for as long as the episode stays latched. */
  lemma BadgeStep(s: State, e: Event)
    requires EpisodeBooks(s)
    ensures var t := Apply(s, e);
            t.badge <==> ((e.Poll? && Tick(s, e.frame).1 == Error) || s.badge) && t.tripActive
  {
  }

  /**
   * The badge tells why recovery stopped, neither too early nor too late: it shows after `n` events if
   * and only if some tick answered with an error and the signature has stood after every event since.
   */
  lemma {:induction false} BadgeExactly(es: seq<Event>, n: nat)
    requires n <= |es| && GoodClock(es)
    ensures At(es, n).badge <==> ErrorStands(es, n)
  {
    if n > 0 {
      BadgeExactly(es, n - 1);
      BadgeMeansExhausted(es, n - 1);
      BadgeStep(At(es, n - 1), es[n - 1]);
      LatchedExactly(es, n);
      if Suspected(Looks(es), n) {
        ErrorGoesOn(es, n);
      }
      if ErrorStands(es, n) {
        ErrorStood(es, n);
      }
      if es[n - 1].Poll? {
        AnswersExactly(es, n - 1);
      }
    }
  }

  // ---------- cached frames ----------

  /** The port flag of the latest tracked frame. */
  function LastPort(es: seq<Event>, n: nat): bool
    requires n <= |es|
  {
    if n == 0 then true
    else if Tracks(At(es, n - 1), es[n - 1]) then es[n - 1].frame.acOn
    else LastPort(es, n - 1)
  }

  /** A tick outside grace that serves the latest tracked frame once more. */
  predicate Reserves(es: seq<Event>, i: nat)
    requires i < |es|
  {
    && es[i].Poll? && !GraceActive(At(es, i), es[i].frame)
    && es[i].frame.sampleTs == Some(At(es, i).lastSample)
    && es[i].frame.acOn == LastPort(es, i)
  }

  /** The first `n` events without the re-served frames. */
  function WithoutCached(es: seq<Event>, n: nat): seq<Event>
    requires n <= |es|
  {
    if n == 0 then []
    else if Reserves(es, n - 1) then WithoutCached(es, n - 1)
    else WithoutCached(es, n - 1) + [es[n - 1]]
  }

  /** The detector, and everything the classification of later frames depends on. */
  ghost predicate SameDetection(s: State, t: State) {
    && DetectorOf(s) == DetectorOf(t)
    && s.lastSample == t.lastSample && s.lastUserOff == t.lastUserOff && s.pendingOff == t.pendingOff
  }

  lemma SameDetectionStep(s: State, t: State, e: Event)
    requires SameDetection(s, t)
    ensures SameDetection(Apply(s, e), Apply(t, e))
  {
    var now := if e.Poll? then e.frame.now else 0.0;
    DetectorAbstracts(s, e, now);
    DetectorAbstracts(t, e, now);
    StampStep(s, e);
    StampStep(t, e);
    GraceStep(s, e);
    GraceStep(t, e);
    assert Classify(s, e) == Classify(t, e);
  }

  lemma CachedFrameIsInert(s: State, f: Frame)
    requires !GraceActive(s, f) && f.sampleTs == Some(s.lastSample)
    requires !f.acOn ==> s.firstLow == 0.0 && s.lowSamples == 0 && !s.tripActive
    ensures SameDetection(Tick(s, f).0, s)
  {
  }

  lemma {:induction false} OffMeansClear(es: seq<Event>, n: nat)
    requires n <= |es|
    ensures var s := At(es, n);
            LastPort(es, n) || (s.firstLow == 0.0 && s.lowSamples == 0 && !s.tripActive)
  {
    if n > 0 {
      OffMeansClear(es, n - 1);
    }
  }

  /**
   * Stuttering invariance: serving a cached frame again never moves the detector. Dropping every
   * such tick from a run leaves the detector as it was after each remaining event.
   */
  lemma {:induction false} CachedFramesDoNotCount(es: seq<Event>, n: nat)
    requires n <= |es|
    ensures SameDetection(At(WithoutCached(es, n), |WithoutCached(es, n)|), At(es, n))
  {
    if n > 0 {
      CachedFramesDoNotCount(es, n - 1);
      var kept, e := WithoutCached(es, n - 1), es[n - 1];
      if Reserves(es, n - 1) {
        OffMeansClear(es, n - 1);
        CachedFrameIsInert(At(es, n - 1), e.frame);
      } else {
        AtAppend(kept, [e], |kept|);
        SameDetectionStep(At(kept, |kept|), At(es, n - 1), e);
        assert At(kept + [e], |kept| + 1) == Apply(At(kept, |kept|), e);
      }
    }
  }
}
