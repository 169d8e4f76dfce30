/** The collapse detector read off the sequence of what it saw, with no watchdog state in sight. */
module WatchdogSignature {
  import opened Watchdog
  import opened WatchdogRuns

  /** What one event showed the detector, and the clock at that event. */
  datatype Look = Look(sight: Sight, time: real)

  function After(ls: seq<Look>, n: nat): Detector
    requires n <= |ls|
  {
    if n == 0 then DetectorOf(FRESH) else Advance(After(ls, n - 1), ls[n - 1].sight, ls[n - 1].time)
  }

  ghost predicate InOrder(ls: seq<Look>) {
    && (forall i, j | 0 <= i < j < |ls| :: ls[i].time <= ls[j].time)
    && (forall i | 0 <= i < |ls| && (ls[i].sight == Low || ls[i].sight == High) :: ls[i].time > 0.0)
  }

  function LowsSeen(ls: seq<Look>, from: nat, to: nat): nat
    requires from <= to <= |ls|
  {
    if from == to then 0 else LowsSeen(ls, from, to - 1) + if ls[to - 1].sight == Low then 1 else 0
  }

  /** Only low frames, and events that say nothing about the load. */
  ghost predicate UnbrokenLow(ls: seq<Look>, from: nat, to: nat)
    requires to <= |ls|
  {
    forall k | from <= k < to :: ls[k].sight == Low || ls[k].sight == Quiet
  }

  ghost predicate NoHigh(ls: seq<Look>, from: nat, to: nat)
    requires to <= |ls|
  {
    forall k | from <= k < to :: ls[k].sight != High
  }

  /**
   * The hardware-trip signature: a high frame at `h`, then an unbroken low streak from `l` to `a`
   * that starts within 15 s of it, holds three distinct low frames and spans at least 6 s.
   */
  ghost predicate Signature(ls: seq<Look>, h: nat, l: nat, a: nat) {
    && h < l <= a < |ls|
    && ls[h].sight == High && ls[l].sight == Low && ls[a].sight == Low
    && NoHigh(ls, h + 1, a + 1)
    && UnbrokenLow(ls, l, a + 1)
    && LowsSeen(ls, l, a + 1) >= 3
    && ls[l].time - ls[h].time <= 15.0
    && ls[a].time - ls[l].time >= 6.0
  }

  /** Nothing here shows power, reports the port off or dismisses the error. */
  ghost predicate Uncleared(ls: seq<Look>, from: nat, to: nat)
    requires to <= |ls|
  {
    forall k | from <= k < to :: ls[k].sight == Low || ls[k].sight == Quiet || ls[k].sight == Graced
  }

  /** Some signature completed before `n` and was not cleared since. */
  ghost predicate Suspected(ls: seq<Look>, n: nat)
    requires n <= |ls|
  {
    exists h: nat, l: nat, a: nat :: Signature(ls, h, l, a) && a < n && Uncleared(ls, a + 1, n)
  }

  /** What the detector remembers, as positions: high frame `h`, streak start `l`, signature `h, sl, sa`. */
  ghost predicate Remembers(ls: seq<Look>, n: nat, h: int, l: int, sl: int, sa: int)
    requires n <= |ls|
  {
    var d := After(ls, n);
    && d.lastHigh >= 0.0 && d.firstLow >= 0.0 && (d.firstLow == 0.0 <==> d.lows == 0)
    && (d.lastHigh > 0.0 ==>
          0 <= h < n && ls[h].sight == High && ls[h].time == d.lastHigh && NoHigh(ls, h + 1, n))
    && (d.firstLow > 0.0 ==>
          0 <= l < n && ls[l].sight == Low && ls[l].time == d.firstLow && UnbrokenLow(ls, l, n)
          && LowsSeen(ls, l, n) == d.lows && (d.lastHigh > 0.0 ==> h < l))
    && (d.trip ==>
          d.lastHigh > 0.0 && 0 <= sl && 0 <= sa < n && Signature(ls, h, sl, sa) && Uncleared(ls, sa + 1, n))
  }

  lemma RecallHigh(ls: seq<Look>, n: nat, h: int, l: int, sl: int, sa: int)
    requires n < |ls| && InOrder(ls) && Remembers(ls, n, h, l, sl, sa) && ls[n].sight == High
    ensures Remembers(ls, n + 1, n, l, sl, sa)
  {
  }

  lemma RecallOther(ls: seq<Look>, n: nat, h: int, l: int, sl: int, sa: int)
    requires n < |ls| && Remembers(ls, n, h, l, sl, sa) && ls[n].sight != High && ls[n].sight != Low
    ensures Remembers(ls, n + 1, h, l, sl, sa)
  {
  }

  /** The streak's own part of what is remembered, after one more low frame. */
  lemma RecallStreak(ls: seq<Look>, n: nat, h: int, l: int, sl: int, sa: int) returns (start: int)
    requires n < |ls| && InOrder(ls) && Remembers(ls, n, h, l, sl, sa) && ls[n].sight == Low
    ensures var d := After(ls, n + 1);
            && d.firstLow > 0.0 && d.lows > 0
            && 0 <= start <= n && ls[start].sight == Low && ls[start].time == d.firstLow
            && UnbrokenLow(ls, start, n + 1)
            && LowsSeen(ls, start, n + 1) == d.lows && (d.lastHigh > 0.0 ==> h < start)
  {
    start := l;
    if After(ls, n).firstLow == 0.0 {
      start := n;
      assert LowsSeen(ls, n, n) == 0;
    }
  }

  lemma RecallLow(ls: seq<Look>, n: nat, h: int, l: int, sl: int, sa: int) returns (l': int, sl': int, sa': int)
    requires n < |ls| && InOrder(ls) && Remembers(ls, n, h, l, sl, sa) && ls[n].sight == Low
    ensures Remembers(ls, n + 1, h, l', sl', sa')
  {
    l' := RecallStreak(ls, n, h, l, sl, sa);
    sl', sa' := sl, sa;
    if After(ls, n + 1).trip && !After(ls, n).trip {
      sl', sa' := l', n;
    }
  }

  lemma RecallStep(ls: seq<Look>, n: nat, h: int, l: int, sl: int, sa: int)
    returns (h': int, l': int, sl': int, sa': int)
    requires n < |ls| && InOrder(ls) && Remembers(ls, n, h, l, sl, sa)
    ensures Remembers(ls, n + 1, h', l', sl', sa')
  {
    h', l', sl', sa' := h, l, sl, sa;
    if ls[n].sight == High {
      h' := n;
      RecallHigh(ls, n, h, l, sl, sa);
    } else if ls[n].sight == Low {
      l', sl', sa' := RecallLow(ls, n, h, l, sl, sa);
    } else {
      RecallOther(ls, n, h, l, sl, sa);
    }
  }

  lemma {:induction false} Recall(ls: seq<Look>, n: nat) returns (h: int, l: int, sl: int, sa: int)
    requires n <= |ls| && InOrder(ls)
    ensures Remembers(ls, n, h, l, sl, sa)
  {
    if n == 0 {
      return -1, -1, -1, -1;
    }
    h, l, sl, sa := Recall(ls, n - 1);
    h, l, sl, sa := RecallStep(ls, n - 1, h, l, sl, sa);
  }

  lemma {:induction false} HighIsRemembered(ls: seq<Look>, h: nat, n: nat)
    requires h < n <= |ls| && ls[h].sight == High && NoHigh(ls, h + 1, n)
    ensures After(ls, n).lastHigh == ls[h].time
  {
    if n > h + 1 {
      HighIsRemembered(ls, h, n - 1);
    }
  }

  lemma {:induction false} StreakIsRemembered(ls: seq<Look>, l: nat, n: nat)
    requires l < n <= |ls| && InOrder(ls) && ls[l].sight == Low && UnbrokenLow(ls, l, n)
    ensures 0.0 < After(ls, n).firstLow <= ls[l].time && After(ls, n).lows >= LowsSeen(ls, l, n)
  {
    if n > l + 1 {
      StreakIsRemembered(ls, l, n - 1);
    } else {
      var _, start, _, _ := Recall(ls, l);
      assert LowsSeen(ls, l, l) == 0;
    }
  }

  lemma {:induction false} SignatureLatches(ls: seq<Look>, h: nat, l: nat, a: nat, n: nat)
    requires a < n <= |ls| && InOrder(ls) && Signature(ls, h, l, a) && Uncleared(ls, a + 1, n)
    ensures After(ls, n).trip
  {
    if n > a + 1 {
      SignatureLatches(ls, h, l, a, n - 1);
    } else {
      HighIsRemembered(ls, h, n);
      StreakIsRemembered(ls, l, n);
    }
  }

  /** The latch is set exactly when a full signature completed and nothing has cleared it since. */
  lemma TripExactly(ls: seq<Look>, n: nat)
    requires n <= |ls| && InOrder(ls)
    ensures After(ls, n).trip <==> Suspected(ls, n)
  {
    if After(ls, n).trip {
      var h, l, sl, sa := Recall(ls, n);
      assert Signature(ls, h, sl, sa);
    }
    if Suspected(ls, n) {
      var h: nat, l: nat, a: nat :| Signature(ls, h, l, a) && a < n && Uncleared(ls, a + 1, n);
      SignatureLatches(ls, h, l, a, n);
    }
  }
}
