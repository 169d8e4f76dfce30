/** Pairing a plug's on and off firings into intervals of on-time. */
module Intervals {
  import opened Prelude

  datatype Toggle = On | Off | OtherAction

  datatype Firing = Firing(at: int, action: Toggle, ruleId: string)

  /** An interval from `onAt` up to `offAt`; an absent end means it is still running. */
  datatype Interval = Interval(onAt: int, offAt: Option<int>, duration: int, openedBy: string, closedBy: Option<string>)

  ghost predicate TimeSorted(fs: seq<Firing>) {
    forall i, j | 0 <= i < j < |fs| :: fs[i].at <= fs[j].at
  }

  /** The closed intervals so far and the firing that opened the running one. */
  datatype Pairing = Pairing(closed: seq<Interval>, running: Option<Firing>)

  function Pair(fs: seq<Firing>): Pairing {
    if fs == [] then Pairing([], None)
    else
      Next(Pair(fs[..|fs| - 1]), fs[|fs| - 1])
  }

  function Next(p: Pairing, f: Firing): Pairing {
    if f.action == On && p.running.None? then p.(running := Some(f))
    else if f.action == Off && p.running.Some? then
      var o := p.running.value;
      Pairing(p.closed + [Interval(o.at, Some(f.at), f.at - o.at, o.ruleId, Some(f.ruleId))], None)
    else p
  }

  /** The pairing as the caller sees it at time `now`. */
  function Report(p: Pairing, now: int): seq<Interval> {
    p.closed + if p.running.None? then []
               else [Interval(p.running.value.at, None, now - p.running.value.at, p.running.value.ruleId, None)]
  }

  method AutomationOnIntervals(firings: seq<Firing>, now: int) returns (intervals: seq<Interval>)
    ensures intervals == Report(Pair(firings), now)
  {
    intervals := [];
    var openAt: Option<int>, openRule := None, "";
    for i := 0 to |firings|
      invariant intervals == Pair(firings[..i]).closed
      invariant match Pair(firings[..i]).running
                case None => openAt == None
                case Some(f) => openAt == Some(f.at) && openRule == f.ruleId
    {
      var f := firings[i];
      assert firings[..i + 1][..i] == firings[..i];
      if f.action == On && openAt.None? {
        openAt, openRule := Some(f.at), f.ruleId;
      } else if f.action == Off && openAt.Some? {
        intervals := intervals + [Interval(openAt.value, Some(f.at), f.at - openAt.value, openRule, Some(f.ruleId))];
        openAt := None;
      }
    }
    assert firings[..|firings|] == firings;
    if openAt.Some? {
      intervals := intervals + [Interval(openAt.value, None, now - openAt.value, openRule, None)];
    }
  }

  // ---------- what the intervals mean ----------

  predicate Covers(iv: Interval, t: int) {
    iv.onAt <= t && (iv.offAt.Some? ==> t < iv.offAt.value)
  }

  ghost predicate CoveredBy(ivs: seq<Interval>, t: int) {
    exists k :: 0 <= k < |ivs| && Covers(ivs[k], t)
  }

  /** The plug is on at `t`: of the on and off firings at or before `t`, the latest says on. */
  ghost predicate PlugOn(fs: seq<Firing>, t: int) {
    exists i :: 0 <= i < |fs| && fs[i].at <= t && fs[i].action == On
                && forall j | i < j < |fs| && fs[j].at <= t :: fs[j].action != Off
  }

  lemma PlugOnAppend(fs: seq<Firing>, f: Firing, t: int)
    ensures PlugOn(fs + [f], t) <==>
            (f.at <= t && f.action == On) || (PlugOn(fs, t) && !(f.at <= t && f.action == Off))
  {
    var all, n := fs + [f], |fs|;
    if PlugOn(fs, t) && !(f.at <= t && f.action == Off) {
      var i :| 0 <= i < n && fs[i].at <= t && fs[i].action == On
               && forall j | i < j < n && fs[j].at <= t :: fs[j].action != Off;
      assert all[i] == fs[i];
    }
    if f.at <= t && f.action == On {
      assert all[n] == f;
    }
    if PlugOn(all, t) && !(f.at <= t && f.action == On) {
      var i :| 0 <= i <= n && all[i].at <= t && all[i].action == On
               && forall j | i < j <= n && all[j].at <= t :: all[j].action != Off;
      assert i < n && fs[i] == all[i] && all[n] == f;
      assert forall j | i < j < n && fs[j].at <= t :: all[j] == fs[j];
    }
  }

  lemma CoveredAppend(ivs: seq<Interval>, iv: Interval, t: int)
    ensures CoveredBy(ivs + [iv], t) <==> CoveredBy(ivs, t) || Covers(iv, t)
  {
    var all := ivs + [iv];
    if CoveredBy(ivs, t) {
      var k :| 0 <= k < |ivs| && Covers(ivs[k], t);
      assert Covers(all[k], t);
    }
    if Covers(iv, t) {
      assert Covers(all[|ivs|], t);
    }
  }

  /** The pairing covers the instant, the running interval being open. */
  ghost predicate OnAt(p: Pairing, t: int) {
    CoveredBy(p.closed, t) || (p.running.Some? && p.running.value.at <= t)
  }

  /** Closed intervals end at or before `bound`, in order, without overlap. */
  ghost predicate Ordered(ivs: seq<Interval>, bound: int) {
    && (forall k | 0 <= k < |ivs| :: ivs[k].offAt.Some? && ivs[k].onAt <= ivs[k].offAt.value <= bound)
    && (forall k, m | 0 <= k < m < |ivs| :: ivs[k].offAt.value <= ivs[m].onAt)
  }

  lemma {:induction false} PairIsOrdered(fs: seq<Firing>)
    requires TimeSorted(fs) && fs != []
    ensures var p, last := Pair(fs), fs[|fs| - 1].at;
            && Ordered(p.closed, last)
            && (p.running.Some? ==> p.running.value.at <= last && Ordered(p.closed, p.running.value.at))
  {
    var n := |fs| - 1;
    if n == 0 {
      assert Pair(fs[..n]) == Pairing([], None);
    } else {
      PairIsOrdered(fs[..n]);
    }
  }

  lemma NothingAfter(ivs: seq<Interval>, bound: int, t: int)
    requires Ordered(ivs, bound)
    ensures bound <= t ==> !CoveredBy(ivs, t)
  {
  }

  /** An off firing closes the running interval: what was covered before it still is, and nothing after. */
  lemma ClosingIsPointwise(closed: seq<Interval>, iv: Interval, t: int)
    requires iv.offAt.Some? && iv.onAt <= iv.offAt.value && Ordered(closed, iv.onAt)
    ensures CoveredBy(closed + [iv], t) <==> (CoveredBy(closed, t) || iv.onAt <= t) && t < iv.offAt.value
  {
    CoveredAppend(closed, iv, t);
    NothingAfter(closed, iv.onAt, t);
  }

  /** One firing, seen at one instant: `was` says whether the intervals before it cover the instant. */
  lemma PairStep(p: Pairing, f: Firing, last: int, t: int, was: bool)
    requires was <==> OnAt(p, t)
    requires last <= f.at && Ordered(p.closed, last)
    requires p.running.Some? ==> p.running.value.at <= f.at && Ordered(p.closed, p.running.value.at)
    ensures OnAt(Next(p, f), t) <==> (f.at <= t && f.action == On) || (was && !(f.at <= t && f.action == Off))
  {
    if f.action == Off {
      if p.running.Some? {
        var o := p.running.value;
        ClosingIsPointwise(p.closed, Interval(o.at, Some(f.at), f.at - o.at, o.ruleId, Some(f.ruleId)), t);
      } else {
        NothingAfter(p.closed, last, t);
      }
    }
  }

  lemma {:induction false} PairIsPointwise(fs: seq<Firing>, t: int)
    requires TimeSorted(fs)
    ensures PlugOn(fs, t) <==> OnAt(Pair(fs), t)
  {
    if fs != [] {
      var n := |fs| - 1;
      var before, f := fs[..n], fs[n];
      PairIsPointwise(before, t);
      if n > 0 {
        PairIsOrdered(before);
      }
      PairStep(Pair(before), f, if n > 0 then before[n - 1].at else f.at, t, PlugOn(before, t));
      assert fs == before + [f];
      PlugOnAppend(before, f, t);
    }
  }

  /**
   * Pairing is pointwise right: an instant lies in a returned half-open interval exactly when the
   * latest on or off firing at or before it says on.
   */
  lemma PairingIsPointwise(fs: seq<Firing>, now: int, t: int)
    requires TimeSorted(fs)
    ensures CoveredBy(Report(Pair(fs), now), t) <==> PlugOn(fs, t)
  {
    PairIsPointwise(fs, t);
    var p := Pair(fs);
    if p.running.Some? {
      CoveredAppend(p.closed, Report(p, now)[|p.closed|], t);
    } else {
      assert Report(p, now) == p.closed;
    }
  }

  /** The report is in time order, its intervals do not overlap, and only the last may be open. */
  lemma ReportIsOrdered(fs: seq<Firing>, now: int)
    requires TimeSorted(fs)
    ensures var r := Report(Pair(fs), now);
            && (forall k | 0 <= k < |r| - 1 :: r[k].offAt.Some?)
            && (forall k, m | 0 <= k < m < |r| :: r[k].onAt <= r[k].offAt.value <= r[m].onAt)
  {
    if fs != [] {
      PairIsOrdered(fs);
    }
  }

  // ---------- durations ----------

  function Durations(ivs: seq<Interval>): int {
    if ivs == [] then 0 else Durations(ivs[..|ivs| - 1]) + ivs[|ivs| - 1].duration
  }

  /** The plug is on after all these firings: the latest on or off firing says on. */
  function OnAfter(fs: seq<Firing>): bool {
    if fs == [] then false
    else match fs[|fs| - 1].action
         case On => true
         case Off => false
         case OtherAction => OnAfter(fs[..|fs| - 1])
  }

  /** The time between each firing that leaves the plug on and the next firing. */
  function OnGaps(fs: seq<Firing>): int {
    if |fs| < 2 then 0
    else
      var n := |fs| - 1;
      OnGaps(fs[..n]) + if OnAfter(fs[..n]) then fs[n].at - fs[n - 1].at else 0
  }

  lemma DurationsAppend(ivs: seq<Interval>, iv: Interval)
    ensures Durations(ivs + [iv]) == Durations(ivs) + iv.duration
  {
    assert (ivs + [iv])[..|ivs|] == ivs;
  }

  /** On-time up to `at`: the closed intervals and the running one. */
  function Total(p: Pairing, at: int): int {
    Durations(p.closed) + if p.running.Some? then at - p.running.value.at else 0
  }

  /** A firing changes what runs on, not the on-time up to its own instant. */
  lemma TotalStep(p: Pairing, f: Firing)
    ensures Total(Next(p, f), f.at) == Total(p, f.at)
  {
    if f.action == Off && p.running.Some? {
      var o := p.running.value;
      DurationsAppend(p.closed, Interval(o.at, Some(f.at), f.at - o.at, o.ruleId, Some(f.ruleId)));
    }
  }

  lemma {:induction false} PairDurations(fs: seq<Firing>)
    ensures Pair(fs).running.Some? <==> OnAfter(fs)
    ensures fs != [] ==> Total(Pair(fs), fs[|fs| - 1].at) == OnGaps(fs)
  {
    if fs != [] {
      var n := |fs| - 1;
      var before := fs[..n];
      PairDurations(before);
      TotalStep(Pair(before), fs[n]);
      if n > 0 {
        assert before[n - 1] == fs[n - 1];
      } else {
        assert Pair(before) == Pairing([], None);
      }
    }
  }

  /** The reported durations add up to exactly the time the plug was left on, up to now. */
  lemma {:induction false} DurationsAddUp(fs: seq<Firing>, now: int)
    ensures Durations(Report(Pair(fs), now)) == OnGaps(fs) + if OnAfter(fs) then now - fs[|fs| - 1].at else 0
  {
    PairDurations(fs);
    var p, r := Pair(fs), Report(Pair(fs), now);
    if p.running.Some? {
      assert r[..|p.closed|] == p.closed;
    } else {
      assert r == p.closed;
    }
  }

  /** The interval starts at an on firing and, if closed, ends at a later off firing, naming both rules. */
  ghost predicate FromFirings(iv: Interval, fs: seq<Firing>) {
    exists i, j :: 0 <= i < j < |fs|
      && fs[i].action == On && iv.onAt == fs[i].at && iv.openedBy == fs[i].ruleId
      && fs[j].action == Off && iv.offAt == Some(fs[j].at) && iv.closedBy == Some(fs[j].ruleId)
      && iv.duration == fs[j].at - fs[i].at
  }

  lemma FromFiringsGrows(iv: Interval, fs: seq<Firing>, f: Firing)
    requires FromFirings(iv, fs)
    ensures FromFirings(iv, fs + [f])
  {
    var i, j :| 0 <= i < j < |fs|
      && fs[i].action == On && iv.onAt == fs[i].at && iv.openedBy == fs[i].ruleId
      && fs[j].action == Off && iv.offAt == Some(fs[j].at) && iv.closedBy == Some(fs[j].ruleId)
      && iv.duration == fs[j].at - fs[i].at;
    var all := fs + [f];
    assert all[i] == fs[i] && all[j] == fs[j];
  }

  /** Every closed interval is bounded by the two firings it reports, and the running one by an on firing. */
  lemma {:induction false} IntervalsNameTheirRules(fs: seq<Firing>)
    ensures var p := Pair(fs);
            && (forall k | 0 <= k < |p.closed| :: FromFirings(p.closed[k], fs))
            && (p.running.Some? ==> p.running.value in fs && p.running.value.action == On)
  {
    if fs != [] {
      var n := |fs| - 1;
      var before, f := fs[..n], fs[n];
      IntervalsNameTheirRules(before);
      assert fs == before + [f];
      var p, p' := Pair(before), Pair(fs);
      forall k | 0 <= k < |p.closed| ensures FromFirings(p.closed[k], fs) {
        FromFiringsGrows(p.closed[k], before, f);
      }
      if |p'.closed| > |p.closed| {
        var i :| 0 <= i < n && before[i] == p.running.value;
        assert fs[i] == before[i];
        assert FromFirings(p'.closed[|p.closed|], fs);
      }
    }
  }
}
