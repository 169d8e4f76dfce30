/** System charge from the main unit and the nearest snapshot of its expansion packs. */
module PackLookup {
  import opened Prelude
  import opened Arithmetic
  import WeightedSoc

  ghost predicate Increasing(ts: seq<int>) {
    forall i, j | 0 <= i < j < |ts| :: ts[i] < ts[j]
  }

  /** `bisect.bisect_left`: how many entries lie before `target`. */
  method BisectLeft(ts: seq<int>, target: int) returns (i: nat)
    requires Increasing(ts)
    ensures i <= |ts|
    ensures forall k | 0 <= k < i :: ts[k] < target
    ensures forall k | i <= k < |ts| :: ts[k] >= target
  {
    i := 0;
    var hi := |ts|;
    while i < hi
      invariant 0 <= i <= hi <= |ts|
      invariant forall k | 0 <= k < i :: ts[k] < target
      invariant forall k | hi <= k < |ts| :: ts[k] >= target
    {
      var mid := (i + hi) / 2;
      if ts[mid] < target {
        i := mid + 1;
      } else {
        hi := mid;
      }
    }
  }

  predicate InWindow(t: int, target: int, window: int) {
    target - window <= t < target + window
  }

  function Distance(t: int, target: int): nat {
    if t < target then target - t else t - target
  }

  /** The window in terms of distance: nearer than its width, or at its very start; its end is out. */
  lemma WindowByDistance(t: int, target: int, window: int)
    ensures InWindow(t, target, window) <==> Distance(t, target) < window || (window > 0 && t + window == target)
    ensures t == target + Distance(t, target) || t == target - Distance(t, target)
  {
  }

  /** The full search: no snapshot in the window is closer, and of two equally close the later is taken. */
  ghost predicate Closest(ts: seq<int>, target: int, window: int, best: int) {
    && best in ts && InWindow(best, target, window)
    && forall k | 0 <= k < |ts| && InWindow(ts[k], target, window) ::
         Distance(best, target) < Distance(ts[k], target)
         || (Distance(best, target) == Distance(ts[k], target) && ts[k] <= best)
  }

  /** The two neighbours of `target` are enough: the answer is that of a search through every snapshot. */
  method NearestSnapshot(ts: seq<int>, target: int, window: int) returns (best: Option<int>)
    requires Increasing(ts)
    ensures best.Some? ==> Closest(ts, target, window, best.value)
    ensures best.None? <==> forall k | 0 <= k < |ts| :: !InWindow(ts[k], target, window)
  {
    var i := BisectLeft(ts, target);
    best := None;
    if i < |ts| && InWindow(ts[i], target, window) {
      best := Some(ts[i]);
    }
    if i > 0 && InWindow(ts[i - 1], target, window) {
      if best.None? || Distance(ts[i - 1], target) < Distance(best.value, target) {
        best := Some(ts[i - 1]);
      }
    }
  }

  /** Two closest snapshots are the same snapshot. */
  lemma ClosestIsUnique(ts: seq<int>, target: int, window: int, a: int, b: int)
    requires Closest(ts, target, window, a) && Closest(ts, target, window, b)
    ensures a == b
  {
    var i :| 0 <= i < |ts| && ts[i] == a;
    var j :| 0 <= j < |ts| && ts[j] == b;
  }

  // ---------- the weighted result ----------

  function Total(xs: seq<real>): real {
    if xs == [] then 0.0 else xs[0] + Total(xs[1..])
  }

  function TotalWh(packs: seq<real>, mainWh: int, packWh: int): int {
    mainWh + |packs| * packWh
  }

  /** The charge of the main unit and equally sized packs, weighted by capacity. */
  function Weighted(mainSoc: real, packs: seq<real>, mainWh: int, packWh: int): real
    requires TotalWh(packs, mainWh, packWh) > 0
  {
    Mix(mainSoc, mainWh as real, Total(packs), packWh as real, TotalWh(packs, mainWh, packWh) as real)
  }

  /** What one snapshot makes of the main charge: no readings, or no capacity, leaves it as it is. */
  function SnapshotSoc(mainSoc: real, packs: seq<real>, mainWh: int, packWh: int): real {
    if packs == [] || TotalWh(packs, mainWh, packWh) <= 0 then mainSoc
    else Clamp(Weighted(mainSoc, packs, mainWh, packWh))
  }

  /** What packs of this capacity hold, one after the other. */
  function Held(packs: seq<real>, packWh: int): real {
    if packs == [] then 0.0 else packs[0] * packWh as real + Held(packs[1..], packWh)
  }

  lemma {:induction false} HeldIsTotal(packs: seq<real>, packWh: int)
    ensures Held(packs, packWh) == Total(packs) * packWh as real
  {
    if packs != [] {
      HeldIsTotal(packs[1..], packWh);
      var a, b, p := packs[0], Total(packs[1..]), packWh as real;
      assert (a + b) * p == a * p + b * p;
    }
  }

  method WeighSnapshot(mainSoc: real, packs: seq<real>, mainWh: int, packWh: int) returns (soc: real)
    ensures soc == SnapshotSoc(mainSoc, packs, mainWh, packWh)
  {
    if packs == [] {
      return mainSoc;
    }
    var totalWh := TotalWh(packs, mainWh, packWh);
    if totalWh <= 0 {
      return mainSoc;
    }
    var sum := 0.0;
    for i := 0 to |packs|
      invariant sum + Held(packs[i..], packWh) == Held(packs, packWh)
    {
      assert packs[i..][1..] == packs[i + 1..];
      sum := sum + packs[i] * packWh as real;
    }
    HeldIsTotal(packs, packWh);
    var mean := (mainSoc * mainWh as real + sum) / totalWh as real;
    assert mean == Weighted(mainSoc, packs, mainWh, packWh);
    soc := Clamp(mean);
  }

  function PacksAt(packsByTs: map<int, seq<real>>, t: int): seq<real> {
    if t in packsByTs then packsByTs[t] else []
  }

  /** The result by full search: the closest snapshot of all decides; without one the main charge stays as it is. */
  ghost function SystemSoc(mainSoc: real, target: int, packsByTs: map<int, seq<real>>, ts: seq<int>,
                           mainWh: int, packWh: int, window: int): real
  {
    if mainWh == 0 || packWh == 0 || !exists best :: Closest(ts, target, window, best) then mainSoc
    else
      var best :| Closest(ts, target, window, best);
      SnapshotSoc(mainSoc, PacksAt(packsByTs, best), mainWh, packWh)
  }

  /** `_capacity_weighted_soc`, a missing capacity hint arriving as zero. */
  method CapacityWeightedSoc(mainSoc: real, target: int, packsByTs: map<int, seq<real>>, ts: seq<int>,
                             mainWh: int, packWh: int, window: int) returns (soc: real)
    requires Increasing(ts)
    ensures soc == SystemSoc(mainSoc, target, packsByTs, ts, mainWh, packWh, window)
    ensures mainWh == 0 || packWh == 0 ==> soc == mainSoc
    ensures (forall k | 0 <= k < |ts| :: !InWindow(ts[k], target, window)) ==> soc == mainSoc
    ensures forall best | Closest(ts, target, window, best) && mainWh != 0 && packWh != 0 ::
              soc == if best in packsByTs then SnapshotSoc(mainSoc, packsByTs[best], mainWh, packWh) else mainSoc
  {
    if mainWh == 0 || packWh == 0 || ts == [] {
      return mainSoc;
    }
    var found := NearestSnapshot(ts, target, window);
    if found.None? {
      return mainSoc;
    }
    forall other | Closest(ts, target, window, other) ensures other == found.value {
      ClosestIsUnique(ts, target, window, other, found.value);
    }
    soc := WeighSnapshot(mainSoc, PacksAt(packsByTs, found.value), mainWh, packWh);
  }

  /** The snapshot has readings and the capacities add up to something. */
  predicate Weighs(packs: seq<real>, mainWh: int, packWh: int) {
    packs != [] && TotalWh(packs, mainWh, packWh) > 0
  }

  /**
   * The result stays in 0..100 exactly when the main charge does, or both capacities are given and
   * the closest snapshot in the window has readings to weigh: only then is it clamped.
   */
  lemma InRangeExactly(mainSoc: real, target: int, packsByTs: map<int, seq<real>>, ts: seq<int>,
                       mainWh: int, packWh: int, window: int)
    ensures 0.0 <= SystemSoc(mainSoc, target, packsByTs, ts, mainWh, packWh, window) <= 100.0 <==>
            || 0.0 <= mainSoc <= 100.0
            || (mainWh != 0 && packWh != 0
                && exists best :: Closest(ts, target, window, best) && Weighs(PacksAt(packsByTs, best), mainWh, packWh))
  {
    if a, b :| Closest(ts, target, window, a) && Closest(ts, target, window, b) && a != b {
      ClosestIsUnique(ts, target, window, a, b);
    }
  }

  /** A charge of 150 percent with the only snapshot outside the half-hour window is returned as 150 percent. */
  lemma OutOfRangeExample()
    ensures SystemSoc(150.0, 0, map[5000 := [50.0]], [5000], 1000, 1000, 1800) == 150.0
  {
    assert forall best | Closest([5000], 0, 1800, best) :: best == 5000;
  }

  lemma {:induction false} TotalBetween(xs: seq<real>, lo: real, hi: real)
    requires forall i | 0 <= i < |xs| :: lo <= xs[i] <= hi
    ensures lo * |xs| as real <= Total(xs) <= hi * |xs| as real
  {
    if xs != [] {
      TotalBetween(xs[1..], lo, hi);
      var n := |xs| as real - 1.0;
      assert lo * (n + 1.0) == lo * n + lo && hi * (n + 1.0) == hi * n + hi;
    }
  }

  function Mix(s: real, m: real, t: real, p: real, w: real): real
    requires w != 0.0
  {
    (s * m + t * p) / w
  }

  lemma MixBetween(s: real, m: real, t: real, n: real, p: real, w: real, lo: real, hi: real)
    requires m > 0.0 && p > 0.0 && n >= 0.0 && lo <= s <= hi && lo * n <= t <= hi * n && w == m + n * p
    ensures w > 0.0 && lo <= Mix(s, m, t, p, w) <= hi
  {
    RealMulMonotone(0.0, n, p);
    RealMulMonotone(lo, s, m);
    RealMulMonotone(s, hi, m);
    RealMulMonotone(lo * n, t, p);
    RealMulMonotone(t, hi * n, p);
    assert lo * w == lo * m + (lo * n) * p && hi * w == hi * m + (hi * n) * p;
    QuotientBetween(s * m + t * p, w, lo, hi);
  }

  lemma TotalAsReal(packs: seq<real>, mainWh: int, packWh: int)
    ensures TotalWh(packs, mainWh, packWh) as real == mainWh as real + |packs| as real * packWh as real
  {
  }

  /** The weighted charge lies between the least and the greatest of the charges that enter it. */
  lemma WeightedBetween(mainSoc: real, packs: seq<real>, mainWh: int, packWh: int, lo: real, hi: real)
    requires mainWh > 0 && packWh > 0
    requires lo <= mainSoc <= hi && forall i | 0 <= i < |packs| :: lo <= packs[i] <= hi
    ensures TotalWh(packs, mainWh, packWh) > 0
    ensures lo <= Weighted(mainSoc, packs, mainWh, packWh) <= hi
  {
    TotalBetween(packs, lo, hi);
    TotalAsReal(packs, mainWh, packWh);
    MixBetween(mainSoc, mainWh as real, Total(packs), |packs| as real, packWh as real,
               TotalWh(packs, mainWh, packWh) as real, lo, hi);
  }

  /** With charges in 0..100 the final clamp changes nothing, and the result stays in 0..100. */
  lemma ClampIsIdentity(mainSoc: real, packs: seq<real>, mainWh: int, packWh: int)
    requires mainWh > 0 && packWh > 0 && packs != []
    requires 0.0 <= mainSoc <= 100.0 && forall i | 0 <= i < |packs| :: 0.0 <= packs[i] <= 100.0
    ensures TotalWh(packs, mainWh, packWh) > 0
    ensures SnapshotSoc(mainSoc, packs, mainWh, packWh) == Weighted(mainSoc, packs, mainWh, packWh)
  {
    WeightedBetween(mainSoc, packs, mainWh, packWh, 0.0, 100.0);
  }

  /** The packs as units of the live overlays. */
  function Units(packs: seq<real>, packWh: int): seq<WeightedSoc.Unit> {
    if packs == [] then [] else [WeightedSoc.Unit(packs[0], packWh as real)] + Units(packs[1..], packWh)
  }

  lemma {:induction false} UnitsAddUp(packs: seq<real>, packWh: int)
    requires packWh > 0
    ensures WeightedSoc.WhOf(Units(packs, packWh)) == |packs| as real * packWh as real
    ensures WeightedSoc.StoredOf(Units(packs, packWh)) == Total(packs) * packWh as real / 100.0
  {
    if packs != [] {
      UnitsAddUp(packs[1..], packWh);
      WeightedSoc.SumsCons(WeightedSoc.Unit(packs[0], packWh as real), Units(packs[1..], packWh));
    }
  }

  /** What the main unit and its packs weigh and hold together. */
  lemma AllAddUp(mainSoc: real, packs: seq<real>, mainWh: int, packWh: int)
    returns (all: seq<WeightedSoc.Unit>, n: real, w: real)
    requires mainWh > 0 && packWh > 0
    ensures all == [WeightedSoc.Unit(mainSoc, mainWh as real)] + Units(packs, packWh)
    ensures WeightedSoc.WhOf(all) == w == TotalWh(packs, mainWh, packWh) as real && w > 0.0
    ensures WeightedSoc.StoredOf(all) == n / 100.0 && Weighted(mainSoc, packs, mainWh, packWh) == n / w
  {
    var head := WeightedSoc.Unit(mainSoc, mainWh as real);
    all := [head] + Units(packs, packWh);
    UnitsAddUp(packs, packWh);
    WeightedSoc.SumsCons(head, Units(packs, packWh));
    TotalAsReal(packs, mainWh, packWh);
    RealMulSign(|packs| as real, packWh as real);
    n, w := mainSoc * mainWh as real + Total(packs) * packWh as real, TotalWh(packs, mainWh, packWh) as real;
  }

  lemma PercentOfHundredth(x: real, w: real)
    requires w != 0.0
    ensures WeightedSoc.Percent(x / 100.0, w) == x / w
  {
    assert x / 100.0 / w * 100.0 == x / w;
  }

  lemma SameMean(units: seq<WeightedSoc.Unit>, n: real, w: real, mean: real)
    requires w > 0.0 && mean == n / w && WeightedSoc.WhOf(units) == w && WeightedSoc.StoredOf(units) == n / 100.0
    ensures WeightedSoc.Weighted(units) == Some(Clamp(mean))
  {
    PercentOfHundredth(n, w);
  }

  /**
   * Two programs, one mean: the charge that history computes for a row is the one the live overlay
   * computes for the main unit and its packs, clamp included.
   */
  lemma AgreesWithOverlay(mainSoc: real, packs: seq<real>, mainWh: int, packWh: int)
    requires mainWh > 0 && packWh > 0 && packs != []
    ensures WeightedSoc.Weighted([WeightedSoc.Unit(mainSoc, mainWh as real)] + Units(packs, packWh))
            == Some(SnapshotSoc(mainSoc, packs, mainWh, packWh))
  {
    var all, n, w := AllAddUp(mainSoc, packs, mainWh, packWh);
    SameMean(all, n, w, Weighted(mainSoc, packs, mainWh, packWh));
  }
}
