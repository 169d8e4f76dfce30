/** Capacity-weighted charge across two overlay stages: BMS packs first, then linked EcoFlow units. */
module WeightedSoc {
  import opened Prelude
  import opened Arithmetic

  /** A charge in percent and the capacity it stands for. */
  datatype Unit = Unit(soc: real, wh: real)

  /** A unit without capacity is skipped. */
  function UnitWh(u: Unit): real {
    Max(0.0, u.wh)
  }

  function UnitStored(u: Unit): real {
    if u.wh > 0.0 then u.soc * u.wh / 100.0 else 0.0
  }

  function WhOf(units: seq<Unit>): (wh: real)
    ensures wh >= 0.0
  {
    if units == [] then 0.0 else UnitWh(units[0]) + WhOf(units[1..])
  }

  function StoredOf(units: seq<Unit>): real {
    if units == [] then 0.0 else UnitStored(units[0]) + StoredOf(units[1..])
  }

  function Percent(stored: real, wh: real): real
    requires wh != 0.0
  {
    stored / wh * 100.0
  }

  function Weighted(units: seq<Unit>): Option<real> {
    if WhOf(units) <= 0.0 then None else Some(Clamp(Percent(StoredOf(units), WhOf(units))))
  }

  method WeightedSocOf(units: seq<Unit>) returns (soc: Option<real>)
    ensures soc == Weighted(units)
  {
    var totalWh, stored := 0.0, 0.0;
    for i := 0 to |units|
      invariant totalWh + WhOf(units[i..]) == WhOf(units)
      invariant stored + StoredOf(units[i..]) == StoredOf(units)
    {
      assert units[i..][1..] == units[i + 1..];
      if units[i].wh <= 0.0 {
        continue;
      }
      totalWh := totalWh + units[i].wh;
      stored := stored + units[i].soc * units[i].wh / 100.0;
    }
    if totalWh <= 0.0 {
      return None;
    }
    soc := Some(Clamp(Percent(stored, totalWh)));
  }

  lemma {:induction false} SumsAppend(a: seq<Unit>, b: seq<Unit>)
    ensures WhOf(a + b) == WhOf(a) + WhOf(b) && StoredOf(a + b) == StoredOf(a) + StoredOf(b)
  {
    var all := a + b;
    if a == [] {
      assert all == b;
    } else {
      SumsAppend(a[1..], b);
      assert all[1..] == a[1..] + b && all[0] == a[0];
    }
  }

  ghost predicate InRange(units: seq<Unit>) {
    forall i | 0 <= i < |units| :: 0.0 <= units[i].soc <= 100.0
  }

  lemma UnitInRange(u: Unit)
    requires 0.0 <= u.soc <= 100.0
    ensures 0.0 <= UnitStored(u) <= UnitWh(u)
  {
    if u.wh > 0.0 {
      RealMulMonotone(0.0, u.soc, u.wh);
      RealMulMonotone(u.soc, 100.0, u.wh);
    }
  }

  lemma {:induction false} StoredInRange(units: seq<Unit>)
    requires InRange(units)
    ensures 0.0 <= StoredOf(units) <= WhOf(units)
  {
    if units != [] {
      StoredInRange(units[1..]);
      UnitInRange(units[0]);
    }
  }

  /** With charges in 0..100 the mean needs no clamp. */
  lemma MeanNeedsNoClamp(units: seq<Unit>)
    requires InRange(units) && WhOf(units) > 0.0
    ensures Weighted(units) == Some(Percent(StoredOf(units), WhOf(units)))
    ensures 0.0 <= Percent(StoredOf(units), WhOf(units)) <= 100.0
  {
    StoredInRange(units);
    QuotientBetween(StoredOf(units), WhOf(units), 0.0, 1.0);
  }

  /** A unit that shows the mean of some stored energy holds that energy. */
  lemma HeadlineUnit(stored: real, wh: real)
    requires wh > 0.0
    ensures UnitStored(Unit(Percent(stored, wh), wh)) == stored && UnitWh(Unit(Percent(stored, wh), wh)) == wh
  {
    var q := stored / wh;
    assert q * wh == stored;
    assert q * 100.0 * wh == q * wh * 100.0;
  }

  /** A unit put in front adds its own energy and capacity. */
  lemma SumsCons(u: Unit, units: seq<Unit>)
    ensures WhOf([u] + units) == UnitWh(u) + WhOf(units) && StoredOf([u] + units) == UnitStored(u) + StoredOf(units)
  {
    var all := [u] + units;
    assert all[1..] == units && all[0] == u;
  }

  lemma HeadlineSums(packs: seq<Unit>, units: seq<Unit>, u: Unit)
    requires UnitWh(u) == WhOf(packs) && UnitStored(u) == StoredOf(packs)
    ensures WhOf([u] + units) == WhOf(packs + units) && StoredOf([u] + units) == StoredOf(packs + units)
  {
    SumsAppend(packs, units);
    SumsCons(u, units);
  }

  lemma SameSums(a: seq<Unit>, b: seq<Unit>)
    requires WhOf(a) == WhOf(b) && StoredOf(a) == StoredOf(b)
    ensures Weighted(a) == Weighted(b)
  {
  }

  /**
   * Averaging in two stages equals averaging in one: the packs' headline charge, weighted by their
   * whole capacity and averaged with the units, is the mean over packs and units together.
   */
  lemma {:induction false} TwoStagesEqualOne(packs: seq<Unit>, units: seq<Unit>)
    requires InRange(packs) && WhOf(packs) > 0.0
    ensures Weighted(packs).Some?
    ensures Weighted([Unit(Weighted(packs).value, WhOf(packs))] + units) == Weighted(packs + units)
  {
    MeanNeedsNoClamp(packs);
    HeadlineUnit(StoredOf(packs), WhOf(packs));
    var u := Unit(Weighted(packs).value, WhOf(packs));
    HeadlineSums(packs, units, u);
    SameSums([u] + units, packs + units);
  }

  // ---------- the two overlays ----------

  /** The charge and capacity fields of a telemetry row. */
  datatype Telemetry = Telemetry(
    batteryPercent: Option<real>,
    inverterSoc: Option<real>,
    capacityWh: Option<real>,
    bmsSource: bool,
    ecoflowSource: bool)

  /** A registered pack with its reading: `wh` is its configured capacity, or what its reading implies, or zero. */
  datatype Pack = Pack(wh: nat, isFresh: bool, soc: real)

  /** A linked unit: whether it has the battery role, its registered capacity, and its charge if known. */
  datatype Linked = Linked(battery: bool, wh: real, isFresh: bool, soc: Option<real>)

  function TotalWh(packs: seq<Pack>): nat {
    if packs == [] then 0 else packs[0].wh + TotalWh(packs[1..])
  }

  /** The fresh packs that carry weight. */
  function PackUnits(packs: seq<Pack>): seq<Unit> {
    if packs == [] then []
    else
      var p := packs[0];
      (if p.isFresh && p.wh > 0 then [Unit(p.soc, p.wh as real)] else []) + PackUnits(packs[1..])
  }

  /** `bms_devices.overlay_telemetry`, charge and capacity: `overrideWh` is zero when there is none. */
  method OverlayBms(tele: Telemetry, packs: seq<Pack>, useAsMain: bool, ignoreInverter: bool, overrideWh: nat)
    returns (out: Telemetry)
    ensures out == BmsOverlaid(tele, packs, useAsMain, ignoreInverter, overrideWh)
  {
    if packs == [] {
      return if ignoreInverter then Stripped(tele) else tele;
    }
    if !useAsMain && !ignoreInverter {
      return tele;
    }
    var weights: seq<Unit>, totalWh := [], 0;
    for i := 0 to |packs|
      invariant totalWh + TotalWh(packs[i..]) == TotalWh(packs)
      invariant weights + PackUnits(packs[i..]) == PackUnits(packs)
    {
      assert packs[i..][1..] == packs[i + 1..];
      var p := packs[i];
      totalWh := totalWh + p.wh;
      if !p.isFresh || p.wh <= 0 {
        continue;
      }
      weights := weights + [Unit(p.soc, p.wh as real)];
    }
    assert weights == PackUnits(packs) && totalWh == TotalWh(packs);
    var soc := WeightedSocOf(weights);
    if soc.None? {
      return if ignoreInverter then Stripped(tele) else tele;
    }
    out := tele.(inverterSoc := tele.batteryPercent, batteryPercent := Some(Round1(soc.value)), bmsSource := true);
    var cap := if overrideWh != 0 then overrideWh else totalWh;
    if cap != 0 {
      out := out.(capacityWh := Some(cap as real));
    }
    if ignoreInverter {
      out := Stripped(out);
    }
  }

  /** A voltage-based inverter charge must not leak into the headline. */
  function Stripped(t: Telemetry): Telemetry {
    t.(inverterSoc := None, batteryPercent := if t.bmsSource then t.batteryPercent else None)
  }

  function BmsOverlaid(tele: Telemetry, packs: seq<Pack>, useAsMain: bool, ignoreInverter: bool,
                       overrideWh: nat): Telemetry
  {
    var soc := Weighted(PackUnits(packs));
    if packs != [] && !useAsMain && !ignoreInverter then tele
    else if packs == [] || soc.None? then if ignoreInverter then Stripped(tele) else tele
    else
      var cap := if overrideWh != 0 then overrideWh else TotalWh(packs);
      var shown := tele.(inverterSoc := tele.batteryPercent, batteryPercent := Some(Round1(soc.value)),
                         bmsSource := true, capacityWh := if cap != 0 then Some(cap as real) else tele.capacityWh);
      if ignoreInverter then Stripped(shown) else shown
  }

  function LinkedWh(linked: seq<Linked>): real {
    if linked == [] then 0.0
    else (if linked[0].battery && linked[0].wh > 0.0 then linked[0].wh else 0.0) + LinkedWh(linked[1..])
  }

  function LinkedUnits(linked: seq<Linked>): seq<Unit> {
    if linked == [] then []
    else
      var l := linked[0];
      (if l.isFresh && l.battery && l.soc.Some? && l.wh > 0.0 then [Unit(l.soc.value, l.wh)] else [])
      + LinkedUnits(linked[1..])
  }

  function BaseWh(tele: Telemetry): real {
    if tele.capacityWh.Some? then tele.capacityWh.value else 0.0
  }

  function EcoflowOverlaid(tele: Telemetry, linked: seq<Linked>): Telemetry {
    var eco, units := LinkedWh(linked), LinkedUnits(linked);
    var sized := if eco > 0.0 then tele.(capacityWh := Some(Truncate(BaseWh(tele) + eco) as real)) else tele;
    var weights := if tele.batteryPercent.Some? && BaseWh(tele) > 0.0
                   then [Unit(tele.batteryPercent.value, BaseWh(tele))] + units else units;
    if units == [] || Weighted(weights).None? then sized
    else sized.(inverterSoc := if tele.inverterSoc.None? && !tele.bmsSource then tele.batteryPercent
                               else tele.inverterSoc,
                batteryPercent := Some(Round1(Weighted(weights).value)), ecoflowSource := true)
  }

  lemma LinkedStep(linked: seq<Linked>, i: nat)
    requires i < |linked|
    ensures var l := linked[i];
            && LinkedWh(linked[i..]) == (if l.battery && l.wh > 0.0 then l.wh else 0.0) + LinkedWh(linked[i + 1..])
            && LinkedUnits(linked[i..]) ==
               if l.isFresh && l.battery && l.soc.Some? && l.wh > 0.0
               then [Unit(l.soc.value, l.wh)] + LinkedUnits(linked[i + 1..]) else LinkedUnits(linked[i + 1..])
  {
    assert linked[i..][1..] == linked[i + 1..];
  }

  /** The loop over the linked units: the weights of the fresh ones, and the capacity of all batteries. */
  method GatherLinked(linked: seq<Linked>) returns (battWeights: seq<Unit>, ecoflowWh: real)
    ensures battWeights == LinkedUnits(linked) && ecoflowWh == LinkedWh(linked)
  {
    battWeights, ecoflowWh := [], 0.0;
    for i := 0 to |linked|
      invariant ecoflowWh + LinkedWh(linked[i..]) == LinkedWh(linked)
      invariant battWeights + LinkedUnits(linked[i..]) == LinkedUnits(linked)
    {
      LinkedStep(linked, i);
      var d := linked[i];
      if d.battery && d.wh > 0.0 {
        ecoflowWh := ecoflowWh + d.wh;
      }
      if !d.isFresh {
        continue;
      }
      if d.battery && d.soc.Some? && d.wh > 0.0 {
        Assoc(battWeights, [Unit(d.soc.value, d.wh)], LinkedUnits(linked[i + 1..]));
        battWeights := battWeights + [Unit(d.soc.value, d.wh)];
      }
    }
  }

  /** `ecoflow_devices.overlay_telemetry`, charge and capacity. */
  method OverlayEcoflow(tele: Telemetry, linked: seq<Linked>) returns (out: Telemetry)
    ensures out == EcoflowOverlaid(tele, linked)
  {
    out := tele;
    var baseWh := if out.capacityWh.Some? then out.capacityWh.value else 0.0;
    var battWeights, ecoflowWh := GatherLinked(linked);
    if ecoflowWh > 0.0 {
      out := out.(capacityWh := Some(Truncate(baseWh + ecoflowWh) as real));
    }
    if battWeights != [] {
      var weights := battWeights;
      if out.batteryPercent.Some? && baseWh > 0.0 {
        weights := [Unit(out.batteryPercent.value, baseWh)] + weights;
      }
      var soc := WeightedSocOf(weights);
      if soc.Some? {
        if out.inverterSoc.None? && !out.bmsSource {
          out := out.(inverterSoc := out.batteryPercent);
        }
        out := out.(batteryPercent := Some(Round1(soc.value)), ecoflowSource := true);
      }
    }
  }

  /**
   * With the inverter's charge ignored, nothing after both overlays depends on it: two rows that
   * differ only in the charges the inverter reported come out the same.
   */
  lemma InverterChargeIsIgnored(tele: Telemetry, other: Telemetry, packs: seq<Pack>, useAsMain: bool,
                                overrideWh: nat, linked: seq<Linked>)
    requires !tele.bmsSource && other == tele.(batteryPercent := other.batteryPercent, inverterSoc := other.inverterSoc)
    ensures EcoflowOverlaid(BmsOverlaid(tele, packs, useAsMain, true, overrideWh), linked)
            == EcoflowOverlaid(BmsOverlaid(other, packs, useAsMain, true, overrideWh), linked)
  {
  }

  // ---------- what each overlay shows ----------

  /** A pack weighs in exactly when its reading is fresh and it has capacity. */
  lemma {:induction false} PacksTakingPart(packs: seq<Pack>, u: Unit)
    ensures u in PackUnits(packs) <==>
            exists i :: 0 <= i < |packs| && packs[i].isFresh && packs[i].wh > 0
                        && u == Unit(packs[i].soc, packs[i].wh as real)
  {
    if packs != [] {
      PacksTakingPart(packs[1..], u);
      assert forall i | 0 <= i < |packs| - 1 :: packs[1..][i] == packs[i + 1];
    }
  }

  /** A linked unit weighs in exactly when it is a fresh battery with a known charge and capacity. */
  lemma {:induction false} UnitsTakingPart(linked: seq<Linked>, u: Unit)
    ensures u in LinkedUnits(linked) <==>
            u.wh > 0.0 && exists i :: 0 <= i < |linked| && linked[i] == Linked(true, u.wh, true, Some(u.soc))
  {
    if linked != [] {
      UnitsTakingPart(linked[1..], u);
      assert forall i | 0 <= i < |linked| - 1 :: linked[1..][i] == linked[i + 1];
    }
  }

  /** The linked capacity is that of the batteries, added up, whether or not they are fresh. */
  lemma {:induction false} LinkedCapacity(a: seq<Linked>, b: seq<Linked>, l: Linked)
    ensures LinkedWh([]) == 0.0 && LinkedWh([l]) == if l.battery then Max(0.0, l.wh) else 0.0
    ensures LinkedWh(a + b) == LinkedWh(a) + LinkedWh(b)
  {
    assert [l][1..] == [];
    if a == [] {
      assert a + b == b;
    } else {
      LinkedCapacity(a[1..], b, l);
      assert (a + b)[1..] == a[1..] + b && (a + b)[0] == a[0];
    }
  }

  /**
   * Every field after the BMS overlay, over all of its returns: the packs take over the headline when
   * that is asked for and some pack has weight; the inverter's own charge is then kept beside it unless
   * it is to be ignored, in which case it shows nowhere.
   */
  lemma BmsFields(tele: Telemetry, packs: seq<Pack>, useAsMain: bool, ignoreInverter: bool, overrideWh: nat)
    ensures var out := BmsOverlaid(tele, packs, useAsMain, ignoreInverter, overrideWh);
            var mean := Weighted(PackUnits(packs));
            var takesOver := (useAsMain || ignoreInverter) && WhOf(PackUnits(packs)) > 0.0;
            && (takesOver ==> mean.Some? && out.batteryPercent.Some?
                              && -0.05 <= out.batteryPercent.value - mean.value <= 0.05
                              && OneDecimal(out.batteryPercent.value))
            && (!takesOver ==> out.batteryPercent ==
                               if ignoreInverter && !tele.bmsSource then None else tele.batteryPercent)
            && out.inverterSoc == (if ignoreInverter then None
                                   else if takesOver then tele.batteryPercent else tele.inverterSoc)
            && out.capacityWh == (if takesOver then Some(HeadlineWh(packs, overrideWh) as real) else tele.capacityWh)
            && (out.bmsSource <==> tele.bmsSource || takesOver) && out.ecoflowSource == tele.ecoflowSource
  {
    if WhOf(PackUnits(packs)) > 0.0 {
      assert PackUnits(packs) != [];
      SomePackHasWeight(packs);
      Round1IsOneDecimal(Weighted(PackUnits(packs)).value);
    }
  }

  lemma {:induction false} LinkedWeigh(linked: seq<Linked>)
    ensures LinkedUnits(linked) != [] ==> WhOf(LinkedUnits(linked)) > 0.0
  {
    if linked != [] {
      LinkedWeigh(linked[1..]);
      LinkedStep(linked, 0);
      assert linked[0..] == linked;
      var l := linked[0];
      if l.isFresh && l.battery && l.soc.Some? && l.wh > 0.0 {
        SumsCons(Unit(l.soc.value, l.wh), LinkedUnits(linked[1..]));
      }
    }
  }

  /** What the linked units make of the headline when any of them takes part. */
  lemma JoinedMean(tele: Telemetry, linked: seq<Linked>) returns (joined: seq<Unit>, mean: real)
    requires LinkedUnits(linked) != []
    ensures joined == if tele.batteryPercent.Some? && BaseWh(tele) > 0.0
                      then [Unit(tele.batteryPercent.value, BaseWh(tele))] + LinkedUnits(linked)
                      else LinkedUnits(linked)
    ensures Weighted(joined) == Some(mean) && EcoflowOverlaid(tele, linked).batteryPercent == Some(Round1(mean))
    ensures -0.05 <= Round1(mean) - mean <= 0.05 && OneDecimal(Round1(mean))
  {
    joined := LinkedUnits(linked);
    LinkedWeigh(linked);
    if tele.batteryPercent.Some? && BaseWh(tele) > 0.0 {
      joined := [Unit(tele.batteryPercent.value, BaseWh(tele))] + joined;
      SumsCons(Unit(tele.batteryPercent.value, BaseWh(tele)), LinkedUnits(linked));
    }
    mean := Weighted(joined).value;
    Round1IsOneDecimal(mean);
  }

  /**
   * Every field after the EcoFlow overlay: the linked batteries add their capacity, fresh or not; those
   * that take part join the headline, alone if it has no charge or no capacity of its own; a headline
   * not yet from the packs is kept beside the new one unless something is there already.
   */
  lemma EcoflowFields(tele: Telemetry, linked: seq<Linked>)
    ensures var out, units := EcoflowOverlaid(tele, linked), LinkedUnits(linked);
            var base := if tele.capacityWh.Some? then tele.capacityWh.value else 0.0;
            var joined := if tele.batteryPercent.Some? && base > 0.0
                          then [Unit(tele.batteryPercent.value, base)] + units else units;
            && (units != [] ==> Weighted(joined).Some? && out.batteryPercent.Some?
                                && -0.05 <= out.batteryPercent.value - Weighted(joined).value <= 0.05
                                && OneDecimal(out.batteryPercent.value))
            && (units == [] ==> out.batteryPercent == tele.batteryPercent)
            && out.inverterSoc == (if units != [] && tele.inverterSoc.None? && !tele.bmsSource
                                   then tele.batteryPercent else tele.inverterSoc)
            && (LinkedWh(linked) <= 0.0 ==> out.capacityWh == tele.capacityWh)
            && (LinkedWh(linked) > 0.0 && base >= 0.0 ==>
                  out.capacityWh.Some? && 0.0 <= base + LinkedWh(linked) - out.capacityWh.value < 1.0
                  && out.capacityWh.value.Floor as real == out.capacityWh.value)
            && out.bmsSource == tele.bmsSource && (out.ecoflowSource <==> tele.ecoflowSource || units != [])
  {
    if LinkedUnits(linked) != [] {
      var _, _ := JoinedMean(tele, linked);
    }
  }

  // ---------- the pipeline ----------

  ghost predicate FreshInRange(packs: seq<Pack>) {
    forall i | 0 <= i < |packs| && packs[i].isFresh :: 0.0 <= packs[i].soc <= 100.0
  }

  ghost predicate LinkedInRange(linked: seq<Linked>) {
    forall i | 0 <= i < |linked| && linked[i].soc.Some? :: 0.0 <= linked[i].soc.value <= 100.0
  }

  /** Every pack that carries capacity has a fresh reading. */
  ghost predicate NoneStale(packs: seq<Pack>) {
    forall i | 0 <= i < |packs| && packs[i].wh > 0 :: packs[i].isFresh
  }

  lemma {:induction false} PackUnitsInRange(packs: seq<Pack>)
    requires FreshInRange(packs)
    ensures InRange(PackUnits(packs))
  {
    if packs != [] {
      PackUnitsInRange(packs[1..]);
    }
  }

  lemma {:induction false} LinkedUnitsInRange(linked: seq<Linked>)
    requires LinkedInRange(linked)
    ensures InRange(LinkedUnits(linked))
  {
    if linked != [] {
      LinkedUnitsInRange(linked[1..]);
    }
  }

  /** The headline's capacity covers the fresh packs, and exceeds them exactly when something is stale. */
  lemma {:induction false} StaleCapacity(packs: seq<Pack>)
    ensures WhOf(PackUnits(packs)) <= TotalWh(packs) as real
    ensures WhOf(PackUnits(packs)) == TotalWh(packs) as real <==> NoneStale(packs)
  {
    if packs != [] {
      StaleCapacity(packs[1..]);
      var p, later := packs[0], PackUnits(packs[1..]);
      assert TotalWh(packs) as real == p.wh as real + TotalWh(packs[1..]) as real;
      assert NoneStale(packs) <==> (p.wh > 0 ==> p.isFresh) && NoneStale(packs[1..]);
      if p.isFresh && p.wh > 0 {
        SumsCons(Unit(p.soc, p.wh as real), later);
      } else {
        assert PackUnits(packs) == later;
      }
    }
  }

  lemma QuotientShift(x: real, y: real, w: real, wh: real, shift: real, eps: real)
    requires 0.0 < wh <= w && x - y == shift * wh / 100.0 && -eps <= shift <= eps
    ensures -eps <= Percent(x, w) - Percent(y, w) <= eps
  {
    RealMulMonotone(-eps, shift, wh);
    RealMulMonotone(shift, eps, wh);
    RealMulMonotone(wh, w, eps);
    var d := (x - y) * 100.0;
    assert d == shift * wh;
    QuotientBetween(d, w, -eps, eps);
    assert x / w - y / w == (x - y) / w;
    assert d / w == (x - y) / w * 100.0;
  }

  /** Moving one charge by at most `eps` moves the mean by at most `eps`. */
  lemma MeanIsStable(a: real, b: real, wh: real, rest: seq<Unit>, eps: real)
    requires wh > 0.0 && 0.0 <= a <= 100.0 && 0.0 <= b <= 100.0 && InRange(rest) && -eps <= a - b <= eps
    ensures var x, y := Weighted([Unit(a, wh)] + rest), Weighted([Unit(b, wh)] + rest);
            x.Some? && y.Some? && -eps <= x.value - y.value <= eps
  {
    var us, vs := [Unit(a, wh)] + rest, [Unit(b, wh)] + rest;
    SumsCons(Unit(a, wh), rest);
    SumsCons(Unit(b, wh), rest);
    MeanNeedsNoClamp(us);
    MeanNeedsNoClamp(vs);
    assert a * wh - b * wh == (a - b) * wh;
    QuotientShift(StoredOf(us), StoredOf(vs), WhOf(us), wh, a - b, eps);
  }

  /** The capacity the headline stands for: the override if there is one, else that of all packs. */
  function HeadlineWh(packs: seq<Pack>, overrideWh: nat): nat {
    if overrideWh != 0 then overrideWh else TotalWh(packs)
  }

  /** The headline weighs exactly as much as the packs behind it: nothing is stale, or the override hits their sum. */
  ghost predicate WeightFits(packs: seq<Pack>, overrideWh: nat) {
    if overrideWh == 0 then NoneStale(packs) else overrideWh as real == WhOf(PackUnits(packs))
  }

  /** What the second overlay averages: the packs' mean, weighted by the headline's capacity, and the units. */
  function TwoStage(packs: seq<Pack>, linked: seq<Linked>, overrideWh: nat): seq<Unit>
    requires Weighted(PackUnits(packs)).Some?
  {
    [Unit(Weighted(PackUnits(packs)).value, HeadlineWh(packs, overrideWh) as real)] + LinkedUnits(linked)
  }

  /**
   * Both overlays in sequence, roundings included: the headline charge is within 0.1 points of the
   * two-stage mean, stale packs or not, capacity override or not.
   */
  lemma {:induction false} PipelineIsTwoStageMean(tele: Telemetry, packs: seq<Pack>, ignoreInverter: bool,
                                                  overrideWh: nat, linked: seq<Linked>)
    requires FreshInRange(packs) && LinkedInRange(linked) && WhOf(PackUnits(packs)) > 0.0
    ensures Weighted(PackUnits(packs)).Some?
    ensures var out := EcoflowOverlaid(BmsOverlaid(tele, packs, true, ignoreInverter, overrideWh), linked);
            var mean := Weighted(TwoStage(packs, linked, overrideWh));
            out.batteryPercent.Some? && mean.Some? && -0.1 <= out.batteryPercent.value - mean.value <= 0.1
  {
    var us := LinkedUnits(linked);
    PackUnitsInRange(packs);
    LinkedUnitsInRange(linked);
    StaleCapacity(packs);
    MeanNeedsNoClamp(PackUnits(packs));
    var a, wh := Weighted(PackUnits(packs)).value, HeadlineWh(packs, overrideWh) as real;
    assert 0.0 <= Round1(a) <= 100.0;
    MeanIsStable(Round1(a), a, wh, us, 0.05);
    if us == [] {
      LoneUnit(Unit(a, wh));
      assert TwoStage(packs, linked, overrideWh) == [Unit(a, wh)];
    }
  }

  lemma UnitPercent(u: Unit)
    requires u.wh > 0.0
    ensures Percent(UnitStored(u), UnitWh(u)) == u.soc
  {
    assert u.soc / 100.0 * u.wh == u.soc * u.wh / 100.0;
    QuotientBetween(u.soc * u.wh / 100.0, u.wh, u.soc / 100.0, u.soc / 100.0);
  }

  lemma LoneUnit(u: Unit)
    requires u.wh > 0.0 && 0.0 <= u.soc <= 100.0
    ensures Weighted([u]) == Some(u.soc)
  {
    SumsCons(u, []);
    assert [u] + [] == [u];
    var stored, wh := StoredOf([u]), WhOf([u]);
    assert stored == UnitStored(u) && wh == UnitWh(u);
    UnitPercent(u);
    assert Percent(stored, wh) == u.soc;
  }

  /** When the headline's weight fits the fresh packs, that is one mean over them and the units. */
  lemma {:induction false} PipelineIsOneMean(tele: Telemetry, packs: seq<Pack>, ignoreInverter: bool,
                                             overrideWh: nat, linked: seq<Linked>)
    requires FreshInRange(packs) && LinkedInRange(linked)
    requires WeightFits(packs, overrideWh) && WhOf(PackUnits(packs)) > 0.0
    ensures var out := EcoflowOverlaid(BmsOverlaid(tele, packs, true, ignoreInverter, overrideWh), linked);
            var mean := Weighted(PackUnits(packs) + LinkedUnits(linked));
            out.batteryPercent.Some? && mean.Some? && -0.1 <= out.batteryPercent.value - mean.value <= 0.1
  {
    StaleCapacity(packs);
    PackUnitsInRange(packs);
    PipelineIsTwoStageMean(tele, packs, ignoreInverter, overrideWh, linked);
    TwoStagesEqualOne(PackUnits(packs), LinkedUnits(linked));
  }

  /** The shown capacity is the override or all packs, plus all linked batteries, fresh or not, in whole watt-hours. */
  lemma {:induction false} PipelineCapacity(tele: Telemetry, packs: seq<Pack>, ignoreInverter: bool,
                                            overrideWh: nat, linked: seq<Linked>)
    requires PackUnits(packs) != []
    ensures var base := HeadlineWh(packs, overrideWh) as real;
            EcoflowOverlaid(BmsOverlaid(tele, packs, true, ignoreInverter, overrideWh), linked).capacityWh
            == Some(if LinkedWh(linked) > 0.0 then Truncate(base + LinkedWh(linked)) as real else base)
  {
    SomePackHasWeight(packs);
  }

  lemma {:induction false} SomePackHasWeight(packs: seq<Pack>)
    requires PackUnits(packs) != []
    ensures TotalWh(packs) > 0 && WhOf(PackUnits(packs)) > 0.0
  {
    var later := PackUnits(packs[1..]);
    if packs[0].isFresh && packs[0].wh > 0 {
      SumsCons(Unit(packs[0].soc, packs[0].wh as real), later);
    } else {
      assert PackUnits(packs) == later;
      SomePackHasWeight(packs[1..]);
    }
  }

  /** The mean of two groups of capacities `a` and `b`, from their own means. */
  function MeanOf(p: real, a: real, u: real, b: real): real
    requires a + b != 0.0
  {
    (p * a + u * b) / (a + b)
  }

  /** The units hold what one unit of this mean and their capacity would. */
  ghost predicate HasMean(units: seq<Unit>, mean: real) {
    StoredOf(units) == UnitStored(Unit(mean, WhOf(units))) && (WhOf(units) > 0.0 ==> Weighted(units) == Some(mean))
  }

  lemma SomeMean(units: seq<Unit>) returns (mean: real)
    requires InRange(units)
    ensures HasMean(units, mean)
  {
    StoredInRange(units);
    mean := 0.0;
    if WhOf(units) > 0.0 {
      MeanNeedsNoClamp(units);
      mean := Percent(StoredOf(units), WhOf(units));
      HeadlineUnit(StoredOf(units), WhOf(units));
    }
  }

  lemma MeanOfTwo(v: Unit, w: Unit)
    requires v.wh > 0.0 && w.wh >= 0.0
    ensures Percent(UnitStored(v) + UnitStored(w), v.wh + w.wh) == MeanOf(v.soc, v.wh, w.soc, w.wh)
  {
    var n := v.soc * v.wh + w.soc * w.wh;
    if w.wh == 0.0 {
      assert w.soc * w.wh == 0.0;
    }
    assert UnitStored(v) + UnitStored(w) == n / 100.0;
    assert n / 100.0 / (v.wh + w.wh) * 100.0 == n / (v.wh + w.wh);
  }

  lemma {:induction false} OneStageMean(a: seq<Unit>, b: seq<Unit>, p: real, u: real)
    requires InRange(a) && InRange(b) && WhOf(a) > 0.0 && HasMean(a, p) && HasMean(b, u)
    ensures WhOf(a) + WhOf(b) > 0.0 && Weighted(a + b) == Some(MeanOf(p, WhOf(a), u, WhOf(b)))
  {
    SumsAppend(a, b);
    MeanNeedsNoClamp(a + b);
    MeanOfTwo(Unit(p, WhOf(a)), Unit(u, WhOf(b)));
  }

  lemma {:induction false} HeadedMean(head: Unit, b: seq<Unit>, u: real)
    requires head.wh > 0.0 && 0.0 <= head.soc <= 100.0 && InRange(b) && HasMean(b, u)
    ensures head.wh + WhOf(b) > 0.0 && Weighted([head] + b) == Some(MeanOf(head.soc, head.wh, u, WhOf(b)))
  {
    SumsCons(head, b);
    MeanNeedsNoClamp([head] + b);
    MeanOfTwo(head, Unit(u, WhOf(b)));
  }

  lemma MeansAgree(p: real, a: real, b: real, u: real, v: real)
    requires a > 0.0 && b > 0.0 && v >= 0.0
    ensures MeanOf(p, b, u, v) == MeanOf(p, a, u, v) <==> b == a || v == 0.0 || p == u
  {
    var n1, d1 := p * b + u * v, b + v;
    var n2, d2 := p * a + u * v, a + v;
    assert n1 * d2 - n2 * d1 == (b - a) * v * (p - u);
    QuotientsEqual(n1, d1, n2, d2);
    ProductIsZero(b - a, v, p - u);
  }

  /**
   * Stale packs weigh in with the headline's capacity but not with a charge of their own, and an
   * override weighs whatever it says. The two stages then agree with the mean over fresh packs and
   * units exactly when the headline's weight fits the fresh packs (without an override: no pack with
   * capacity is stale), no unit takes part, or fresh packs and units happen to have the same mean.
   */
  lemma {:induction false} StalePacksBiasExactly(packs: seq<Pack>, linked: seq<Linked>, overrideWh: nat)
    requires FreshInRange(packs) && LinkedInRange(linked) && WhOf(PackUnits(packs)) > 0.0
    ensures Weighted(PackUnits(packs)).Some?
    ensures Weighted(TwoStage(packs, linked, overrideWh)) == Weighted(PackUnits(packs) + LinkedUnits(linked)) <==>
            || WeightFits(packs, overrideWh)
            || WhOf(LinkedUnits(linked)) == 0.0
            || Weighted(PackUnits(packs)) == Weighted(LinkedUnits(linked))
  {
    var ps, us, wh := PackUnits(packs), LinkedUnits(linked), HeadlineWh(packs, overrideWh) as real;
    PackUnitsInRange(packs);
    LinkedUnitsInRange(linked);
    StaleCapacity(packs);
    MeanNeedsNoClamp(ps);
    var p := SomeMean(ps);
    var u := SomeMean(us);
    OneStageMean(ps, us, p, u);
    HeadedMean(Unit(p, wh), us, u);
    MeansAgree(p, WhOf(ps), wh, u, WhOf(us));
  }

  /** An empty fresh pack, a large stale one and a full unit: the headline shows 50 percent, the mean is above 90. */
  lemma StalePackExample(tele: Telemetry)
    ensures var packs := [Pack(100, true, 0.0), Pack(900, false, 0.0)];
            var linked := [Linked(true, 1000.0, true, Some(100.0))];
            var mean := Weighted(PackUnits(packs) + LinkedUnits(linked));
            && EcoflowOverlaid(BmsOverlaid(tele, packs, true, false, 0), linked).batteryPercent == Some(50.0)
            && mean.Some? && mean.value > 90.0
  {
    var stale := [Pack(900, false, 0.0)];
    var packs := [Pack(100, true, 0.0)] + stale;
    var linked := [Linked(true, 1000.0, true, Some(100.0))];
    assert packs[1..] == stale && stale[1..] == [] && linked[1..] == [];
    assert PackUnits(packs) == [Unit(0.0, 100.0)] && TotalWh(packs) == 1000;
    assert LinkedUnits(linked) == [Unit(100.0, 1000.0)];
    ExampleMean(100.0);
    ExampleMean(1000.0);
    LoneUnit(Unit(0.0, 100.0));
    assert Round1(0.0) == 0.0 && Round1(50.0) == 50.0;
  }

  lemma ExampleMean(wh: real)
    requires wh > 0.0
    ensures var mean := Percent(1000.0, wh + 1000.0);
            Weighted([Unit(0.0, wh)] + [Unit(100.0, 1000.0)]) == Some(Clamp(mean))
    ensures wh == 100.0 ==> 90.0 < Clamp(Percent(1000.0, wh + 1000.0))
    ensures wh == 1000.0 ==> Clamp(Percent(1000.0, wh + 1000.0)) == 50.0
  {
    SumsCons(Unit(0.0, wh), [Unit(100.0, 1000.0)]);
    SumsCons(Unit(100.0, 1000.0), []);
    assert [Unit(100.0, 1000.0)] + [] == [Unit(100.0, 1000.0)];
  }

  lemma QuotientsEqual(a: real, b: real, c: real, d: real)
    requires b > 0.0 && d > 0.0
    ensures a / b == c / d <==> a * d - c * b == 0.0
  {
    var p, q := a / b, c / d;
    assert a == p * b && c == q * d;
    assert a * d - c * b == (p - q) * (b * d);
    ProductIsZero(p - q, b, d);
  }

  lemma ProductIsZero(x: real, y: real, z: real)
    ensures x * y * z == 0.0 <==> x == 0.0 || y == 0.0 || z == 0.0
  {
  }
}
