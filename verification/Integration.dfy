/** What the recorded watt-hours mean: laws over whole runs that say what an area under a curve is. */
module Integration {
  import opened Prelude
  import opened Arithmetic
  import opened EnergyDb
  import opened History

  /** All energy a device has on record. */
  function OnRecord(calls: seq<Call>, sn: string): Energy {
    SumOf(RowsOf(RecordAll(calls), sn), Always())
  }

  /** Time goes forward by at most ten minutes from each reading to the next. */
  ghost predicate Close(rs: seq<Reading>) {
    forall i, j | 0 <= i < j < |rs| && j == i + 1 :: 0.0 < rs[j].ts - rs[i].ts <= 600.0
  }

  // ---------- constant power ----------

  /** Every reading shows the same watts. */
  ghost predicate Steady(rs: seq<Reading>, w: Reading) {
    forall i | 0 <= i < |rs| :: rs[i] == w.(ts := rs[i].ts)
  }

  /** What constant watts amount to over some hours, each column its own; diverted power is at most output power. */
  function Drawn(w: Reading, hours: real): Energy {
    Energy(w.inputW * hours, w.outputW * hours, w.solarW * hours, w.acInputW * hours,
           (if w.divertedW < w.outputW then w.divertedW else w.outputW) * hours)
  }

  lemma SteadyTrapezoid(w: real, dt: real)
    ensures Trapezoid(w, w, dt) == w * (dt / 3600.0)
  {
  }

  lemma SteadyArea(prev: Reading, cur: Reading, w: Reading)
    requires prev == w.(ts := prev.ts) && cur == w.(ts := cur.ts) && prev.ts < cur.ts
    ensures Area(prev, cur) == Drawn(w, (cur.ts - prev.ts) / 3600.0)
  {
    var dt := cur.ts - prev.ts;
    SteadyTrapezoid(w.inputW, dt);
    SteadyTrapezoid(w.outputW, dt);
    SteadyTrapezoid(w.solarW, dt);
    SteadyTrapezoid(w.acInputW, dt);
    SteadyTrapezoid(w.divertedW, dt);
    if w.divertedW < w.outputW {
      RealMulMonotone(w.divertedW, w.outputW, dt / 3600.0);
    } else {
      RealMulMonotone(w.outputW, w.divertedW, dt / 3600.0);
    }
  }

  lemma TimesAdd(w: real, a: real, b: real)
    ensures w * a + w * b == w * (a + b)
  {
  }

  lemma DrawnAdds(w: Reading, a: real, b: real)
    ensures Drawn(w, a).Plus(Drawn(w, b)) == Drawn(w, a + b)
  {
    TimesAdd(w.inputW, a, b);
    TimesAdd(w.outputW, a, b);
    TimesAdd(w.solarW, a, b);
    TimesAdd(w.acInputW, a, b);
    TimesAdd(if w.divertedW < w.outputW then w.divertedW else w.outputW, a, b);
  }

  /** The readings after position `i` up to `j`, and no others, end in a selected bucket. */
  ghost predicate Selects(rs: seq<Reading>, sel: int -> bool, i: nat, j: nat) {
    i <= j < |rs| && forall k | 0 < k < |rs| :: sel(BucketOf(rs[k].ts)) <==> i < k <= j
  }

  /** The energies on record so far and what one more interval adds. */
  lemma SteadyMore(was: Energy, more: Energy, w: Reading, from: Reading, prev: Reading, cur: Reading)
    requires was == Drawn(w, (prev.ts - from.ts) / 3600.0) && more == Area(prev, cur)
    requires prev == w.(ts := prev.ts) && cur == w.(ts := cur.ts) && prev.ts < cur.ts
    ensures was.Plus(more) == Drawn(w, (cur.ts - from.ts) / 3600.0)
  {
    SteadyArea(prev, cur, w);
    DrawnAdds(w, (prev.ts - from.ts) / 3600.0, (cur.ts - prev.ts) / 3600.0);
    assert (prev.ts - from.ts) / 3600.0 + (cur.ts - prev.ts) / 3600.0 == (cur.ts - from.ts) / 3600.0;
  }

  /** A reading that follows closely adds one area where its bucket is selected, else nothing. */
  lemma AreaAdded(rs: seq<Reading>, sel: int -> bool)
    requires |rs| > 1 && 0.0 < rs[|rs| - 1].ts - rs[|rs| - 2].ts <= 600.0 && sel(BucketOf(rs[|rs| - 1].ts))
    ensures Areas(rs, sel) == Areas(rs[..|rs| - 1], sel).Plus(Area(rs[|rs| - 2], rs[|rs| - 1]))
  {
  }

  lemma AreaSkipped(rs: seq<Reading>, sel: int -> bool)
    requires |rs| > 1 && !sel(BucketOf(rs[|rs| - 1].ts))
    ensures Areas(rs, sel) == Areas(rs[..|rs| - 1], sel)
  {
    PlusShuffles(Areas(rs[..|rs| - 1], sel), NO_ENERGY, NO_ENERGY);
  }

  /** The selected hours that the first `m` readings have seen. */
  function HoursSeen(rs: seq<Reading>, i: nat, j: nat, m: nat): real
    requires i <= j < |rs| && 0 < m <= |rs|
  {
    if m - 1 <= i then 0.0
    else if m - 1 <= j then (rs[m - 1].ts - rs[i].ts) / 3600.0
    else (rs[j].ts - rs[i].ts) / 3600.0
  }

  ghost predicate SteadySoFar(rs: seq<Reading>, w: Reading, sel: int -> bool, i: nat, j: nat, m: nat)
    requires i <= j < |rs| && 0 < m <= |rs|
  {
    Areas(rs[..m], sel) == Drawn(w, HoursSeen(rs, i, j, m))
  }

  lemma SteadyCounts(rs: seq<Reading>, w: Reading, sel: int -> bool, from: Reading)
    requires |rs| > 1 && 0.0 < rs[|rs| - 1].ts - rs[|rs| - 2].ts <= 600.0
    requires Steady(rs, w) && sel(BucketOf(rs[|rs| - 1].ts))
    requires Areas(rs[..|rs| - 1], sel) == Drawn(w, (rs[|rs| - 2].ts - from.ts) / 3600.0)
    ensures Areas(rs, sel) == Drawn(w, (rs[|rs| - 1].ts - from.ts) / 3600.0)
  {
    var n := |rs| - 1;
    AreaAdded(rs, sel);
    SteadyMore(Areas(rs[..n], sel), Area(rs[n - 1], rs[n]), w, from, rs[n - 1], rs[n]);
  }

  lemma HoursGrow(rs: seq<Reading>, i: nat, j: nat, m: nat)
    requires i <= j < |rs| && 1 < m <= |rs|
    ensures if i < m - 1 <= j
            then HoursSeen(rs, i, j, m - 1) == (rs[m - 2].ts - rs[i].ts) / 3600.0
                 && HoursSeen(rs, i, j, m) == (rs[m - 1].ts - rs[i].ts) / 3600.0
            else HoursSeen(rs, i, j, m) == HoursSeen(rs, i, j, m - 1)
  {
  }

  lemma SteadyGrows(rs: seq<Reading>, w: Reading, sel: int -> bool, i: nat, j: nat, m: nat)
    requires Close(rs) && Steady(rs, w) && Selects(rs, sel, i, j) && 1 < m <= |rs| && i < m - 1 <= j
    requires SteadySoFar(rs, w, sel, i, j, m - 1)
    ensures SteadySoFar(rs, w, sel, i, j, m)
  {
    assert rs[..m][..m - 1] == rs[..m - 1];
    HoursGrow(rs, i, j, m);
    SteadyCounts(rs[..m], w, sel, rs[i]);
  }

  lemma SteadyWaits(rs: seq<Reading>, w: Reading, sel: int -> bool, i: nat, j: nat, m: nat)
    requires Selects(rs, sel, i, j) && 1 < m <= |rs| && !(i < m - 1 <= j)
    requires SteadySoFar(rs, w, sel, i, j, m - 1)
    ensures SteadySoFar(rs, w, sel, i, j, m)
  {
    assert rs[..m][..m - 1] == rs[..m - 1];
    HoursGrow(rs, i, j, m);
    AreaSkipped(rs[..m], sel);
  }

  lemma {:induction false} SteadyThroughout(rs: seq<Reading>, w: Reading, sel: int -> bool, i: nat, j: nat, m: nat)
    requires Close(rs) && Steady(rs, w) && Selects(rs, sel, i, j) && 0 < m <= |rs|
    ensures SteadySoFar(rs, w, sel, i, j, m)
  {
    if m > 1 {
      SteadyThroughout(rs, w, sel, i, j, m - 1);
      if i < m - 1 <= j {
        SteadyGrows(rs, w, sel, i, j, m);
      } else {
        SteadyWaits(rs, w, sel, i, j, m);
      }
    }
  }

  lemma SteadyAreas(rs: seq<Reading>, w: Reading, sel: int -> bool, i: nat, j: nat)
    requires Close(rs) && Steady(rs, w) && Selects(rs, sel, i, j)
    ensures Areas(rs, sel) == Drawn(w, (rs[j].ts - rs[i].ts) / 3600.0)
  {
    SteadyThroughout(rs, w, sel, i, j, |rs|);
    assert rs[..|rs|] == rs;
  }

  /**
   * Constant watts, a different number in each column, add up to those watts times the hours they
   * lasted, each column to its own: however often they were sampled and whatever other devices do.
   */
  lemma ConstantWatts(calls: seq<Call>, sn: string, w: Reading)
    requires sn != "" && ReadingsOf(calls, sn) != []
    requires Close(ReadingsOf(calls, sn)) && Steady(ReadingsOf(calls, sn), w)
    ensures var rs := ReadingsOf(calls, sn);
            OnRecord(calls, sn) == Drawn(w, (rs[|rs| - 1].ts - rs[0].ts) / 3600.0)
  {
    var rs := ReadingsOf(calls, sn);
    Conservation(calls, sn, Always());
    SteadyAreas(rs, w, Always(), 0, |rs| - 1);
  }

  function Only(g: int): int -> bool {
    b => b == g
  }

  lemma {:induction false} NoneSelected(cells: seq<Cell>, g: int)
    requires forall i | 0 <= i < |cells| :: cells[i].at != g
    ensures SumCells(cells, Only(g)) == NO_ENERGY
  {
    if cells != [] {
      NoneSelected(cells[1..], g);
    }
  }

  lemma {:induction false} OnlyCell(cells: seq<Cell>, k: nat)
    requires Ascending(cells) && k < |cells|
    ensures SumCells(cells, Only(cells[k].at)) == cells[k].wh
  {
    if k == 0 {
      NoneSelected(cells[1..], cells[0].at);
    } else {
      OnlyCell(cells[1..], k - 1);
      PlusShuffles(cells[k].wh, NO_ENERGY, NO_ENERGY);
    }
  }

  lemma CellsSumStep(rows: seq<Sample>, rest: seq<Cell>, sel: int -> bool)
    requires rows != [] && rest == Cells(rows)[1..] && SumCells(rest, sel) == SumOf(rows[1..], sel)
    ensures SumCells(Cells(rows), sel) == SumOf(rows, sel)
  {
  }

  lemma {:induction false} CellsSum(rows: seq<Sample>, sel: int -> bool)
    ensures SumCells(Cells(rows), sel) == SumOf(rows, sel)
  {
    if rows != [] {
      CellsSum(rows[1..], sel);
      assert Cells(rows)[1..] == Cells(rows[1..]);
      CellsSumStep(rows, Cells(rows[1..]), sel);
    }
  }

  /** A history row holds the areas of its own cell. */
  lemma CellHolds(calls: seq<Call>, sn: string, width: int, k: nat)
    requires sn != "" && width > 0 && k < |GroupBy(Cells(RowsOf(RecordAll(calls), sn)), width)|
    ensures var c := GroupBy(Cells(RowsOf(RecordAll(calls), sn)), width)[k];
            c.wh == Areas(ReadingsOf(calls, sn), OnGrid(width, Only(c.at)))
  {
    var rows := RowsOf(RecordAll(calls), sn);
    var groups := GroupBy(Cells(rows), width);
    RowsStaySorted(calls, sn);
    GroupsAscend(Cells(rows), width);
    OnlyCell(groups, k);
    GroupingConserves(Cells(rows), width, Only(groups[k].at));
    CellsSum(rows, OnGrid(width, Only(groups[k].at)));
    Conservation(calls, sn, OnGrid(width, Only(groups[k].at)));
  }

  lemma AverageOfConstant(w: real, wh: real, width: int)
    requires width > 0 && wh == w * (width as real / 3600.0)
    ensures AverageW(wh, width) == Truncate(w)
  {
    var d := width as real;
    var q := QuotientOf(wh, d);
    assert wh * 3600.0 == w * d;
    RealCancel(q, w, d);
  }

  lemma DrawnIsShown(c: Cell, w: Reading, width: int)
    requires width > 0 && c.wh == Drawn(w, width as real / 3600.0)
    ensures ShownRow(c, width) ==
            OutRow(c.at, Truncate(w.inputW), Truncate(w.outputW), Truncate(w.solarW), Truncate(w.acInputW))
  {
    AverageOfConstant(w.inputW, c.wh.input, width);
    AverageOfConstant(w.outputW, c.wh.output, width);
    AverageOfConstant(w.solarW, c.wh.solar, width);
    AverageOfConstant(w.acInputW, c.wh.acInput, width);
  }

  /**
   * From readings to the advisor: a cell over which the device drew constant watts shows those watts,
   * cut to whole ones, in every column and at every width. Its readings span exactly the cell's width.
   */
  lemma ConstantWattsAreShown(calls: seq<Call>, sn: string, w: Reading, width: int, k: nat, i: nat, j: nat)
    requires sn != "" && width > 0 && k < |GroupBy(Cells(RowsOf(RecordAll(calls), sn)), width)|
    requires Close(ReadingsOf(calls, sn)) && Steady(ReadingsOf(calls, sn), w)
    requires var rs, c := ReadingsOf(calls, sn), GroupBy(Cells(RowsOf(RecordAll(calls), sn)), width)[k];
             Selects(rs, OnGrid(width, Only(c.at)), i, j) && rs[j].ts - rs[i].ts == width as real
    ensures var c := GroupBy(Cells(RowsOf(RecordAll(calls), sn)), width)[k];
            ShownRow(c, width) ==
            OutRow(c.at, Truncate(w.inputW), Truncate(w.outputW), Truncate(w.solarW), Truncate(w.acInputW))
  {
    var c := GroupBy(Cells(RowsOf(RecordAll(calls), sn)), width)[k];
    CellHolds(calls, sn, width, k);
    SteadyAreas(ReadingsOf(calls, sn), w, OnGrid(width, Only(c.at)), i, j);
    DrawnIsShown(c, w, width);
  }

  // ---------- power along a straight line ----------

  /** The middle value lies on the line between the outer ones, `s` seconds on of `s + t`. */
  ghost predicate Midway(a: real, m: real, b: real, s: real, t: real) {
    (m - a) * (s + t) == (b - a) * s
  }

  /** A reading in between, on the straight line in every column. */
  ghost predicate OnLine(a: Reading, m: Reading, b: Reading) {
    var s, t := m.ts - a.ts, b.ts - m.ts;
    && s > 0.0 && t > 0.0
    && Midway(a.inputW, m.inputW, b.inputW, s, t) && Midway(a.outputW, m.outputW, b.outputW, s, t)
    && Midway(a.solarW, m.solarW, b.solarW, s, t) && Midway(a.acInputW, m.acInputW, b.acInputW, s, t)
    && Midway(a.divertedW, m.divertedW, b.divertedW, s, t)
  }

  /** The same energy in every column but diverted, of which there is no more. */
  ghost predicate SameEnergy(with: Energy, without: Energy) {
    && with.input == without.input && with.output == without.output && with.solar == without.solar
    && with.acInput == without.acInput && with.diverted <= without.diverted
  }

  lemma TrapezoidSplits(a: real, m: real, b: real, s: real, t: real)
    requires Midway(a, m, b, s, t)
    ensures Trapezoid(a, m, s) + Trapezoid(m, b, t) == Trapezoid(a, b, s + t)
  {
    var twice := (a + m) * s + (m + b) * t;
    assert twice == (a + b) * (s + t);
    HalfPerHour(a + m, s);
    HalfPerHour(m + b, t);
    HalfPerHour(a + b, s + t);
  }

  lemma HalfPerHour(sum: real, dt: real)
    ensures sum / 2.0 * (dt / 3600.0) == sum * dt / 7200.0
  {
  }

  lemma AreaSplits(a: Reading, m: Reading, b: Reading)
    requires OnLine(a, m, b)
    ensures SameEnergy(Area(a, m).Plus(Area(m, b)), Area(a, b))
  {
    var s, t := m.ts - a.ts, b.ts - m.ts;
    TrapezoidSplits(a.inputW, m.inputW, b.inputW, s, t);
    TrapezoidSplits(a.outputW, m.outputW, b.outputW, s, t);
    TrapezoidSplits(a.solarW, m.solarW, b.solarW, s, t);
    TrapezoidSplits(a.acInputW, m.acInputW, b.acInputW, s, t);
    TrapezoidSplits(a.divertedW, m.divertedW, b.divertedW, s, t);
  }

  lemma ReadingsJoinStep(a: seq<Call>, b: seq<Call>, c: Call, sn: string)
    requires ReadingsOf(a + b, sn) == ReadingsOf(a, sn) + ReadingsOf(b, sn)
    ensures ReadingsOf(a + (b + [c]), sn) == ReadingsOf(a, sn) + ReadingsOf(b + [c], sn)
  {
    ReadingsStep(a + b, c, sn);
    ReadingsStep(b, c, sn);
    Assoc(a, b, [c]);
  }

  lemma {:induction false} ReadingsJoin(a: seq<Call>, b: seq<Call>, sn: string)
    ensures ReadingsOf(a + b, sn) == ReadingsOf(a, sn) + ReadingsOf(b, sn)
  {
    if b == [] {
      assert a + b == a;
    } else {
      var n := |b| - 1;
      ReadingsJoin(a, b[..n], sn);
      ReadingsJoinStep(a, b[..n], b[n], sn);
      assert b == b[..n] + [b[n]];
    }
  }

  lemma SameEnergyPlus(a: Energy, b: Energy, more: Energy)
    requires SameEnergy(a, b)
    ensures SameEnergy(a.Plus(more), b.Plus(more)) && SameEnergy(more.Plus(a), more.Plus(b))
  {
  }

  /** The interval that holds the new reading: two areas in place of one. */
  lemma InsertLast(p: seq<Reading>, m: Reading, b: Reading)
    requires p != [] && b.ts - p[|p| - 1].ts <= 600.0 && OnLine(p[|p| - 1], m, b)
    ensures SameEnergy(Areas(p + [m] + [b], Always()), Areas(p + [b], Always()))
  {
    var a := p[|p| - 1];
    AreasAddTo(p, m);
    AreasAddTo(p, b);
    AreasAddTo(p + [m], b);
    AreaSplits(a, m, b);
    InsertedEnergy(Areas(p, Always()), Area(a, m), Area(m, b), Area(a, b));
  }

  lemma AreasAddTo(p: seq<Reading>, b: Reading)
    requires p != [] && 0.0 < b.ts - p[|p| - 1].ts <= 600.0
    ensures Areas(p + [b], Always()) == Areas(p, Always()).Plus(Area(p[|p| - 1], b))
  {
    assert (p + [b])[..|p|] == p;
    AreaAdded(p + [b], Always());
  }

  lemma InsertedEnergy(was: Energy, first: Energy, second: Energy, whole: Energy)
    requires SameEnergy(first.Plus(second), whole)
    ensures SameEnergy(was.Plus(first).Plus(second), was.Plus(whole))
  {
  }

  lemma InsertEarlier(with: seq<Reading>, without: seq<Reading>, prev: Reading, last: Reading)
    requires with != [] && without != [] && with[|with| - 1] == without[|without| - 1] == prev
    requires SameEnergy(Areas(with, Always()), Areas(without, Always()))
    ensures SameEnergy(Areas(with + [last], Always()), Areas(without + [last], Always()))
  {
    AreasGrow(with, last, Always());
    AreasGrow(without, last, Always());
    var more := if Adjacent(prev, last) then Area(prev, last) else NO_ENERGY;
    SameEnergyPlus(Areas(with, Always()), Areas(without, Always()), more);
  }

  lemma {:induction false} AreasInsert(p: seq<Reading>, m: Reading, q: seq<Reading>)
    requires p != [] && q != [] && q[0].ts - p[|p| - 1].ts <= 600.0 && OnLine(p[|p| - 1], m, q[0])
    ensures SameEnergy(Areas(p + [m] + q, Always()), Areas(p + q, Always()))
  {
    var n := |q| - 1;
    var last, before := q[n], q[..n];
    if n == 0 {
      InsertLast(p, m, last);
      assert q == [last];
    } else {
      AreasInsert(p, m, before);
      InsertEarlier(p + [m] + before, p + before, q[n - 1], last);
      assert p + [m] + q == (p + [m] + before) + [last] && p + q == (p + before) + [last];
    }
  }

  /**
   * Sampling more often changes nothing on a straight line: a reading that lies between two others
   * at most ten minutes apart, on the line in every column, leaves the energies on record as they are.
   * Of diverted energy, capped by output in each interval, there may only be less.
   */
  lemma StraightLine(before: seq<Call>, mid: Call, after: seq<Call>, sn: string)
    requires mid.sn == sn != "" && ReadingsOf(before, sn) != [] && ReadingsOf(after, sn) != []
    requires var p, q := ReadingsOf(before, sn), ReadingsOf(after, sn);
             q[0].ts - p[|p| - 1].ts <= 600.0 && OnLine(p[|p| - 1], mid.reading, q[0])
    ensures SameEnergy(OnRecord(before + [mid] + after, sn), OnRecord(before + after, sn))
  {
    ReadingsStep(before, mid, sn);
    ReadingsJoin(before + [mid], after, sn);
    ReadingsJoin(before, after, sn);
    AreasInsert(ReadingsOf(before, sn), mid.reading, ReadingsOf(after, sn));
    Conservation(before + [mid] + after, sn, Always());
    Conservation(before + after, sn, Always());
  }

  lemma TwoReadings(a: Call, b: Call, sn: string)
    requires a.sn == b.sn == sn
    ensures ReadingsOf([a, b], sn) == [a.reading, b.reading]
  {
    ReadingsStep([], a, sn);
    ReadingsStep([a], b, sn);
    assert [] + [a] == [a] && [a] + [b] == [a, b];
  }

  lemma TwoAreas(a: Reading, b: Reading)
    requires 0.0 < b.ts - a.ts <= 600.0
    ensures Areas([a, b], Always()) == Area(a, b)
  {
    assert [a, b][..1] == [a];
    AreaAdded([a, b], Always());
    PlusShuffles(NO_ENERGY, Area(a, b), NO_ENERGY);
  }

  /** From 0 to 600 W within a minute are 5 Wh: the average of the two ends for a sixtieth of an hour. */
  lemma RampExample()
    ensures var a := Reading(0.0, 0.0, 0.0, 0.0, 0.0, 0.0);
            var b := Reading(60.0, 0.0, 600.0, 0.0, 0.0, 0.0);
            OnRecord([Call("d", a, None), Call("d", b, None)], "d") == Energy(0.0, 5.0, 0.0, 0.0, 0.0)
  {
    var a := Reading(0.0, 0.0, 0.0, 0.0, 0.0, 0.0);
    var b := Reading(60.0, 0.0, 600.0, 0.0, 0.0, 0.0);
    TwoReadings(Call("d", a, None), Call("d", b, None), "d");
    Conservation([Call("d", a, None), Call("d", b, None)], "d", Always());
    TwoAreas(a, b);
    assert Area(a, b) == Energy(0.0, 5.0, 0.0, 0.0, 0.0);
  }

  // ---------- gaps ----------

  /**
   * A reading changes the device's rows if and only if it follows the device's last one by more than
   * nothing and at most ten minutes; a first reading, a late one and one from the past only wait.
   */
  lemma IntegratesExactly(calls: seq<Call>, c: Call)
    requires c.sn != ""
    ensures var rs := ReadingsOf(calls, c.sn);
            RowsOf(RecordAll(calls + [c]), c.sn) != RowsOf(RecordAll(calls), c.sn) <==>
            rs != [] && 0.0 < c.reading.ts - rs[|rs| - 1].ts <= 600.0
  {
    var db, k := RecordAll(calls), BucketOf(c.reading.ts);
    RecordAllStep(calls, c);
    LastIsOwn(calls, c.sn);
    RowsStaySorted(calls, c.sn);
    RecordTouchesOneRow(db, c, c.sn, k);
  }
}
