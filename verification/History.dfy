/** Regrouping minute samples into history rows, and the advisor's windowed query over them. */
module History {
  import opened Prelude
  import opened Arithmetic
  import opened EnergyDb

  /** Energy attached to a grid point: a minute bucket, or the start of a coarser cell. */
  datatype Cell = Cell(at: int, wh: Energy)

  /** The multiple of `width` at or below `x`. */
  function FloorTo(x: nat, width: int): (g: nat)
    requires width > 0
    ensures g % width == 0 && (0 - g) % width == 0 && g <= x < g + width
  {
    DivSplit(x, width);
    MultipleMod(x / width, width);
    MultipleMod(-(x / width), width);
    MulMonotone(0, x / width, width);
    x / width * width
  }

  /** SQLite's `(bucket / width) * width`: integer division drops the fraction. */
  function GridPoint(b: int, width: int): (g: int)
    requires width > 0
    ensures g % width == 0
    ensures b >= 0 ==> g <= b < g + width
    ensures b < 0 ==> g - width < b <= g <= 0
  {
    if b >= 0 then FloorTo(b, width) else 0 - FloorTo(-b, width)
  }

  function Cells(rows: seq<Sample>): seq<Cell> {
    seq(|rows|, i requires 0 <= i < |rows| => Cell(rows[i].bucket, rows[i].row.wh))
  }

  ghost predicate Ascending(cells: seq<Cell>) {
    forall i, j | 0 <= i < j < |cells| :: cells[i].at < cells[j].at
  }

  /** `WHERE bucket >= since`. */
  function From(cells: seq<Cell>, since: int): seq<Cell> {
    if cells == [] then []
    else if cells[0].at >= since then [cells[0]] + From(cells[1..], since)
    else From(cells[1..], since)
  }

  function Join(g: int, wh: Energy, groups: seq<Cell>): seq<Cell> {
    if groups != [] && groups[0].at == g then [Cell(g, wh.Plus(groups[0].wh))] + groups[1..]
    else [Cell(g, wh)] + groups
  }

  /** `GROUP BY` grid point over rows in bucket order, summing the energy columns. */
  function GroupBy(cells: seq<Cell>, width: int): seq<Cell>
    requires width > 0
  {
    if cells == [] then [] else Join(GridPoint(cells[0].at, width), cells[0].wh, GroupBy(cells[1..], width))
  }

  /** `history`: the rows at or after the cutoff, grouped no finer than the sampler. */
  function HistoryOf(cells: seq<Cell>, now: int, hours: int, width: int): seq<Cell> {
    GroupBy(From(cells, now - hours * 3600), if width > BUCKET_S then width else BUCKET_S)
  }

  function SumCells(cells: seq<Cell>, sel: int -> bool): Energy {
    if cells == [] then NO_ENERGY
    else
      var tail := SumCells(cells[1..], sel);
      if sel(cells[0].at) then cells[0].wh.Plus(tail) else tail
  }

  // ---------- grouping loses nothing ----------

  function OnGrid(width: int, sel: int -> bool): int -> bool
    requires width > 0
  {
    b => sel(GridPoint(b, width))
  }

  lemma JoinSum(g: int, wh: Energy, groups: seq<Cell>, sel: int -> bool)
    ensures SumCells(Join(g, wh, groups), sel) == (if sel(g) then wh else NO_ENERGY).Plus(SumCells(groups, sel))
  {
    if groups != [] && groups[0].at == g {
      assert Join(g, wh, groups)[1..] == groups[1..];
      PlusShuffles(wh, groups[0].wh, SumCells(groups[1..], sel));
      PlusShuffles(NO_ENERGY, NO_ENERGY, SumCells(groups[1..], sel));
    } else {
      assert Join(g, wh, groups)[1..] == groups;
    }
  }

  /**
   * Every history row holds exactly the minute samples of its cell, and so any selection of rows,
   * all of them included, sums to the samples that fall under it.
   */
  lemma {:induction false} GroupingConserves(cells: seq<Cell>, width: int, sel: int -> bool)
    requires width > 0
    ensures SumCells(GroupBy(cells, width), sel) == SumCells(cells, OnGrid(width, sel))
  {
    if cells != [] {
      GroupingConserves(cells[1..], width, sel);
      JoinSum(GridPoint(cells[0].at, width), cells[0].wh, GroupBy(cells[1..], width), sel);
    }
  }

  lemma {:induction false} SumFromCutoff(rows: seq<Sample>, since: int, width: int)
    requires width > 0
    ensures SumCells(From(Cells(rows), since), OnGrid(width, Always())) == SumOf(rows, Since(since))
  {
    if rows != [] {
      SumFromCutoff(rows[1..], since, width);
      assert Cells(rows)[1..] == Cells(rows[1..]);
      var tail := SumOf(rows[1..], Since(since));
      PlusShuffles(tail, NO_ENERGY, tail);
      PlusShuffles(NO_ENERGY, tail, tail);
    }
  }

  /**
   * From readings to chart: whatever the bucket width, the rows of `history` together hold exactly
   * the areas under the device's own curves from the cutoff on.
   */
  lemma HistoryIsAreas(calls: seq<Call>, sn: string, now: int, hours: int, width: int)
    requires sn != ""
    ensures SumCells(HistoryOf(Cells(RowsOf(RecordAll(calls), sn)), now, hours, width), Always())
            == Areas(ReadingsOf(calls, sn), Since(now - hours * 3600))
  {
    var rows, cutoff := RowsOf(RecordAll(calls), sn), now - hours * 3600;
    var w := if width > BUCKET_S then width else BUCKET_S;
    GroupingConserves(From(Cells(rows), cutoff), w, Always());
    SumFromCutoff(rows, cutoff, w);
    Conservation(calls, sn, Since(cutoff));
  }

  lemma FloorMonotone(a: nat, b: nat, width: int)
    requires width > 0 && a <= b
    ensures FloorTo(a, width) <= FloorTo(b, width)
  {
    DivMonotone(a, b, width);
    MulMonotone(a / width, b / width, width);
  }

  lemma GridPointMonotone(a: int, b: int, width: int)
    requires width > 0 && a <= b
    ensures GridPoint(a, width) <= GridPoint(b, width)
  {
    if 0 <= a {
      FloorMonotone(a, b, width);
    } else if b < 0 {
      FloorMonotone(-b, -a, width);
    }
  }

  /** Rows in order, on the grid, the first of them at `first` if there are any. */
  ghost predicate OrderedFrom(groups: seq<Cell>, width: int, first: int)
    requires width > 0
  {
    && Ascending(groups) && (forall i | 0 <= i < |groups| :: groups[i].at % width == 0)
    && (groups != [] ==> groups[0].at >= first)
  }

  lemma JoinOrdered(g: int, wh: Energy, groups: seq<Cell>, width: int)
    requires width > 0 && g % width == 0 && OrderedFrom(groups, width, g)
    ensures OrderedFrom(Join(g, wh, groups), width, g) && Join(g, wh, groups)[0].at == g
  {
  }

  /** One row a cell, in order: `GROUP BY ... ORDER BY`. */
  lemma {:induction false} GroupsAscend(cells: seq<Cell>, width: int)
    requires width > 0 && Ascending(cells)
    ensures var groups := GroupBy(cells, width);
            && Ascending(groups)
            && (forall i | 0 <= i < |groups| :: groups[i].at % width == 0)
            && (cells != [] ==> groups != [] && groups[0].at == GridPoint(cells[0].at, width))
  {
    if cells != [] {
      GroupsAscend(cells[1..], width);
      if |cells| > 1 {
        GridPointMonotone(cells[0].at, cells[1].at, width);
      }
      JoinOrdered(GridPoint(cells[0].at, width), cells[0].wh, GroupBy(cells[1..], width), width);
    }
  }

  lemma FloorTwice(x: nat, fine: int, coarse: int)
    requires fine > 0 && coarse > 0 && coarse % fine == 0
    ensures FloorTo(FloorTo(x, fine), coarse) == FloorTo(x, coarse)
  {
    DivSplit(coarse, fine);
    var k := coarse / fine;
    MulAtLeast(k, fine);
    assert coarse == fine * k;
    DivDiv(FloorTo(x, fine), fine, k);
    DivDiv(x, fine, k);
    MultipleMod(x / fine, fine);
  }

  lemma GridPointTwice(b: int, fine: int, coarse: int)
    requires fine > 0 && coarse > 0 && coarse % fine == 0
    ensures GridPoint(GridPoint(b, fine), coarse) == GridPoint(b, coarse)
  {
    if b >= 0 {
      FloorTwice(b, fine, coarse);
    } else {
      FloorTwice(-b, fine, coarse);
    }
  }

  lemma JoinTwice(g: int, a: Energy, b: Energy, groups: seq<Cell>)
    ensures Join(g, a, Join(g, b, groups)) == Join(g, a.Plus(b), groups)
  {
    if groups != [] {
      PlusShuffles(a, b, groups[0].wh);
    }
  }

  /** Regrouping an already grouped history at a coarser width equals grouping the samples at it directly. */
  lemma {:induction false} RegroupingRefines(cells: seq<Cell>, fine: int, coarse: int)
    requires fine > 0 && coarse > 0 && coarse % fine == 0
    ensures GroupBy(GroupBy(cells, fine), coarse) == GroupBy(cells, coarse)
  {
    if cells != [] {
      RegroupingRefines(cells[1..], fine, coarse);
      var c, rest := cells[0], GroupBy(cells[1..], fine);
      var g, h := GridPoint(c.at, fine), GridPoint(c.at, coarse);
      GridPointTwice(c.at, fine, coarse);
      var joined := Join(g, c.wh, rest);
      if rest != [] && rest[0].at == g {
        assert joined[1..] == rest[1..];
        JoinTwice(h, c.wh, rest[0].wh, GroupBy(rest[1..], coarse));
      } else {
        assert joined[1..] == rest;
      }
    }
  }

  // ---------- the advisor's window query ----------

  const MAX_LOOKBACK_HOURS := 1080
  const MAX_TOOL_ROWS := 500

  datatype QueryError = MissingBounds | EmptyWindow
  datatype OutRow = OutRow(ts: int, inW: int, outW: int, solarW: int, acInputW: int)
  datatype Answer = Answer(rows: seq<OutRow>, rowCount: nat, truncated: bool, bucketS: int,
                           lookbackHours: int, expectedBuckets: int, clamped: bool)

  function Clip(rows: seq<Cell>, start: int, end: int): seq<Cell> {
    if rows == [] then []
    else (if start <= rows[0].at < end then [rows[0]] else []) + Clip(rows[1..], start, end)
  }

  function AverageW(wh: real, width: int): int
    requires width > 0
  {
    Truncate(wh / (width as real / 3600.0))
  }

  /** Average watts: over the cell's seconds they make the watt-seconds it holds, to one watt, towards zero. */
  ghost predicate AveragesTo(w: int, wh: real, width: int) {
    var shown, seconds := w as real * width as real, width as real;
    var held := wh * 3600.0;
    if wh >= 0.0 then 0.0 <= shown <= held && held - shown < seconds
    else held <= shown <= 0.0 && shown - held < seconds
  }

  /** The row shows the cell: its time, and in each column the average watts. */
  ghost predicate Shows(r: OutRow, c: Cell, width: int) {
    && r.ts == c.at
    && AveragesTo(r.inW, c.wh.input, width) && AveragesTo(r.outW, c.wh.output, width)
    && AveragesTo(r.solarW, c.wh.solar, width) && AveragesTo(r.acInputW, c.wh.acInput, width)
  }

  /** A quotient cut to whole watts makes `shown` watt-seconds of the `total` it was taken from. */
  lemma CutUp(q: real, x: real, d: real, total: real, shown: real)
    requires d > 0.0 && 0.0 <= x <= q < x + 1.0 && total == q * d && shown == x * d
    ensures 0.0 <= shown && shown <= total && total - shown < d
  {
    RealMulSign(x, d);
    RealMulMonotone(x, q, d);
    RealMulGap(x, q, d, shown, total);
  }

  lemma CutDown(q: real, x: real, d: real, total: real, shown: real)
    requires d > 0.0 && x - 1.0 < q <= x <= 0.0 && q < 0.0 && total == q * d && shown == x * d
    ensures shown <= 0.0 && total <= shown && shown - total < d && total < 0.0
  {
    RealMulSign(q, d);
    RealMulMonotone(q, x, d);
    RealMulSign(x, d);
    RealMulGap(q, x, d, total, shown);
  }

  lemma QuotientOf(wh: real, d: real) returns (q: real)
    requires d > 0.0
    ensures q == wh / (d / 3600.0) && q * d == wh * 3600.0
  {
    var hours := d / 3600.0;
    q := wh / hours;
    assert q * hours == wh;
    assert hours * 3600.0 == d;
    assert q * d == q * hours * 3600.0;
  }

  lemma AverageWAverages(wh: real, width: int)
    requires width > 0
    ensures AveragesTo(AverageW(wh, width), wh, width)
  {
    var d := width as real;
    var q := QuotientOf(wh, d);
    var x := AverageW(wh, width) as real;
    if q >= 0.0 {
      CutUp(q, x, d, wh * 3600.0, x * d);
    } else {
      CutDown(q, x, d, wh * 3600.0, x * d);
    }
  }

  lemma ShownRowShows(c: Cell, width: int)
    requires width > 0
    ensures Shows(ShownRow(c, width), c, width)
  {
    AverageWAverages(c.wh.input, width);
    AverageWAverages(c.wh.output, width);
    AverageWAverages(c.wh.solar, width);
    AverageWAverages(c.wh.acInput, width);
  }

  function ShownRow(c: Cell, width: int): OutRow
    requires width > 0
  {
    OutRow(c.at, AverageW(c.wh.input, width), AverageW(c.wh.output, width),
           AverageW(c.wh.solar, width), AverageW(c.wh.acInput, width))
  }

  /** The width that is served: an hour when none is asked for, never finer than the sampler's minute. */
  function WidthOf(requested: int): (w: int)
    ensures w >= 60 && (requested >= 60 ==> w == requested)
    ensures requested == 0 ==> w == 3600
    ensures requested < 60 && requested != 0 ==> w == 60
  {
    var r := if requested == 0 then 3600 else requested;
    if r > BUCKET_S then r else BUCKET_S
  }

  /** Hours needed to reach `start` from now, with one to spare, before the cap. */
  function HoursBack(now: int, start: int): (h: int)
    ensures h >= 1 && h * 3600 >= now - start + 3600
    ensures h == 1 || (h - 2) * 3600 < now - start
  {
    var h := -((-(now - start)) / 3600) + 1;
    if h > 1 then h else 1
  }

  function Lookback(now: int, start: int): (h: int)
    ensures h <= 1080 && h <= HoursBack(now, start) && (h == 1080 || h == HoursBack(now, start))
  {
    if HoursBack(now, start) < MAX_LOOKBACK_HOURS then HoursBack(now, start) else MAX_LOOKBACK_HOURS
  }

  function ExpectedBuckets(start: int, end: int, width: int): int
    requires width > 0
  {
    var n := (end - 1) / width - start / width + 1;
    if n > 0 then n else 0
  }

  function Shown(cells: seq<Cell>, width: int): seq<OutRow>
    requires width > 0
  {
    seq(|cells|, i requires 0 <= i < |cells| => ShownRow(cells[i], width))
  }

  /** The answer for the rows kept in the window: at most 500 of them, and the true counts. */
  function Served(kept: seq<Cell>, start: int, end: int, width: int, hours: int): Answer
    requires width > 0
  {
    var shown := Shown(kept, width);
    Answer(if |kept| > MAX_TOOL_ROWS then shown[..MAX_TOOL_ROWS] else shown, |kept|, |kept| > MAX_TOOL_ROWS,
           width, hours, ExpectedBuckets(start, end, width), hours >= MAX_LOOKBACK_HOURS)
  }

  /** What the answer says of the rows in the window: the first 500 of them as watts, and how many there are. */
  ghost predicate Tells(a: Answer, kept: seq<Cell>, width: int) {
    && |a.rows| == (if |kept| > 500 then 500 else |kept|)
    && (forall i | 0 <= i < |a.rows| :: Shows(a.rows[i], kept[i], width))
    && a.rowCount == |kept| && (a.truncated <==> |kept| > 500)
    && a.bucketS == width && (a.clamped <==> a.lookbackHours >= 1080)
  }

  lemma ServedTells(kept: seq<Cell>, start: int, end: int, width: int, hours: int)
    requires width > 0
    ensures Tells(Served(kept, start, end, width, hours), kept, width)
  {
    AllShown(kept, width);
  }

  lemma ClipStep(rows: seq<Cell>, i: nat, start: int, end: int)
    requires i < |rows|
    ensures start <= rows[i].at < end ==> Clip(rows[i..], start, end) == [rows[i]] + Clip(rows[i + 1..], start, end)
    ensures !(start <= rows[i].at < end) ==> Clip(rows[i..], start, end) == Clip(rows[i + 1..], start, end)
  {
    assert rows[i..][1..] == rows[i + 1..];
  }

  lemma ShownStep(cells: seq<Cell>, c: Cell, width: int)
    requires width > 0
    ensures Shown(cells + [c], width) == Shown(cells, width) + [ShownRow(c, width)]
  {
  }

  lemma AllShown(kept: seq<Cell>, width: int)
    requires width > 0
    ensures forall i | 0 <= i < |kept| :: Shows(Shown(kept, width)[i], kept[i], width)
  {
    forall i | 0 <= i < |kept| ensures Shows(Shown(kept, width)[i], kept[i], width) {
      ShownRowShows(kept[i], width);
    }
  }

  method ClipRows(rows: seq<Cell>, start: int, end: int, width: int) returns (out: seq<OutRow>)
    requires width > 0
    ensures out == Shown(Clip(rows, start, end), width)
    ensures var kept := Clip(rows, start, end);
            |out| == |kept| && forall i | 0 <= i < |out| :: Shows(out[i], kept[i], width)
  {
    out := [];
    ghost var done: seq<Cell> := [];
    for i := 0 to |rows|
      invariant Clip(rows, start, end) == done + Clip(rows[i..], start, end) && out == Shown(done, width)
    {
      var c := rows[i];
      ClipStep(rows, i, start, end);
      if c.at < start || c.at >= end {
        continue;
      }
      Assoc(done, [c], Clip(rows[i + 1..], start, end));
      ShownStep(done, c, width);
      out := out + [ShownRow(c, width)];
      done := done + [c];
    }
    assert Clip(rows, start, end) == done;
    AllShown(done, width);
  }

  /** `now` and `later` are the two clock reads: the query's own, and the one inside `history`. */
  method QuerySamples(cells: seq<Cell>, start: Option<int>, end: Option<int>, requested: int, now: int, later: int)
    returns (r: Result<Answer, QueryError>)
    ensures r.Err? <==> start in {None, Some(0)} || end in {None, Some(0)} || end.value <= start.value
    ensures r == Err(MissingBounds) <==> start in {None, Some(0)} || end in {None, Some(0)}
    ensures r.Ok? ==>
              var w, hours := WidthOf(requested), Lookback(now, start.value);
              var kept := Clip(HistoryOf(cells, later, hours, w), start.value, end.value);
              r.value == Served(kept, start.value, end.value, w, hours) && Tells(r.value, kept, w)
  {
    if start.None? || end.None? || start.value == 0 || end.value == 0 {
      return Err(MissingBounds);
    }
    if end.value <= start.value {
      return Err(EmptyWindow);
    }
    var w, hours := WidthOf(requested), Lookback(now, start.value);
    var rows := HistoryOf(cells, later, hours, w);
    var out := ClipRows(rows, start.value, end.value, w);
    r := Ok(Answer(if |out| > MAX_TOOL_ROWS then out[..MAX_TOOL_ROWS] else out, |out|, |out| > MAX_TOOL_ROWS, w, hours,
                   ExpectedBuckets(start.value, end.value, w), hours >= MAX_LOOKBACK_HOURS));
    ServedTells(Clip(rows, start.value, end.value), start.value, end.value, w, hours);
  }

  lemma {:induction false} ClipJoin(g: int, wh: Energy, groups: seq<Cell>, start: int, end: int)
    requires g < start
    ensures Clip(Join(g, wh, groups), start, end) == Clip(groups, start, end)
  {
    var joined := Join(g, wh, groups);
    if groups != [] && groups[0].at == g {
      assert joined[1..] == groups[1..];
    } else {
      assert joined[1..] == groups;
    }
  }

  lemma {:induction false} FromSuffix(cells: seq<Cell>, since: int)
    requires Ascending(cells) && cells != [] && cells[0].at >= since
    ensures From(cells, since) == cells
  {
    if |cells| > 1 {
      FromSuffix(cells[1..], since);
    }
  }

  /** A cutoff at or before the window's start cannot be seen through the window. */
  lemma {:induction false} CutoffInvisible(cells: seq<Cell>, since: int, width: int, start: int, end: int)
    requires width > 0 && Ascending(cells) && since <= start && start > 0
    ensures Clip(GroupBy(From(cells, since), width), start, end) == Clip(GroupBy(cells, width), start, end)
  {
    if cells != [] {
      if cells[0].at >= since {
        FromSuffix(cells, since);
      } else {
        CutoffInvisible(cells[1..], since, width, start, end);
        ClipJoin(GridPoint(cells[0].at, width), cells[0].wh, GroupBy(cells[1..], width), start, end);
      }
    }
  }

  /**
   * When the lookback is not clamped every kept row aggregates its whole grid cell: the answer is
   * the same as grouping the device's entire table and clipping that. `history` may read the clock
   * up to an hour after the query did.
   */
  lemma {:induction false} UnclampedWindowIsWhole(cells: seq<Cell>, start: int, end: int, width: int,
                                                  now: int, later: int)
    requires Ascending(cells) && start > 0 && width >= BUCKET_S && now <= later <= now + 3600
    requires Lookback(now, start) < MAX_LOOKBACK_HOURS
    ensures Clip(HistoryOf(cells, later, Lookback(now, start), width), start, end)
            == Clip(GroupBy(cells, width), start, end)
  {
    CutoffInvisible(cells, later - Lookback(now, start) * 3600, width, start, end);
  }

  /** The grid points in the half-open range, counted one by one. */
  function GridPointsIn(start: int, end: int, width: int): nat
    requires width > 0
    decreases end - start
  {
    if end <= start then 0 else GridPointsIn(start, end - 1, width) + if (end - 1) % width == 0 then 1 else 0
  }

  lemma {:induction false} GridPointsFormula(start: int, end: int, width: int)
    requires width > 0 && start < end
    ensures GridPointsIn(start, end, width) == (end - 1) / width - start / width + if start % width == 0 then 1 else 0
    decreases end - start
  {
    if start + 1 == end {
      assert GridPointsIn(start, start, width) == 0;
    } else {
      GridPointsFormula(start, end - 1, width);
      var b, q := end - 1, (end - 1) / width;
      assert b == width * q + b % width;
      if b % width == 0 {
        assert b - 1 == width * (q - 1) + (width - 1) by {
          assert width * (q - 1) == width * q - width;
        }
        DivUnique(b - 1, width, q - 1);
      } else {
        DivUnique(b - 1, width, q);
      }
    }
  }

  /**
   * The expected-bucket formula counts the grid points of the window exactly when the window
   * starts on the grid; otherwise it reports one too many.
   */
  lemma {:induction false} ExpectedBucketsExactly(start: int, end: int, width: int)
    requires width > 0 && start < end
    ensures ExpectedBuckets(start, end, width) == GridPointsIn(start, end, width) + if start % width == 0 then 0 else 1
    ensures ExpectedBuckets(start, end, width) == GridPointsIn(start, end, width) <==> start % width == 0
  {
    GridPointsFormula(start, end, width);
  }

  /** Half a minute without a grid point, of which the formula expects one. */
  lemma ExpectedBucketsExample()
    ensures ExpectedBuckets(30, 60, 60) == 1 && GridPointsIn(30, 60, 60) == 0
  {
    ExpectedBucketsExactly(30, 60, 60);
  }

  lemma {:induction false} ClipCounts(groups: seq<Cell>, start: int, end: int, width: int)
    requires width > 0 && Ascending(groups) && forall i | 0 <= i < |groups| :: groups[i].at % width == 0
    ensures |Clip(groups, start, end)| <= GridPointsIn(start, end, width)
    decreases |groups|
  {
    if groups != [] {
      var n := |groups| - 1;
      var last := groups[n].at;
      assert groups == groups[..n] + [groups[n]];
      ClipAppend(groups[..n], groups[n], start, end);
      if start <= last < end {
        ClipCounts(groups[..n], start, last, width);
        ClipBelow(groups[..n], start, last, end);
        GridPointsGrow(start, last, end, width);
      } else {
        ClipCounts(groups[..n], start, end, width);
      }
    }
  }

  lemma {:induction false} ClipAppend(rows: seq<Cell>, c: Cell, start: int, end: int)
    ensures Clip(rows + [c], start, end) == Clip(rows, start, end) + if start <= c.at < end then [c] else []
  {
    if rows != [] {
      ClipAppend(rows[1..], c, start, end);
      assert (rows + [c])[1..] == rows[1..] + [c];
    }
  }

  lemma {:induction false} ClipBelow(rows: seq<Cell>, start: int, bound: int, end: int)
    requires bound <= end && forall i | 0 <= i < |rows| :: rows[i].at < bound
    ensures Clip(rows, start, bound) == Clip(rows, start, end)
  {
    if rows != [] {
      ClipBelow(rows[1..], start, bound, end);
    }
  }

  lemma {:induction false} GridPointsGrow(start: int, g: int, end: int, width: int)
    requires width > 0 && start <= g < end && g % width == 0
    ensures GridPointsIn(start, g, width) + 1 <= GridPointsIn(start, end, width)
    decreases end - g
  {
    if g + 1 < end {
      GridPointsGrow(start, g, end - 1, width);
    }
  }

  /** A query never returns more rows than the buckets it says to expect. */
  lemma RowsWithinExpected(cells: seq<Cell>, start: int, end: int, width: int)
    requires width > 0 && start < end && Ascending(cells)
    ensures |Clip(GroupBy(cells, width), start, end)| <= ExpectedBuckets(start, end, width)
  {
    GroupsAscend(cells, width);
    ClipCounts(GroupBy(cells, width), start, end, width);
    ExpectedBucketsExactly(start, end, width);
  }
}
