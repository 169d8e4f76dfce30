/** The energy integrator: power readings in, watt-hours per device and minute out. */
module EnergyDb {
  import opened Prelude

  const MAX_GAP_S := 600.0
  const BUCKET_S := 60

  datatype Reading = Reading(ts: real, inputW: real, outputW: real, solarW: real, acInputW: real, divertedW: real)

  datatype Energy = Energy(input: real, output: real, solar: real, acInput: real, diverted: real)
  {
    function Plus(e: Energy): Energy {
      Energy(input + e.input, output + e.output, solar + e.solar, acInput + e.acInput, diverted + e.diverted)
    }
  }

  const NO_ENERGY := Energy(0.0, 0.0, 0.0, 0.0, 0.0)

  /** One row of the samples table; the `last` columns are null until something writes them. */
  datatype Row = Row(
    wh: Energy,
    lastInputW: Option<int>,
    lastOutputW: Option<int>,
    lastSolarW: Option<int>,
    lastAcInputW: Option<int>,
    lastBattery: Option<int>,
    sampleCount: nat)

  datatype Sample = Sample(bucket: int, row: Row)

  /** `int(ts // BUCKET_S) * BUCKET_S`. */
  function BucketOf(ts: real): (b: int)
    ensures b % BUCKET_S == 0
    ensures b as real <= ts < (b + BUCKET_S) as real
  {
    var minutes := (ts / 60.0).Floor;
    minutes * BUCKET_S
  }

  // ---------- the samples of one device, in bucket order ----------

  ghost predicate Sorted(rows: seq<Sample>) {
    forall i, j | 0 <= i < j < |rows| :: rows[i].bucket < rows[j].bucket
  }

  /** ON CONFLICT DO UPDATE: energies add up, `last` columns are replaced, a null battery keeps the old one. */
  function Merge(old_: Row, excluded: Row): Row {
    excluded.(wh := old_.wh.Plus(excluded.wh),
              lastBattery := if excluded.lastBattery.Some? then excluded.lastBattery else old_.lastBattery,
              sampleCount := old_.sampleCount + 1)
  }

  function Upsert(rows: seq<Sample>, b: int, r: Row): seq<Sample> {
    if rows == [] || b < rows[0].bucket then [Sample(b, r)] + rows
    else if b == rows[0].bucket then [Sample(b, Merge(rows[0].row, r))] + rows[1..]
    else [rows[0]] + Upsert(rows[1..], b, r)
  }

  /** The sum of all energy columns over the buckets that `sel` selects. */
  function SumOf(rows: seq<Sample>, sel: int -> bool): Energy {
    if rows == [] then NO_ENERGY
    else
      var tail := SumOf(rows[1..], sel);
      if sel(rows[0].bucket) then rows[0].row.wh.Plus(tail) else tail
  }

  lemma {:induction false} UpsertKeepsOrder(rows: seq<Sample>, b: int, r: Row)
    requires Sorted(rows)
    ensures var after := Upsert(rows, b, r);
            Sorted(after) && after != [] && (after[0].bucket == b || (rows != [] && after[0] == rows[0]))
            && (rows != [] ==> after[0].bucket <= rows[0].bucket) && after[0].bucket <= b
  {
    if rows != [] && b > rows[0].bucket {
      UpsertKeepsOrder(rows[1..], b, r);
    }
  }

  lemma PlusShuffles(a: Energy, b: Energy, c: Energy)
    ensures a.Plus(b).Plus(c) == a.Plus(b.Plus(c)) && a.Plus(b) == b.Plus(a) && a.Plus(NO_ENERGY) == a
  {
  }

  lemma {:induction false} UpsertSum(rows: seq<Sample>, b: int, r: Row, sel: int -> bool)
    ensures SumOf(Upsert(rows, b, r), sel) == SumOf(rows, sel).Plus(if sel(b) then r.wh else NO_ENERGY)
  {
    var added := if sel(b) then r.wh else NO_ENERGY;
    var after := Upsert(rows, b, r);
    if rows == [] || b < rows[0].bucket {
      assert after[1..] == rows;
      PlusShuffles(added, SumOf(rows, sel), NO_ENERGY);
    } else {
      var head, tail := if sel(rows[0].bucket) then rows[0].row.wh else NO_ENERGY, SumOf(rows[1..], sel);
      PlusShuffles(head, added, tail);
      PlusShuffles(head, tail, added);
      PlusShuffles(added, tail, NO_ENERGY);
      if b == rows[0].bucket {
        assert after[1..] == rows[1..];
        PlusShuffles(NO_ENERGY, NO_ENERGY, tail);
      } else {
        assert after[1..] == Upsert(rows[1..], b, r);
        UpsertSum(rows[1..], b, r, sel);
      }
    }
  }

  // ---------- recording ----------

  datatype Call = Call(sn: string, reading: Reading, battery: Option<int>)

  datatype Db = Db(last: map<string, Reading>, samples: map<string, seq<Sample>>)

  const EMPTY := Db(map[], map[])

  function RowsOf(db: Db, sn: string): seq<Sample> {
    if sn in db.samples then db.samples[sn] else []
  }

  /** Two readings are integrated when time moved forward by at most ten minutes. */
  predicate Adjacent(prev: Reading, cur: Reading) {
    0.0 < cur.ts - prev.ts <= MAX_GAP_S
  }

  function Trapezoid(a: real, b: real, dt: real): real {
    (a + b) / 2.0 * (dt / 3600.0)
  }

  /** The areas under the five power curves between two readings, diverted capped by output. */
  function Area(prev: Reading, cur: Reading): Energy {
    var dt := cur.ts - prev.ts;
    var out := Trapezoid(prev.outputW, cur.outputW, dt);
    Energy(Trapezoid(prev.inputW, cur.inputW, dt), out, Trapezoid(prev.solarW, cur.solarW, dt),
           Trapezoid(prev.acInputW, cur.acInputW, dt), Min(Trapezoid(prev.divertedW, cur.divertedW, dt), out))
  }

  function NewRow(wh: Energy, c: Call): Row {
    Row(wh, Some(Truncate(c.reading.inputW)), Some(Truncate(c.reading.outputW)),
        Some(Truncate(c.reading.solarW)), Some(Truncate(c.reading.acInputW)), c.battery, 1)
  }

  function Recorded(db: Db, c: Call): Db {
    if c.sn == "" then db
    else
      var last := db.last[c.sn := c.reading];
      if c.sn !in db.last || !Adjacent(db.last[c.sn], c.reading) then db.(last := last)
      else
        var row := NewRow(Area(db.last[c.sn], c.reading), c);
        Db(last, db.samples[c.sn := Upsert(RowsOf(db, c.sn), BucketOf(c.reading.ts), row)])
  }

  function RecordAll(calls: seq<Call>): Db {
    if calls == [] then EMPTY else Recorded(RecordAll(calls[..|calls| - 1]), calls[|calls| - 1])
  }

  // ---------- what the numbers should be ----------

  /** One device's own readings, in the order they came. */
  function ReadingsOf(calls: seq<Call>, sn: string): seq<Reading> {
    if calls == [] then []
    else
      var before, c := ReadingsOf(calls[..|calls| - 1], sn), calls[|calls| - 1];
      if c.sn == sn then before + [c.reading] else before
  }

  /** The areas between consecutive adjacent readings whose later end falls in a selected bucket. */
  function Areas(rs: seq<Reading>, sel: int -> bool): Energy {
    if |rs| < 2 then NO_ENERGY
    else
      var n := |rs| - 1;
      var before := Areas(rs[..n], sel);
      if Adjacent(rs[n - 1], rs[n]) && sel(BucketOf(rs[n].ts)) then before.Plus(Area(rs[n - 1], rs[n])) else before
  }

  lemma RecordSum(db: Db, c: Call, sn: string, sel: int -> bool)
    requires c.sn == sn != ""
    ensures SumOf(RowsOf(Recorded(db, c), sn), sel) == SumOf(RowsOf(db, sn), sel).Plus(
              if sn in db.last && Adjacent(db.last[sn], c.reading) && sel(BucketOf(c.reading.ts))
              then Area(db.last[sn], c.reading) else NO_ENERGY)
  {
    if sn in db.last && Adjacent(db.last[sn], c.reading) {
      UpsertSum(RowsOf(db, sn), BucketOf(c.reading.ts), NewRow(Area(db.last[sn], c.reading), c), sel);
    }
  }

  lemma RecordAllStep(calls: seq<Call>, c: Call)
    ensures RecordAll(calls + [c]) == Recorded(RecordAll(calls), c)
  {
    assert (calls + [c])[..|calls|] == calls;
  }

  lemma ReadingsStep(calls: seq<Call>, c: Call, sn: string)
    ensures ReadingsOf(calls + [c], sn) ==
            if c.sn == sn then ReadingsOf(calls, sn) + [c.reading] else ReadingsOf(calls, sn)
  {
    assert (calls + [c])[..|calls|] == calls;
  }

  lemma AreasGrow(rs: seq<Reading>, cur: Reading, sel: int -> bool)
    ensures Areas(rs + [cur], sel) ==
            Areas(rs, sel).Plus(if rs != [] && Adjacent(rs[|rs| - 1], cur) && sel(BucketOf(cur.ts))
                                then Area(rs[|rs| - 1], cur) else NO_ENERGY)
  {
    assert (rs + [cur])[..|rs|] == rs;
    PlusShuffles(Areas(rs, sel), NO_ENERGY, NO_ENERGY);
  }

  /** The previous reading of a device is the last of its own. */
  lemma {:induction false} LastIsOwn(calls: seq<Call>, sn: string)
    requires sn != ""
    ensures var rs, last := ReadingsOf(calls, sn), RecordAll(calls).last;
            if rs == [] then sn !in last else sn in last && last[sn] == rs[|rs| - 1]
  {
    if calls != [] {
      LastIsOwn(calls[..|calls| - 1], sn);
    }
  }

  /** One record adds the same area on both sides. */
  lemma RecordConserves(db: Db, c: Call, sn: string, rs: seq<Reading>, sel: int -> bool)
    requires sn != "" && SumOf(RowsOf(db, sn), sel) == Areas(rs, sel)
    requires if rs == [] then sn !in db.last else sn in db.last && db.last[sn] == rs[|rs| - 1]
    ensures SumOf(RowsOf(Recorded(db, c), sn), sel) == Areas(if c.sn == sn then rs + [c.reading] else rs, sel)
  {
    if c.sn == sn {
      RecordSum(db, c, sn, sel);
      AreasGrow(rs, c.reading, sel);
    } else {
      assert RowsOf(Recorded(db, c), sn) == RowsOf(db, sn);
    }
  }

  /**
   * Energy conservation: after any interleaved run over any devices, the rows of one device sum to
   * exactly the trapezoid areas of its own readings: in one bucket, in a window, or over any union
   * of buckets, in every column. Other devices contribute nothing.
   */
  lemma {:induction false} Conservation(calls: seq<Call>, sn: string, sel: int -> bool)
    requires sn != ""
    ensures SumOf(RowsOf(RecordAll(calls), sn), sel) == Areas(ReadingsOf(calls, sn), sel)
    ensures var rs := ReadingsOf(calls, sn);
            if rs == [] then sn !in RecordAll(calls).last
            else sn in RecordAll(calls).last && RecordAll(calls).last[sn] == rs[|rs| - 1]
  {
    LastIsOwn(calls, sn);
    if calls != [] {
      var before, c := calls[..|calls| - 1], calls[|calls| - 1];
      var db, rs := RecordAll(before), ReadingsOf(before, sn);
      assert calls == before + [c];
      RecordAllStep(before, c);
      ReadingsStep(before, c, sn);
      LastIsOwn(before, sn);
      Conservation(before, sn, sel);
      RecordConserves(db, c, sn, rs, sel);
    }
  }

  lemma {:induction false} RowsStaySorted(calls: seq<Call>, sn: string)
    ensures Sorted(RowsOf(RecordAll(calls), sn))
  {
    if calls != [] {
      var before, c := calls[..|calls| - 1], calls[|calls| - 1];
      RowsStaySorted(before, sn);
      var db := RecordAll(before);
      if c.sn == sn != "" && sn in db.last {
        UpsertKeepsOrder(RowsOf(db, sn), BucketOf(c.reading.ts), NewRow(Area(db.last[sn], c.reading), c));
      }
    }
  }

  lemma {:induction false} AreasDivertedBounded(rs: seq<Reading>, sel: int -> bool)
    ensures Areas(rs, sel).diverted <= Areas(rs, sel).output
  {
    if |rs| >= 2 {
      AreasDivertedBounded(rs[..|rs| - 1], sel);
    }
  }

  /** Diverted energy never exceeds output energy, in any bucket or union of buckets, for watts of any sign. */
  lemma {:induction false} DivertedWithinOutput(calls: seq<Call>, sn: string, sel: int -> bool)
    requires sn != ""
    ensures var sum := SumOf(RowsOf(RecordAll(calls), sn), sel);
            sum.diverted <= sum.output
  {
    Conservation(calls, sn, sel);
    AreasDivertedBounded(ReadingsOf(calls, sn), sel);
  }

  // ---------- correcting a dropout ----------

  /** Overwrites output energy and watts of one bucket, inserting an otherwise empty row if there is none. */
  function SetOutput(rows: seq<Sample>, b: int, wh: real, w: int): seq<Sample> {
    if rows == [] || b < rows[0].bucket then
      [Sample(b, Corrected(None, wh, w))] + rows
    else if b == rows[0].bucket then
      [Sample(b, Corrected(Some(rows[0].row), wh, w))] + rows[1..]
    else [rows[0]] + SetOutput(rows[1..], b, wh, w)
  }

  function Lookup(rows: seq<Sample>, b: int): Option<Row> {
    if rows == [] then None else if rows[0].bucket == b then Some(rows[0].row) else Lookup(rows[1..], b)
  }

  function Corrected(r: Option<Row>, wh: real, w: int): Row {
    if r.None? then Row(NO_ENERGY.(output := wh), None, Some(w), None, None, None, 1)
    else r.value.(wh := r.value.wh.(output := wh), lastOutputW := Some(w))
  }

  lemma {:induction false} LookupAbsent(rows: seq<Sample>, b: int)
    requires Sorted(rows) && (rows != [] ==> b < rows[0].bucket)
    ensures Lookup(rows, b) == None
  {
    if rows != [] {
      LookupAbsent(rows[1..], b);
    }
  }

  /** The walk puts a new row in front, corrects the head, or goes on behind it. */
  lemma SetOutputStep(rows: seq<Sample>, b: int, wh: real, w: int)
    ensures var after := SetOutput(rows, b, wh, w);
            && after != []
            && (if rows == [] || b < rows[0].bucket then
                  after[0] == Sample(b, Corrected(None, wh, w)) && after[1..] == rows
                else if b == rows[0].bucket then
                  after[0] == Sample(b, Corrected(Some(rows[0].row), wh, w)) && after[1..] == rows[1..]
                else
                  after[0] == rows[0] && after[1..] == SetOutput(rows[1..], b, wh, w))
  {
  }

  lemma {:induction false} SetOutputLookup(rows: seq<Sample>, b: int, wh: real, w: int, k: int)
    requires Sorted(rows)
    ensures var after := SetOutput(rows, b, wh, w);
            Lookup(after, k) == if k == b then Some(Corrected(Lookup(rows, b), wh, w)) else Lookup(rows, k)
  {
    SetOutputStep(rows, b, wh, w);
    if rows == [] || b < rows[0].bucket {
      LookupAbsent(rows, b);
    } else if b > rows[0].bucket {
      SetOutputLookup(rows[1..], b, wh, w, k);
    }
  }

  lemma {:induction false} SetOutputKeepsOrder(rows: seq<Sample>, b: int, wh: real, w: int)
    requires Sorted(rows)
    ensures var after := SetOutput(rows, b, wh, w);
            Sorted(after) && after != [] && (after[0].bucket == b || (rows != [] && after[0] == rows[0]))
            && after[0].bucket <= b
  {
    if rows != [] && b > rows[0].bucket {
      SetOutputKeepsOrder(rows[1..], b, wh, w);
    }
  }

  datatype CorrectionError = NoDevice | NegativeWatts | EmptyRange | RangeTooLong
  datatype Correction = Correction(buckets: nat, startBucket: int, endBucket: int, outputW: int)

  /** The minute cells that overlap the half-open range from `start` to `end`. */
  predicate Touched(b: int, start: real, end: real) {
    b % BUCKET_S == 0 && start < (b + BUCKET_S) as real && (b as real) < end
  }

  /** Every touched cell before `b` is corrected, and nothing else differs from `was`. */
  ghost predicate CorrectedBelow(rows: seq<Sample>, was: seq<Sample>, start: real, end: real,
                                 b: int, wh: real, w: int)
  {
    && Sorted(rows)
    && forall k :: Lookup(rows, k) ==
                   if Touched(k, start, end) && k < b then Some(Corrected(Lookup(was, k), wh, w)) else Lookup(was, k)
  }

  lemma CorrectStart(was: seq<Sample>, start: real, end: real, wh: real, w: int)
    requires Sorted(was) && start < end
    ensures CorrectedBelow(was, was, start, end, BucketOf(start), wh, w) && Touched(BucketOf(start), start, end)
  {
    assert forall k | Touched(k, start, end) :: k >= BucketOf(start);
  }

  lemma CorrectNext(rows: seq<Sample>, was: seq<Sample>, start: real, end: real, b: int, wh: real, w: int)
    requires CorrectedBelow(rows, was, start, end, b, wh, w) && Touched(b, start, end)
    ensures CorrectedBelow(SetOutput(rows, b, wh, w), was, start, end, b + BUCKET_S, wh, w)
  {
    var next := SetOutput(rows, b, wh, w);
    SetOutputKeepsOrder(rows, b, wh, w);
    forall k ensures Lookup(next, k) ==
                     if Touched(k, start, end) && k < b + BUCKET_S then Some(Corrected(Lookup(was, k), wh, w))
                     else Lookup(was, k)
    {
      SetOutputLookup(rows, b, wh, w, k);
      assert Touched(k, start, end) && k < b + BUCKET_S ==> k <= b;
    }
  }

  lemma CorrectDone(rows: seq<Sample>, was: seq<Sample>, start: real, end: real, b: int, wh: real, w: int)
    requires CorrectedBelow(rows, was, start, end, b, wh, w) && b as real >= end
    ensures forall k :: Lookup(rows, k) ==
                        if Touched(k, start, end) then Some(Corrected(Lookup(was, k), wh, w)) else Lookup(was, k)
  {
    assert forall k | Touched(k, start, end) :: k < b;
  }

  /** The corrected rows: every minute cell from `b` up to `end`, one after the other. */
  function CorrectRows(rows: seq<Sample>, b: int, end: real, wh: real, w: int): seq<Sample>
    decreases if b as real < end then end.Floor + 1 - b else 0
  {
    if b as real >= end then rows else CorrectRows(SetOutput(rows, b, wh, w), b + BUCKET_S, end, wh, w)
  }

  lemma {:induction false} CorrectRest(rows: seq<Sample>, was: seq<Sample>, start: real, end: real,
                                       b: int, wh: real, w: int)
    requires CorrectedBelow(rows, was, start, end, b, wh, w) && b % BUCKET_S == 0 && start < (b + BUCKET_S) as real
    ensures Sorted(CorrectRows(rows, b, end, wh, w))
    ensures forall k :: Lookup(CorrectRows(rows, b, end, wh, w), k) ==
                        if Touched(k, start, end) then Some(Corrected(Lookup(was, k), wh, w)) else Lookup(was, k)
    decreases if b as real < end then end.Floor + 1 - b else 0
  {
    if b as real >= end {
      CorrectDone(rows, was, start, end, b, wh, w);
    } else {
      CorrectNext(rows, was, start, end, b, wh, w);
      CorrectRest(SetOutput(rows, b, wh, w), was, start, end, b + BUCKET_S, wh, w);
    }
  }

  /** Exactly the minute cells that overlap the range are corrected. */
  lemma CorrectRowsLookup(was: seq<Sample>, start: real, end: real, wh: real, w: int)
    requires Sorted(was) && start < end
    ensures Sorted(CorrectRows(was, BucketOf(start), end, wh, w))
    ensures forall k :: Lookup(CorrectRows(was, BucketOf(start), end, wh, w), k) ==
                        if Touched(k, start, end) then Some(Corrected(Lookup(was, k), wh, w)) else Lookup(was, k)
  {
    CorrectStart(was, start, end, wh, w);
    CorrectRest(was, was, start, end, BucketOf(start), wh, w);
  }

  /** The loop of `correct_output_w` over the device's rows. */
  method CorrectCells(was: seq<Sample>, start: real, end: real, wh: real, w: int)
    returns (rows: seq<Sample>, buckets: nat, lastBucket: int)
    requires Sorted(was) && start < end
    ensures rows == CorrectRows(was, BucketOf(start), end, wh, w)
    ensures lastBucket == BucketOf(start) + (buckets - 1) * BUCKET_S
    ensures Touched(lastBucket, start, end) && !Touched(lastBucket + BUCKET_S, start, end)
  {
    rows, buckets, lastBucket := was, 0, BucketOf(start);
    var b := BucketOf(start);
    while (b as real) < end
      invariant b == BucketOf(start) + buckets * BUCKET_S
      invariant b % BUCKET_S == 0 && start < (b + BUCKET_S) as real
      invariant if buckets == 0 then b as real < end
                else lastBucket == b - BUCKET_S && Touched(lastBucket, start, end)
      invariant CorrectRows(was, BucketOf(start), end, wh, w) == CorrectRows(rows, b, end, wh, w)
      decreases (end - b as real).Floor
    {
      rows := SetOutput(rows, b, wh, w);
      buckets, lastBucket := buckets + 1, b;
      b := b + BUCKET_S;
    }
  }

  /** A correction as it is asked for. */
  datatype Fix = Fix(sn: string, start: real, end: real, outputW: real, maxSpan: int)

  predicate Accepted(x: Fix) {
    x.sn != "" && x.outputW >= 0.0 && x.start < x.end && x.end - x.start <= x.maxSpan as real
  }

  function FixedRows(rows: seq<Sample>, x: Fix): seq<Sample> {
    CorrectRows(rows, BucketOf(x.start), x.end, x.outputW / 60.0, RoundHalfEven(x.outputW))
  }

  function FixedDb(db: Db, x: Fix): Db {
    if Accepted(x) then db.(samples := db.samples[x.sn := FixedRows(RowsOf(db, x.sn), x)]) else db
  }

  /** Every device's rows are in bucket order, one row a bucket. */
  ghost predicate InOrder(db: Db) {
    forall d | d in db.samples :: Sorted(db.samples[d])
  }

  lemma PutKeepsOrder(db: Db, sn: string, rows: seq<Sample>)
    requires InOrder(db) && Sorted(rows)
    ensures InOrder(db.(samples := db.samples[sn := rows]))
  {
  }

  /** The rows and the report of an accepted correction. */
  method CorrectRowsOf(was: seq<Sample>, x: Fix) returns (rows: seq<Sample>, report: Correction)
    requires Sorted(was) && Accepted(x)
    ensures rows == FixedRows(was, x) && Sorted(rows)
    ensures forall k :: Lookup(rows, k) ==
                        if Touched(k, x.start, x.end)
                        then Some(Corrected(Lookup(was, k), x.outputW / 60.0, RoundHalfEven(x.outputW)))
                        else Lookup(was, k)
    ensures report.outputW == RoundHalfEven(x.outputW) && report.startBucket == BucketOf(x.start)
    ensures report.endBucket == BucketOf(x.start) + (report.buckets - 1) * BUCKET_S
    ensures Touched(report.endBucket, x.start, x.end) && !Touched(report.endBucket + BUCKET_S, x.start, x.end)
  {
    var startBucket := BucketOf(x.start);
    var w, wh := RoundHalfEven(x.outputW), x.outputW * (60.0 / 3600.0);
    CorrectRowsLookup(was, x.start, x.end, x.outputW / 60.0, w);
    var after, buckets, lastBucket := CorrectCells(was, x.start, x.end, wh, w);
    rows, report := after, Correction(buckets, startBucket, lastBucket, w);
  }

  /** The database object: the previous reading of every device and the samples table. */
  class EnergyStore {
    var last: map<string, Reading>
    var samples: map<string, seq<Sample>>

    ghost function View(): Db
      reads this
    {
      Db(last, samples)
    }

    ghost predicate Valid()
      reads this
    {
      InOrder(View())
    }

    constructor ()
      ensures Valid() && View() == EMPTY
    {
      last, samples := map[], map[];
    }

    method Record(sn: string, reading: Reading, battery: Option<int>)
      requires Valid()
      modifies this
      ensures Valid()
      ensures View() == Recorded(old(View()), Call(sn, reading, battery))
    {
      if sn == "" {
        return;
      }
      var known := sn in last;
      var prev := if known then last[sn] else reading;
      last := last[sn := reading];
      if !known {
        return;
      }
      var dt := reading.ts - prev.ts;
      if dt <= 0.0 || dt > MAX_GAP_S {
        return;
      }
      var inWh := Trapezoid(prev.inputW, reading.inputW, dt);
      var outWh := Trapezoid(prev.outputW, reading.outputW, dt);
      var solarWh := Trapezoid(prev.solarW, reading.solarW, dt);
      var acWh := Trapezoid(prev.acInputW, reading.acInputW, dt);
      var divWh := Trapezoid(prev.divertedW, reading.divertedW, dt);
      divWh := Min(divWh, outWh);
      var row := Row(Energy(inWh, outWh, solarWh, acWh, divWh),
                     Some(Truncate(reading.inputW)), Some(Truncate(reading.outputW)),
                     Some(Truncate(reading.solarW)), Some(Truncate(reading.acInputW)), battery, 1);
      var rows := if sn in samples then samples[sn] else [];
      assert row == NewRow(Area(prev, reading), Call(sn, reading, battery));
      UpsertKeepsOrder(rows, BucketOf(reading.ts), row);
      samples := samples[sn := Upsert(rows, BucketOf(reading.ts), row)];
    }

    /**
     * Overwrites the output of every minute cell that overlaps the range and nothing else:
     * no other bucket, no other column, no other device.
     */
    method CorrectOutputW(sn: string, start: real, end: real, outputW: real, maxSpan: int)
      returns (r: Result<Correction, CorrectionError>)
      requires Valid()
      modifies `samples
      ensures Valid()
      ensures r.Err? <==> sn == "" || outputW < 0.0 || end <= start || end - start > maxSpan as real
      ensures r.Err? ==> r.error == (if sn == "" then NoDevice else if outputW < 0.0 then NegativeWatts
                                     else if end <= start then EmptyRange else RangeTooLong)
      ensures r.Err? ==> samples == old(samples)
      ensures View() == FixedDb(old(View()), Fix(sn, start, end, outputW, maxSpan))
      ensures r.Ok? ==>
                && samples.Keys == old(samples).Keys + {sn}
                && (forall d | d in old(samples) && d != sn :: samples[d] == old(samples)[d])
                && (forall k :: Lookup(samples[sn], k) ==
                      if Touched(k, start, end)
                      then Some(Corrected(Lookup(RowsOf(old(View()), sn), k), outputW / 60.0, RoundHalfEven(outputW)))
                      else Lookup(RowsOf(old(View()), sn), k))
                && r.value.outputW == RoundHalfEven(outputW) && r.value.startBucket == BucketOf(start)
                && r.value.endBucket == BucketOf(start) + (r.value.buckets - 1) * BUCKET_S
                && Touched(r.value.endBucket, start, end) && !Touched(r.value.endBucket + BUCKET_S, start, end)
    {
      if sn == "" {
        return Err(NoDevice);
      }
      if outputW < 0.0 {
        return Err(NegativeWatts);
      }
      if end <= start {
        return Err(EmptyRange);
      }
      if end - start > maxSpan as real {
        return Err(RangeTooLong);
      }
      var x := Fix(sn, start, end, outputW, maxSpan);
      ghost var was := View();
      var before := if sn in samples then samples[sn] else [];
      assert before == RowsOf(was, sn);
      var rows, report := CorrectRowsOf(before, x);
      PutKeepsOrder(was, sn, rows);
      samples := samples[sn := rows];
      assert View() == FixedDb(was, x) by {
        assert rows == FixedRows(RowsOf(was, sn), x);
      }
      r := Ok(report);
    }
  }

  // ---------- one call, one bucket ----------

  lemma {:induction false} UpsertLookup(rows: seq<Sample>, b: int, r: Row, k: int)
    requires Sorted(rows)
    ensures Lookup(Upsert(rows, b, r), k) ==
            if k != b then Lookup(rows, k)
            else Some(if Lookup(rows, b).Some? then Merge(Lookup(rows, b).value, r) else r)
  {
    if rows == [] || b < rows[0].bucket {
      LookupAbsent(rows, b);
      assert Upsert(rows, b, r)[1..] == rows;
    } else if b > rows[0].bucket {
      UpsertLookup(rows[1..], b, r, k);
      assert Upsert(rows, b, r)[1..] == Upsert(rows[1..], b, r);
    } else {
      assert Upsert(rows, b, r)[1..] == rows[1..];
    }
  }

  /**
   * One call touches at most one row: its own device's, in the bucket of its own timestamp. That row
   * then shows this reading's whole watts and one sample more; a missing battery keeps the old one.
   */
  lemma RecordTouchesOneRow(db: Db, c: Call, sn: string, k: int)
    requires Sorted(RowsOf(db, sn))
    ensures var was, now := Lookup(RowsOf(db, sn), k), Lookup(RowsOf(Recorded(db, c), sn), k);
            if c.sn == sn != "" && sn in db.last && Adjacent(db.last[sn], c.reading) && k == BucketOf(c.reading.ts) then
              && now.Some?
              && now.value.lastOutputW == Some(Truncate(c.reading.outputW))
              && now.value.lastInputW == Some(Truncate(c.reading.inputW))
              && now.value.lastSolarW == Some(Truncate(c.reading.solarW))
              && now.value.lastAcInputW == Some(Truncate(c.reading.acInputW))
              && now.value.sampleCount == 1 + (if was.Some? then was.value.sampleCount else 0)
              && now.value.lastBattery == (if c.battery.None? && was.Some? then was.value.lastBattery else c.battery)
            else now == was
  {
    if c.sn == sn && sn in db.last {
      UpsertLookup(RowsOf(db, sn), BucketOf(c.reading.ts), NewRow(Area(db.last[sn], c.reading), c), k);
    }
  }

  // ---------- totals ----------

  /** Midnight of the local day, as unix seconds. */
  function StartOfDay(now: int, offset: int): (midnight: int)
    ensures midnight <= now < midnight + 86400
    ensures (midnight + offset) % 86400 == 0
  {
    (now + offset) / 86400 * 86400 - offset
  }

  datatype Totals = Totals(lifetime: Energy, today: Energy, last7d: Energy, last30d: Energy)

  function Since(cutoff: int): int -> bool {
    b => b >= cutoff
  }

  function Always(): int -> bool {
    b => true
  }

  function TotalsOf(db: Db, sn: string, now: int, offset: int): Totals {
    var rows := RowsOf(db, sn);
    Totals(SumOf(rows, Always()), SumOf(rows, Since(StartOfDay(now, offset))),
           SumOf(rows, Since(now - 7 * 86400)), SumOf(rows, Since(now - 30 * 86400)))
  }

  /** Every total is the area under the device's own curves: over all time and from its window's start. */
  lemma {:induction false} TotalsAreAreas(calls: seq<Call>, sn: string, now: int, offset: int)
    requires sn != ""
    ensures var t, rs := TotalsOf(RecordAll(calls), sn, now, offset), ReadingsOf(calls, sn);
            && t.lifetime == Areas(rs, Always())
            && t.today == Areas(rs, Since(StartOfDay(now, offset)))
            && t.last7d == Areas(rs, Since(now - 7 * 86400))
            && t.last30d == Areas(rs, Since(now - 30 * 86400))
  {
    Conservation(calls, sn, Always());
    Conservation(calls, sn, Since(StartOfDay(now, offset)));
    Conservation(calls, sn, Since(now - 7 * 86400));
    Conservation(calls, sn, Since(now - 30 * 86400));
  }
}
