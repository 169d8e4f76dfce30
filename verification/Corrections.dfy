/** Runs in which records and dropout corrections interleave: what corrections keep, and what they may break. */
module Corrections {
  import opened Prelude
  import opened EnergyDb

  datatype Event = Records(call: Call) | Corrects(fix: Fix)

  function Step(db: Db, e: Event): Db {
    match e
    case Records(c) => Recorded(db, c)
    case Corrects(x) => FixedDb(db, x)
  }

  function At(es: seq<Event>, n: nat): Db
    requires n <= |es|
  {
    if n == 0 then EMPTY else Step(At(es, n - 1), es[n - 1])
  }

  /** The records among the first `n` events. */
  function CallsOf(es: seq<Event>, n: nat): seq<Call>
    requires n <= |es|
  {
    if n == 0 then []
    else CallsOf(es, n - 1) + if es[n - 1].Records? then [es[n - 1].call] else []
  }

  function RowsAt(es: seq<Event>, n: nat, sn: string): seq<Sample>
    requires n <= |es|
  {
    RowsOf(At(es, n), sn)
  }

  predicate Fixes(e: Event, sn: string) {
    e.Corrects? && Accepted(e.fix) && e.fix.sn == sn
  }

  lemma RecordKeepsSorted(db: Db, c: Call, sn: string)
    requires Sorted(RowsOf(db, sn))
    ensures Sorted(RowsOf(Recorded(db, c), sn))
  {
    if c.sn == sn && sn in db.last {
      UpsertKeepsOrder(RowsOf(db, sn), BucketOf(c.reading.ts), NewRow(Area(db.last[sn], c.reading), c));
    }
  }

  lemma FixKeepsSorted(db: Db, x: Fix, sn: string)
    requires Sorted(RowsOf(db, sn))
    ensures Sorted(RowsOf(FixedDb(db, x), sn))
  {
    if Accepted(x) && x.sn == sn {
      CorrectRowsLookup(RowsOf(db, sn), x.start, x.end, x.outputW / 60.0, RoundHalfEven(x.outputW));
    }
  }

  lemma StepKeepsSorted(db: Db, e: Event, sn: string)
    requires Sorted(RowsOf(db, sn))
    ensures Sorted(RowsOf(Step(db, e), sn))
  {
    match e {
      case Records(c) => RecordKeepsSorted(db, c, sn);
      case Corrects(x) => FixKeepsSorted(db, x, sn);
    }
  }

  lemma {:induction false} SortedAt(es: seq<Event>, n: nat, sn: string)
    requires n <= |es|
    ensures Sorted(RowsAt(es, n, sn))
  {
    if n > 0 {
      SortedAt(es, n - 1, sn);
      StepKeepsSorted(At(es, n - 1), es[n - 1], sn);
    }
  }

  // ---------- what each bucket holds ----------

  /** The energies of one bucket, nothing if it has no row. */
  function WhIn(rows: seq<Sample>, k: int): Energy {
    if Lookup(rows, k).Some? then Lookup(rows, k).value.wh else NO_ENERGY
  }

  /** The area a record adds to bucket `k` of device `sn`, given the device's earlier readings. */
  function AreaIn(before: seq<Reading>, c: Call, sn: string, k: int): Energy {
    if c.sn == sn && before != [] && Adjacent(before[|before| - 1], c.reading) && BucketOf(c.reading.ts) == k
    then Area(before[|before| - 1], c.reading) else NO_ENERGY
  }

  /**
   * What bucket `k` of a device should hold after `n` events: every area recorded in it, with the
   * output replaced by each correction that touches it.
   */
  function EnergyIn(es: seq<Event>, n: nat, sn: string, k: int): Energy
    requires n <= |es|
  {
    if n == 0 then NO_ENERGY
    else
      var was := EnergyIn(es, n - 1, sn, k);
      match es[n - 1]
      case Records(c) =>
        was.Plus(AreaIn(ReadingsOf(CallsOf(es, n - 1), sn), c, sn, k))
      case Corrects(x) =>
        if Fixes(es[n - 1], sn) && Touched(k, x.start, x.end) then was.(output := x.outputW / 60.0) else was
  }

  lemma CallsStep(es: seq<Event>, n: nat)
    requires 0 < n <= |es|
    ensures match es[n - 1]
            case Records(c) => CallsOf(es, n) == CallsOf(es, n - 1) + [c]
            case Corrects(_) => CallsOf(es, n) == CallsOf(es, n - 1)
  {
  }

  lemma RecordedLast(a: Db, b: Db, c: Call)
    requires a.last == b.last
    ensures Recorded(a, c).last == Recorded(b, c).last
  {
  }

  /** Corrections do not disturb the previous readings that integration starts from. */
  lemma {:induction false} LastIsRecorded(es: seq<Event>, n: nat)
    requires n <= |es|
    ensures At(es, n).last == RecordAll(CallsOf(es, n)).last
  {
    if n > 0 {
      LastIsRecorded(es, n - 1);
      CallsStep(es, n);
      if es[n - 1].Records? {
        RecordAllStep(CallsOf(es, n - 1), es[n - 1].call);
        RecordedLast(At(es, n - 1), RecordAll(CallsOf(es, n - 1)), es[n - 1].call);
      }
    }
  }

  /** The previous reading of a device is the last of its own. */
  lemma LastReading(es: seq<Event>, n: nat, sn: string)
    requires n <= |es| && sn != ""
    ensures var rs, last := ReadingsOf(CallsOf(es, n), sn), At(es, n).last;
            if rs == [] then sn !in last else sn in last && last[sn] == rs[|rs| - 1]
  {
    LastIsRecorded(es, n);
    Conservation(CallsOf(es, n), sn, Always());
  }

  lemma UpsertBuckets(rows: seq<Sample>, b: int, row: Row, added: Energy)
    requires Sorted(rows) && added == row.wh
    ensures forall k :: WhIn(Upsert(rows, b, row), k) == WhIn(rows, k).Plus(if k == b then added else NO_ENERGY)
  {
    forall k ensures WhIn(Upsert(rows, b, row), k) == WhIn(rows, k).Plus(if k == b then added else NO_ENERGY) {
      UpsertLookup(rows, b, row, k);
    }
  }

  /** What a record does to the rows of a device, its area taken as given. */
  lemma RecordedRows(db: Db, c: Call, sn: string) returns (added: Energy)
    requires sn != "" && Sorted(RowsOf(db, sn))
    ensures added == if c.sn == sn && sn in db.last && Adjacent(db.last[sn], c.reading)
                     then Area(db.last[sn], c.reading) else NO_ENERGY
    ensures forall k :: WhIn(RowsOf(Recorded(db, c), sn), k) ==
                        WhIn(RowsOf(db, sn), k).Plus(if k == BucketOf(c.reading.ts) then added else NO_ENERGY)
  {
    var rows, b, after := RowsOf(db, sn), BucketOf(c.reading.ts), RowsOf(Recorded(db, c), sn);
    if c.sn == sn && sn in db.last && Adjacent(db.last[sn], c.reading) {
      added := Area(db.last[sn], c.reading);
      var row := NewRow(added, c);
      assert after == Upsert(rows, b, row);
      UpsertBuckets(rows, b, row, added);
    } else {
      added := NO_ENERGY;
      assert after == rows;
      forall k ensures WhIn(after, k) == WhIn(rows, k).Plus(NO_ENERGY) {
        PlusShuffles(WhIn(rows, k), NO_ENERGY, NO_ENERGY);
      }
    }
  }

  lemma FixedRowsOf(db: Db, x: Fix, sn: string)
    ensures RowsOf(FixedDb(db, x), sn) ==
            if Accepted(x) && x.sn == sn then FixedRows(RowsOf(db, sn), x) else RowsOf(db, sn)
  {
  }

  lemma FixBucket(rows: seq<Sample>, x: Fix, k: int)
    requires Sorted(rows) && Accepted(x)
    ensures WhIn(FixedRows(rows, x), k) ==
            if Touched(k, x.start, x.end) then WhIn(rows, k).(output := x.outputW / 60.0) else WhIn(rows, k)
    ensures Lookup(FixedRows(rows, x), k).Some? <==> Lookup(rows, k).Some? || Touched(k, x.start, x.end)
  {
    CorrectRowsLookup(rows, x.start, x.end, x.outputW / 60.0, RoundHalfEven(x.outputW));
  }

  lemma FixDbBucket(db: Db, x: Fix, sn: string, k: int)
    requires Sorted(RowsOf(db, sn))
    ensures WhIn(RowsOf(FixedDb(db, x), sn), k) ==
            if Accepted(x) && x.sn == sn && Touched(k, x.start, x.end)
            then WhIn(RowsOf(db, sn), k).(output := x.outputW / 60.0) else WhIn(RowsOf(db, sn), k)
  {
    FixedRowsOf(db, x, sn);
    if Accepted(x) && x.sn == sn {
      FixBucket(RowsOf(db, sn), x, k);
    }
  }

  lemma RecordBucket(db: Db, c: Call, sn: string, before: seq<Reading>, k: int)
    requires sn != "" && Sorted(RowsOf(db, sn))
    requires if before == [] then sn !in db.last else sn in db.last && db.last[sn] == before[|before| - 1]
    ensures WhIn(RowsOf(Recorded(db, c), sn), k) == WhIn(RowsOf(db, sn), k).Plus(AreaIn(before, c, sn, k))
  {
    var _ := RecordedRows(db, c, sn);
  }

  lemma RecordIsHistory(es: seq<Event>, n: nat, sn: string, k: int)
    requires 0 < n <= |es| && sn != "" && es[n - 1].Records?
    requires WhIn(RowsAt(es, n - 1, sn), k) == EnergyIn(es, n - 1, sn, k)
    ensures WhIn(RowsAt(es, n, sn), k) == EnergyIn(es, n, sn, k)
  {
    var db, c, before := At(es, n - 1), es[n - 1].call, ReadingsOf(CallsOf(es, n - 1), sn);
    SortedAt(es, n - 1, sn);
    LastReading(es, n - 1, sn);
    RecordBucket(db, c, sn, before, k);
    assert At(es, n) == Recorded(db, c);
  }

  lemma FixIsHistory(es: seq<Event>, n: nat, sn: string, k: int)
    requires 0 < n <= |es| && sn != "" && es[n - 1].Corrects?
    requires WhIn(RowsAt(es, n - 1, sn), k) == EnergyIn(es, n - 1, sn, k)
    ensures WhIn(RowsAt(es, n, sn), k) == EnergyIn(es, n, sn, k)
  {
    SortedAt(es, n - 1, sn);
    FixDbBucket(At(es, n - 1), es[n - 1].fix, sn, k);
  }

  /** Every bucket of every device holds what the history says, whatever the interleaving. */
  lemma {:induction false} BucketsAreHistory(es: seq<Event>, n: nat, sn: string, k: int)
    requires n <= |es| && sn != ""
    ensures WhIn(RowsAt(es, n, sn), k) == EnergyIn(es, n, sn, k)
  {
    if n > 0 {
      BucketsAreHistory(es, n - 1, sn, k);
      match es[n - 1] {
        case Records(_) => RecordIsHistory(es, n, sn, k);
        case Corrects(_) => FixIsHistory(es, n, sn, k);
      }
    }
  }

  /**
   * One correction, row by row: a minute that overlaps the range gets the new output and shows its whole watts;
   * its other columns stay, or are empty with one sample where there was no row. Every other row stays.
   */
  lemma CorrectionTouchesOutputOnly(db: Db, x: Fix, k: int)
    requires Sorted(RowsOf(db, x.sn)) && Accepted(x)
    ensures var was, now := Lookup(RowsOf(db, x.sn), k), Lookup(RowsOf(FixedDb(db, x), x.sn), k);
            if k % 60 == 0 && x.start < k as real + 60.0 && (k as real) < x.end then
              && now.Some?
              && now.value.wh.output == x.outputW / 60.0 && now.value.lastOutputW == Some(RoundHalfEven(x.outputW))
              && (was.Some? ==>
                    now.value.(wh := now.value.wh.(output := was.value.wh.output), lastOutputW := was.value.lastOutputW)
                    == was.value)
              && (was.None? ==>
                    && now.value.wh == Energy(0.0, now.value.wh.output, 0.0, 0.0, 0.0) && now.value.sampleCount == 1
                    && now.value.lastInputW == now.value.lastSolarW == now.value.lastAcInputW == None
                    && now.value.lastBattery == None)
            else now == was
  {
    FixedRowsOf(db, x, x.sn);
    CorrectRowsLookup(RowsOf(db, x.sn), x.start, x.end, x.outputW / 60.0, RoundHalfEven(x.outputW));
    assert Touched(k, x.start, x.end) <==> k % 60 == 0 && x.start < k as real + 60.0 && (k as real) < x.end;
  }

  // ---------- what corrections keep ----------

  /** Everything but the output column. */
  function Others(e: Energy): Energy {
    e.(output := 0.0)
  }

  function Picked(s: Sample, sel: int -> bool): Energy {
    if sel(s.bucket) then s.row.wh else NO_ENERGY
  }

  lemma OthersPlus(a: Energy, b: Energy)
    ensures Others(a.Plus(b)) == Others(a).Plus(Others(b))
  {
  }

  lemma SumSplit(rows: seq<Sample>, sel: int -> bool)
    requires rows != []
    ensures SumOf(rows, sel) == Picked(rows[0], sel).Plus(SumOf(rows[1..], sel))
  {
    PlusShuffles(SumOf(rows[1..], sel), NO_ENERGY, NO_ENERGY);
  }

  /** The head and the rest may change, as long as neither changes anything but output. */
  lemma StepKeepsOthers(rows: seq<Sample>, after: seq<Sample>, sel: int -> bool)
    requires rows != [] && after != [] && Others(Picked(rows[0], sel)) == Others(Picked(after[0], sel))
    requires Others(SumOf(rows[1..], sel)) == Others(SumOf(after[1..], sel))
    ensures Others(SumOf(rows, sel)) == Others(SumOf(after, sel))
  {
    SumSplit(rows, sel);
    SumSplit(after, sel);
    OthersPlus(Picked(rows[0], sel), SumOf(rows[1..], sel));
    OthersPlus(Picked(after[0], sel), SumOf(after[1..], sel));
  }

  /** A new row that holds nothing but output. */
  lemma InsertKeepsOthers(rows: seq<Sample>, after: seq<Sample>, sel: int -> bool)
    requires after != [] && after[1..] == rows && Others(Picked(after[0], sel)) == NO_ENERGY
    ensures Others(SumOf(after, sel)) == Others(SumOf(rows, sel))
  {
    OthersPlus(Picked(after[0], sel), SumOf(rows, sel));
    PlusShuffles(NO_ENERGY, Others(SumOf(rows, sel)), NO_ENERGY);
  }

  lemma {:induction false} SetOutputKeepsOthers(rows: seq<Sample>, b: int, wh: real, w: int, sel: int -> bool)
    ensures Others(SumOf(SetOutput(rows, b, wh, w), sel)) == Others(SumOf(rows, sel))
  {
    var after := SetOutput(rows, b, wh, w);
    SetOutputStep(rows, b, wh, w);
    if rows == [] || b < rows[0].bucket {
      InsertKeepsOthers(rows, after, sel);
    } else {
      SetOutputKeepsOthers(rows[1..], b, wh, w, sel);
      StepKeepsOthers(rows, after, sel);
    }
  }

  lemma {:induction false} CorrectRowsKeepOthers(rows: seq<Sample>, b: int, end: real, wh: real, w: int,
                                                 sel: int -> bool)
    ensures Others(SumOf(CorrectRows(rows, b, end, wh, w), sel)) == Others(SumOf(rows, sel))
    decreases if b as real < end then end.Floor + 1 - b else 0
  {
    if b as real < end {
      SetOutputKeepsOthers(rows, b, wh, w, sel);
      CorrectRowsKeepOthers(SetOutput(rows, b, wh, w), b + BUCKET_S, end, wh, w, sel);
    }
  }

  /** In every column but output the rows sum to the areas of these readings. */
  ghost predicate Match(rows: seq<Sample>, rs: seq<Reading>, sel: int -> bool) {
    Others(SumOf(rows, sel)) == Others(Areas(rs, sel))
  }

  lemma RecordKeepsOthers(db: Db, c: Call, sn: string, rs: seq<Reading>, after: seq<Reading>, sel: int -> bool)
    requires sn != "" && Match(RowsOf(db, sn), rs, sel) && after == if c.sn == sn then rs + [c.reading] else rs
    requires if rs == [] then sn !in db.last else sn in db.last && db.last[sn] == rs[|rs| - 1]
    ensures Match(RowsOf(Recorded(db, c), sn), after, sel)
  {
    if c.sn == sn {
      var area := if rs != [] && Adjacent(rs[|rs| - 1], c.reading) && sel(BucketOf(c.reading.ts))
                  then Area(rs[|rs| - 1], c.reading) else NO_ENERGY;
      RecordSum(db, c, sn, sel);
      AreasGrow(rs, c.reading, sel);
      OthersPlus(SumOf(RowsOf(db, sn), sel), area);
      OthersPlus(Areas(rs, sel), area);
    } else {
      assert RowsOf(Recorded(db, c), sn) == RowsOf(db, sn);
    }
  }

  lemma FixKeepsOthers(db: Db, x: Fix, sn: string, sel: int -> bool)
    ensures Others(SumOf(RowsOf(FixedDb(db, x), sn), sel)) == Others(SumOf(RowsOf(db, sn), sel))
  {
    var rows, after := RowsOf(db, sn), RowsOf(FixedDb(db, x), sn);
    FixedRowsOf(db, x, sn);
    if Accepted(x) && x.sn == sn {
      var b, wh, w := BucketOf(x.start), x.outputW / 60.0, RoundHalfEven(x.outputW);
      assert after == CorrectRows(rows, b, x.end, wh, w);
      CorrectRowsKeepOthers(rows, b, x.end, wh, w, sel);
    }
  }

  /** So they do over any set of buckets after `n` events. */
  ghost predicate OthersKept(es: seq<Event>, n: nat, sn: string)
    requires n <= |es|
  {
    forall sel: int -> bool :: Match(RowsAt(es, n, sn), ReadingsOf(CallsOf(es, n), sn), sel)
  }

  lemma ReadingsAt(es: seq<Event>, n: nat, sn: string)
    requires 0 < n <= |es| && es[n - 1].Records?
    ensures var rs, c := ReadingsOf(CallsOf(es, n - 1), sn), es[n - 1].call;
            ReadingsOf(CallsOf(es, n), sn) == if c.sn == sn then rs + [c.reading] else rs
  {
    CallsStep(es, n);
    ReadingsStep(CallsOf(es, n - 1), es[n - 1].call, sn);
  }

  lemma RecordMatches(es: seq<Event>, n: nat, sn: string, sel: int -> bool)
    requires 0 < n <= |es| && sn != "" && es[n - 1].Records?
    requires Match(RowsAt(es, n - 1, sn), ReadingsOf(CallsOf(es, n - 1), sn), sel)
    ensures Match(RowsAt(es, n, sn), ReadingsOf(CallsOf(es, n), sn), sel)
  {
    var db, c := At(es, n - 1), es[n - 1].call;
    var before, after := ReadingsOf(CallsOf(es, n - 1), sn), ReadingsOf(CallsOf(es, n), sn);
    assert RowsAt(es, n, sn) == RowsOf(Recorded(db, c), sn);
    assert if before == [] then sn !in db.last else sn in db.last && db.last[sn] == before[|before| - 1] by {
      LastReading(es, n - 1, sn);
    }
    assert after == if c.sn == sn then before + [c.reading] else before by {
      ReadingsAt(es, n, sn);
    }
    RecordKeepsOthers(db, c, sn, before, after, sel);
  }

  lemma FixMatches(es: seq<Event>, n: nat, sn: string, sel: int -> bool)
    requires 0 < n <= |es| && sn != "" && es[n - 1].Corrects?
    requires Match(RowsAt(es, n - 1, sn), ReadingsOf(CallsOf(es, n - 1), sn), sel)
    ensures Match(RowsAt(es, n, sn), ReadingsOf(CallsOf(es, n), sn), sel)
  {
    CallsStep(es, n);
    FixKeepsOthers(At(es, n - 1), es[n - 1].fix, sn, sel);
  }

  lemma OthersAdvance(es: seq<Event>, n: nat, sn: string)
    requires 0 < n <= |es| && sn != "" && OthersKept(es, n - 1, sn)
    ensures OthersKept(es, n, sn)
  {
    forall sel: int -> bool ensures Match(RowsAt(es, n, sn), ReadingsOf(CallsOf(es, n), sn), sel) {
      match es[n - 1] {
        case Records(_) => RecordMatches(es, n, sn, sel);
        case Corrects(_) => FixMatches(es, n, sn, sel);
      }
    }
  }

  lemma {:induction false} OthersKeptHolds(es: seq<Event>, n: nat, sn: string)
    requires n <= |es| && sn != ""
    ensures OthersKept(es, n, sn)
  {
    if n > 0 {
      OthersKeptHolds(es, n - 1, sn);
      OthersAdvance(es, n, sn);
    }
  }

  /**
   * Corrections lose no other energy: whatever they overwrite, input, solar, AC and diverted energy
   * over any set of buckets stay exactly the areas under the device's own curves.
   */
  lemma OthersConserved(es: seq<Event>, n: nat, sn: string, sel: int -> bool)
    requires n <= |es| && sn != ""
    ensures Others(SumOf(RowsAt(es, n, sn), sel)) == Others(Areas(ReadingsOf(CallsOf(es, n), sn), sel))
  {
    OthersKeptHolds(es, n, sn);
    assert Match(RowsAt(es, n, sn), ReadingsOf(CallsOf(es, n), sn), sel);
  }

  // ---------- what corrections may break ----------

  /** Diverted energy is within output energy in every bucket. */
  ghost predicate Within(rows: seq<Sample>) {
    forall k :: WhIn(rows, k).diverted <= WhIn(rows, k).output
  }

  /** What a caller can check first: the new output reaches what each touched row already has as diverted. */
  ghost predicate Guard(rows: seq<Sample>, x: Fix) {
    forall k | Touched(k, x.start, x.end) && Lookup(rows, k).Some? ::
      Lookup(rows, k).value.wh.diverted * 60.0 <= x.outputW
  }

  lemma FixKeepsWithinExactly(rows: seq<Sample>, x: Fix)
    requires Sorted(rows) && Within(rows) && Accepted(x)
    ensures Within(FixedRows(rows, x)) <==> Guard(rows, x)
  {
    var after := FixedRows(rows, x);
    forall k ensures WhIn(after, k) ==
                     if Touched(k, x.start, x.end) then WhIn(rows, k).(output := x.outputW / 60.0) else WhIn(rows, k)
    {
      FixBucket(rows, x, k);
    }
    if Within(after) {
      forall k | Touched(k, x.start, x.end) && Lookup(rows, k).Some?
        ensures Lookup(rows, k).value.wh.diverted * 60.0 <= x.outputW
      {
        assert WhIn(after, k).diverted <= WhIn(after, k).output;
      }
    }
  }

  lemma PlusWithin(a: Energy, b: Energy)
    requires a.diverted <= a.output && b.diverted <= b.output
    ensures a.Plus(b).diverted <= a.Plus(b).output
  {
  }

  lemma RecordKeepsWithin(db: Db, c: Call, sn: string)
    requires Sorted(RowsOf(db, sn)) && Within(RowsOf(db, sn))
    ensures Within(RowsOf(Recorded(db, c), sn))
  {
    if sn != "" {
      var added := RecordedRows(db, c, sn);
      forall k ensures WhIn(RowsOf(Recorded(db, c), sn), k).diverted <= WhIn(RowsOf(Recorded(db, c), sn), k).output {
        PlusWithin(WhIn(RowsOf(db, sn), k), if k == BucketOf(c.reading.ts) then added else NO_ENERGY);
      }
    }
  }

  lemma {:induction false} RecordsStayWithin(calls: seq<Call>, sn: string)
    ensures Within(RowsOf(RecordAll(calls), sn))
  {
    if calls != [] {
      RecordsStayWithin(calls[..|calls| - 1], sn);
      RowsStaySorted(calls[..|calls| - 1], sn);
      RecordKeepsWithin(RecordAll(calls[..|calls| - 1]), calls[|calls| - 1], sn);
    }
  }

  /**
   * One correction after any run of records leaves every bucket with diverted energy within output
   * energy exactly when the new output reaches what each touched row already has as diverted.
   */
  lemma CorrectionKeepsDivertedExactly(calls: seq<Call>, x: Fix)
    requires Accepted(x)
    ensures Within(RowsOf(FixedDb(RecordAll(calls), x), x.sn)) <==> Guard(RowsOf(RecordAll(calls), x.sn), x)
  {
    RecordsStayWithin(calls, x.sn);
    RowsStaySorted(calls, x.sn);
    FixKeepsWithinExactly(RowsOf(RecordAll(calls), x.sn), x);
  }

  /** Ten watt-hours recorded as diverted, and the minute then corrected to nothing. */
  lemma CorrectionExample()
    ensures var a := Call("d", Reading(0.0, 0.0, 600.0, 0.0, 0.0, 600.0), None);
            var b := Call("d", Reading(60.0, 0.0, 600.0, 0.0, 0.0, 600.0), None);
            var x := Fix("d", 60.0, 120.0, 0.0, 3600);
            Accepted(x) && !Within(RowsOf(FixedDb(RecordAll([a, b]), x), "d"))
  {
    var a := Call("d", Reading(0.0, 0.0, 600.0, 0.0, 0.0, 600.0), None);
    var b := Call("d", Reading(60.0, 0.0, 600.0, 0.0, 0.0, 600.0), None);
    var x := Fix("d", 60.0, 120.0, 0.0, 3600);
    RecordAllStep([], a);
    RecordAllStep([a], b);
    assert [] + [a] == [a] && [a] + [b] == [a, b];
    var db := RecordAll([a]);
    assert db.last == map["d" := a.reading] && RowsOf(db, "d") == [];
    assert BucketOf(60.0) == 60;
    var row := NewRow(Area(a.reading, b.reading), b);
    assert row.wh.diverted == 10.0;
    assert RowsOf(RecordAll([a, b]), "d") == [Sample(60, row)];
    assert Lookup([Sample(60, row)], 60) == Some(row) && Touched(60, x.start, x.end);
    CorrectionKeepsDivertedExactly([a, b], x);
  }

  ghost predicate AlwaysWithin(es: seq<Event>, n: nat, sn: string)
    requires n <= |es|
  {
    forall m: nat | m <= n :: Within(RowsAt(es, m, sn))
  }

  ghost predicate AllGuarded(es: seq<Event>, n: nat, sn: string)
    requires n <= |es|
  {
    forall i: nat | i < n && Fixes(es[i], sn) :: Guard(RowsAt(es, i, sn), es[i].fix)
  }

  lemma StepKeepsWithinExactly(db: Db, e: Event, sn: string)
    requires Sorted(RowsOf(db, sn)) && Within(RowsOf(db, sn))
    ensures Within(RowsOf(Step(db, e), sn)) <==> (Fixes(e, sn) ==> Guard(RowsOf(db, sn), e.fix))
  {
    match e {
      case Records(c) => RecordKeepsWithin(db, c, sn);
      case Corrects(x) =>
        if Fixes(e, sn) {
          FixKeepsWithinExactly(RowsOf(db, sn), x);
        }
    }
  }

  /**
   * Over any interleaving of records and corrections: diverted energy stays within output energy in
   * every bucket at all times exactly when every accepted correction of the device met the guard.
   */
  lemma {:induction false} DivertedWithinExactly(es: seq<Event>, n: nat, sn: string)
    requires n <= |es|
    ensures AlwaysWithin(es, n, sn) <==> AllGuarded(es, n, sn)
  {
    if n == 0 {
      assert RowsAt(es, 0, sn) == [];
    } else {
      DivertedWithinExactly(es, n - 1, sn);
      SortedAt(es, n - 1, sn);
      assert AlwaysWithin(es, n, sn) <==> AlwaysWithin(es, n - 1, sn) && Within(RowsAt(es, n, sn));
      assert AllGuarded(es, n, sn) <==>
             AllGuarded(es, n - 1, sn) && (Fixes(es[n - 1], sn) ==> Guard(RowsAt(es, n - 1, sn), es[n - 1].fix));
      if AlwaysWithin(es, n - 1, sn) {
        StepKeepsWithinExactly(At(es, n - 1), es[n - 1], sn);
      }
    }
  }

  lemma GridGap(a: int, b: int)
    requires a % BUCKET_S == 0 && b % BUCKET_S == 0
    ensures a < b + BUCKET_S <==> a <= b
  {
    assert a == a / BUCKET_S * BUCKET_S && b == b / BUCKET_S * BUCKET_S;
  }

  /** The corrected minutes are those that start in the range exactly when the range starts on a minute. */
  lemma StartMinuteExactly(start: real, end: real)
    requires start < end
    ensures (forall b | b % BUCKET_S == 0 :: Touched(b, start, end) <==> start <= b as real < end) <==>
            start == BucketOf(start) as real
  {
    var first := BucketOf(start);
    assert Touched(first, start, end);
    if start == first as real {
      forall b | b % BUCKET_S == 0 ensures Touched(b, start, end) <==> start <= b as real < end {
        GridGap(first, b);
        assert start < (b + BUCKET_S) as real <==> first < b + BUCKET_S;
      }
    } else {
      assert first % BUCKET_S == 0 && !(start <= first as real);
    }
  }

  /** A range from half past the first minute rewrites that minute although it does not start in the range. */
  lemma StartMinuteExample()
    ensures Touched(60, 90.0, 120.0) && !(90.0 <= 60 as real < 120.0)
  {
  }
}
