# A verified model of the energy dashboard's core logic

The dashboard polls power stations, inverters, BMS packs and smart plugs, decides when to switch
them, and keeps the energy books. This project models the parts of it that decide something or keep
a record, and proves what they promise over whole runs, for every input.

Each imperative part is a class or a method with loops, proved equal to a specification function;
the lemmas then prove what the program promises about that function.

| module | what it models |
|---|---|
| `Watchdog` | one device's recovery state and the tick that may answer "cycle" (a power cut) |
| `WatchdogRuns` | runs of ticks, user commands and dismissals: how often power is cut, what the badge means |
| `WatchdogSignature`, `WatchdogHistory` | why power is cut, told from what was seen alone; cached frames |
| `JbdCodec`, `JbdStream` | BMS frames: printer, parser, checksum; the notify buffer and the reply queue |
| `ProtoWire` | the wire scanner for undeclared fixed32 fields, against an encoder (Protocol Buffers Encoding, sections "Base 128 Varints", "Message Structure" and "Last One Wins") |
| `EnergyDb`, `Integration`, `Corrections`, `History`, `PackLookup` | the energy integrator, what its watt-hours mean, dropout corrections between records, regrouping and windowed queries, the nearest-snapshot lookup |
| `Automation`, `Intervals` | edge-triggered rules over any run; pairing of on and off firings |
| `ClockText`, `LoadSchedule`, `ScheduleNormal` | the calendar load schedule and its normaliser |
| `WeightedSoc` | capacity-weighted charge through the BMS overlay and then the EcoFlow overlay |
| `Journal` | the append-only capture file and cursor paging over it |
| `Prelude`, `Arithmetic` | shared types, Python's rounding, facts about multiplication and division |

Times, watts, watt-hours and charges are real numbers; Python's `int()`, `round()` and `//` are
written out. Clocks, plug calls, disk writes and generated ids are parameters of the operations.

## Findings

Properties that hold only under a condition. Each has a lemma with the exact condition, and where the
condition can fail an input on which it does.

- Three power cuts between two high-output frames is a guarantee on undismissed runs only when the
  retry interval is longer than 9 seconds (`WatchdogRuns.ThreeCutsExactly`); the default is 10. When
  the error is dismissed, the exact bound is four for intervals above 3 seconds, five above 1.5 and
  six otherwise (`WatchdogRuns.DismissedBoundsExactly`).
- A one-byte corruption of the command byte passes the parser, because the checksum does not cover
  it; every other one is rejected (`JbdCodec.OneByteCorruption`).
- A response printed with a status outside one byte is summed with the whole status and sent with its low
  byte: its checksum is right exactly when the difference is a multiple of 2^16
  (`JbdCodec.PrintedAddsToZero`, `WideStatusExample`).
- `correct_output_w` can leave more diverted than output energy in a minute. Over any interleaving of
  records and corrections that never happens exactly when every correction reaches what the rows it
  touches already have as diverted (`Corrections.DivertedWithinExactly`, `CorrectionExample`).
- `correct_output_w` also rewrites the minute that contains the start, where its comment speaks of
  minutes that start in range; the two agree exactly when the start is on a minute
  (`Corrections.StartMinuteExactly`, `StartMinuteExample`).
- `query_samples` reports one expected bucket too many exactly when the window starts off the grid
  (`History.ExpectedBucketsExactly`, `ExpectedBucketsExample`).
- Normalising a schedule changes the load of a window exactly when it names a day but exceeds 20000 W
  (dropped), or is weekly without a valid weekday and its watts do not round to zero (it gets every
  day) (`ScheduleNormal.MeaningKeptExactly`, `LosingExamples`).
- Normalising twice differs from normalising once exactly when a kept label is cut at 80 characters
  right after a blank (`ScheduleNormal.NormalizeTwiceExactly`, a device in `CutCaptionDeviceChanges`).
- A stale pack gives its capacity to the headline but not its own charge, and a capacity override
  weighs whatever it says. Where the headline's weight is not that of the fresh packs, the shown mean is
  right exactly when no unit takes part or both groups have the same mean
  (`WeightedSoc.StalePacksBiasExactly`); `StalePackExample` is off by 40 points.
- `_capacity_weighted_soc` says it stays in 0..100. It does exactly when the main charge does or there
  is a snapshot to weigh (`PackLookup.InRangeExactly`, `OutOfRangeExample`).
- The capture journal numbers an event after a failed flush like the one that failed. If the buffered
  line reaches the file after all, cursor paging can lose an event: it is right exactly when no line of
  a failed emit stands before another (`Journal.RunPagesExactly`). For failed flushes that is when no
  later emit succeeds and closing the file pushes out at most one of the failed lines
  (`Journal.FailedFlushExactly`, `SkippedEventExample`, `FinishedCaptureExample`).
- The watchdog's own text says an episode clears only on genuine output recovery; a report of the
  port being off, and a dismissal, clear it too. The latch holds exactly while none of these has
  happened (`WatchdogHistory.LatchedExactly`).

## Model

| member | source | states |
|---|---|---|
| Watchdog.WatchdogState.Track | inverter_watchdog.py:95-141 | one frame moves the detector as specified: floor, dedup, port-off, high, low, mid and arming branches |
| Watchdog.WatchdogState.Evaluate | inverter_watchdog.py:144-243 | one tick changes the runtime and answers exactly as specified, in the order grace, port off, healthy, grace, cap, pacing |
| Watchdog.WatchdogState.RecordUserOff | inverter_watchdog.py:246-250 | stamps the user's OFF and touches nothing else |
| Watchdog.WatchdogState.DismissError | inverter_watchdog.py:253-262 | resets recovery and streak, keeps the high mark, the dedup stamp and the user's OFF |
| WatchdogRuns.DetectorAbstracts | inverter_watchdog.py:108-141 | the detector moves by what a frame shows alone: pacing, caps and badge never feed back |
| WatchdogRuns.SpanStep | inverter_watchdog.py:108-243 | one event keeps the span invariant: each episode costs 6 s after the high mark, each second cut a retry interval, and the last episode's streak started within 15 s |
| WatchdogRuns.SpanBoundHolds | inverter_watchdog.py:108-243 | the invariant over every run on a non-decreasing positive clock, dismissals included |
| WatchdogRuns.AtMostThreeEpisodes | inverter_watchdog.py:89-93 | between high frames at most 3 episodes latch and power is cut at most 6 times, for any mix of retry intervals and any dismissals |
| WatchdogRuns.DismissedBoundsExactly | inverter_watchdog.py:253-262 | with dismissals the bound is 4 if and only if the interval exceeds 3 s, 5 if and only if it exceeds 1.5 s, 6 always; 3 is never a bound |
| WatchdogRuns.DismissedRun | inverter_watchdog.py:253-262 | runs that reach 4, 5 and 6 cuts |
| WatchdogRuns.PacedBoundStep | inverter_watchdog.py:234-243 | after a second cut no new streak can start close enough to the high frame |
| WatchdogRuns.PacedBoundHolds | inverter_watchdog.py:108-243 | the paced invariant over every undismissed run with interval above 9 s |
| WatchdogRuns.PacedRun | inverter_watchdog.py:194-204 | undismissed runs with 3 cuts at every interval, and with 4 at intervals of at most 9 s, an off report resetting the cap between them |
| WatchdogRuns.ThreeCutsExactly | inverter_watchdog.py:57-61 | at most 3 cuts per high frame on every run if and only if the retry interval exceeds 9 s |
| WatchdogRuns.ThreeCutsHappen | inverter_watchdog.py:83 | three cuts occur at every retry interval, the default included, so the bound is tight |
| WatchdogRuns.CutsBetweenHighFrames | inverter_watchdog.py:186-243 | any stretch without an accepted high frame holds at most 3 cuts |
| WatchdogRuns.CutsAreSpaced | inverter_watchdog.py:234-243 | two cuts without a dismissal between are at least the retry interval apart, whatever resets happen |
| WatchdogRuns.LastAttemptAdvances | inverter_watchdog.py:57-61 | the pacing clock survives idle resets, port-off reports and new episodes |
| WatchdogRuns.BadgeMeansExhausted | inverter_watchdog.py:215-233 | on every run both counters agree, and the badge shows only for a latched episode that has used up its cuts |
| WatchdogRuns.BadgeOutlastsTicks | inverter_watchdog.py:213-233 | the badge stays for as long as the episode stays latched, user grace included |
| WatchdogSignature.Recall | inverter_watchdog.py:73-79 | every detector field points at the frame in the history that set it |
| WatchdogSignature.TripExactly | inverter_watchdog.py:131-141 | the latch is set if and only if a full signature stands in the history, uncleared |
| WatchdogHistory.StampsAreHistory | inverter_watchdog.py:102-107 | the dedup stamp is that of the latest frame that was looked at |
| WatchdogHistory.SightsAreHistory | inverter_watchdog.py:102-130 | what each frame shows the detector follows from the run alone: port, grace, stamps and watts |
| WatchdogHistory.DetectorFollowsLooks | inverter_watchdog.py:108-130 | the run's detector is the one computed from what was seen |
| WatchdogHistory.LatchedExactly | inverter_watchdog.py:131-141 | over runs: latched if and only if high frame, then 3 lows within 15 s spanning 6 s unbroken, then nothing that clears |
| WatchdogHistory.BooksAreCounts | inverter_watchdog.py:234-242 | the pacing clock is the time of the last cut since a dismissal, the cap counter the number of cuts since the latch |
| WatchdogHistory.GraceExactly | inverter_watchdog.py:62-72 | grace holds if and only if an OFF intent was announced and not settled, or the user's last OFF is recent |
| WatchdogHistory.AnswersExactly | inverter_watchdog.py:183-243 | every answer of every run, all five of them, as a function of the history alone |
| WatchdogHistory.CutsExactlyWhenJustified | inverter_watchdog.py:183-243 | a tick cuts power if and only if such a signature stands, no OFF is pending or recent, fewer than two cuts were made since the latch and the interval since the last cut passed; then the port reports on |
| WatchdogHistory.BadgeExactly | inverter_watchdog.py:213-233 | over every run the badge shows if and only if some tick answered with an error, by the history, and the signature stood after every event since |
| WatchdogHistory.CachedFrameIsInert | inverter_watchdog.py:102-107 | a re-served frame leaves the detector and what it depends on unchanged |
| WatchdogHistory.OffMeansClear | inverter_watchdog.py:194-204 | after a tracked port-off frame there is no streak and no episode |
| WatchdogHistory.CachedFramesDoNotCount | inverter_watchdog.py:95-107 | stuttering: dropping every re-served tick from a run changes the detector nowhere |
| JbdCodec.ChecksumNeverAliases | jbd_bms.py:47-50 | equal checksums if and only if equal status and payload sums: 16 bits never wrap |
| JbdCodec.ParseAfterBuild | jbd_bms.py:60-66 | parsing a printed frame recovers command and payload, or reports the non-zero status |
| JbdCodec.BuildAfterParse | jbd_bms.py:96-112 | printing what was parsed gives the bytes back |
| JbdCodec.ParsesExactlyThePrinted | jbd_bms.py:96-112 | the parser accepts exactly the printed status-0 frames |
| JbdCodec.AcceptedExactly | jbd_bms.py:96-112 | on raw bytes: accepted if and only if markers, length and a zero status are right and the bytes from status to checksum word add up to 0 modulo 2^16; then command and payload are the second byte and the middle; a bad checksum if and only if that sum alone is wrong |
| JbdCodec.PrintedAddsToZero | jbd_bms.py:47-66 | a printed frame has markers, length and payload in place, and its bytes add up to 0 modulo 2^16 if and only if cutting the status to a byte loses nothing modulo 2^16, as for every status that is a byte |
| JbdCodec.WideStatusExample | jbd_bms.py:60-66 | a response printed with status 256 is refused for its checksum |
| JbdCodec.OrdinaryReply | jbd_bms.py:96-112 | the reply DD 03 00 02 00 01 FF FD 77 is accepted |
| JbdCodec.PayloadSwapDetected | jbd_bms.py:105-109 | another payload under the same header is accepted if and only if its byte sum is equal |
| JbdCodec.OneByteCorruption | jbd_bms.py:96-112 | one changed byte is accepted if and only if it is the command byte |
| JbdCodec.S16 | jbd_bms.py:119-121 | the signed value in 16-bit range congruent to the unsigned one |
| JbdCodec.CellsRoundTrip | jbd_bms.py:172-176 | any list of 16-bit registers is read back unchanged |
| JbdStream.ExtractFrames | jbd_bms.py:69-93 | the scan loop computes the specified frames and leftover, resynchronising after a false start |
| JbdStream.ExtractConcat | jbd_bms.py:69-93 | scanning two parts with the leftover carried over equals scanning the whole, for all bytes |
| JbdStream.FragmentationInvariance | bms_ble.py:166-172 | any cutting of a stream into notifications gives the same frames and leftover |
| JbdStream.SkipFalseStarts | jbd_bms.py:86-91 | resynchronisation: noise of false starts is skipped byte by byte and hides nothing that follows |
| JbdStream.StrayStartExample | jbd_bms.py:86-91 | a reply behind a stray start byte comes out whole |
| JbdStream.StreamExtracts | jbd_bms.py:60-93 | printed frames between noise free of start bytes come out exactly, payload bytes unrestricted |
| JbdStream.Delivery | bms_ble.py:166-172 | the same in any fragmentation, with nothing left over |
| JbdStream.Poller.OnNotify | bms_ble.py:166-172 | one notification extends the queue and replaces the buffer as specified; the event is set when frames arrived |
| JbdStream.Poller.TakeCmd | bms_ble.py:174-183 | returns the first frame that answers the command, removes only it, keeps the rest in order |
| JbdStream.TakeKeepsOrder | bms_ble.py:174-183 | a take moves the head of its command's line and disturbs no other line |
| JbdStream.EachCommandIsFifo | bms_ble.py:163-183 | under any interleaving: taken then queued frames of a command are the received ones, none lost, doubled or overtaken |
| JbdStream.RepliesArriveInOrder | bms_ble.py:155-183 | from printed stream to caller: the replies for a command come out as sent, in order |
| ProtoWire.ReadVarintAt | ecoflow_delta3.py:83-96 | the loop reads the specified value and position, ten bytes at most |
| ProtoWire.ExtractUndeclaredFloats | ecoflow_delta3.py:99-138 | the loop computes the specified scan, early exits included |
| ProtoWire.VarintRoundTrip | ecoflow_delta3.py:83-96 | reading an encoded number of up to 70 bits returns it and its length, whatever follows |
| ProtoWire.TruncatedVarint | ecoflow_delta3.py:83-96 | a cut varint is no number and uses up what is there |
| ProtoWire.PassRecord | ecoflow_delta3.py:115-137 | one pass over a whole record moves past it and reports only a fixed32 word |
| ProtoWire.PassCutRecord | ecoflow_delta3.py:115-137 | a cut record never yields a word |
| ProtoWire.ScanInvertsEncoding | ecoflow_delta3.py:99-138 | on every prefix of an encoded message the scan reports what the complete records say; nested bytes never contribute |
| ProtoWire.LastOneWins | ecoflow_delta3.py:131-134 | a name is reported if and only if a record carries it, with the last such word |
| ProtoWire.UnknownTypeStops | ecoflow_delta3.py:115-137 | after a tag of wire type 3, 4, 6 or 7 nothing is reported, whatever bytes follow: the records before it decide |
| ProtoWire.OverlongVarint | ecoflow_delta3.py:83-96 | ten bytes that all ask for another are no number and are used up |
| EnergyDb.BucketOf | energy_db.py:539 | the minute on the 60 s grid that contains the timestamp |
| EnergyDb.EnergyStore.Record | energy_db.py:503-567 | one call updates previous reading and samples table exactly as specified, rows kept in order |
| EnergyDb.UpsertSum | energy_db.py:542-563 | an upsert adds its energies to any selected sum holding its bucket, in every column |
| EnergyDb.Conservation | energy_db.py:503-567 | over any interleaved run, each device's rows sum to the trapezoid areas of its own adjacent readings, for any set of buckets |
| Integration.ConstantWatts | energy_db.py:521-538 | constant watts, different in each column, add up to watts times elapsed hours, each column to its own, diverted at most output |
| Integration.StraightLine | energy_db.py:521-538 | a reading inserted on the straight line between two adjacent ones changes no energy, and can only lower diverted |
| Integration.RampExample | energy_db.py:521-526 | 0 W and 600 W a minute apart make 5 Wh |
| Integration.IntegratesExactly | energy_db.py:508-520 | a reading changes its device's rows if and only if it follows the last one by more than 0 and at most 600 s |
| EnergyDb.DivertedWithinOutput | energy_db.py:521-538 | diverted never exceeds output in any bucket or union of buckets, watts of any sign |
| EnergyDb.RowsStaySorted | energy_db.py:539-567 | one row a bucket, in order, after any run |
| EnergyDb.RecordTouchesOneRow | energy_db.py:541-567 | a call touches one row at most: whole watts of this reading, one sample more, missing battery keeps the old one |
| EnergyDb.EnergyStore.CorrectOutputW | energy_db.py:579-639 | error cases, and otherwise output overwritten in exactly the minutes overlapping the range, all else unchanged |
| EnergyDb.CorrectCells | energy_db.py:611-633 | the loop computes the specified rows and reports their number and last |
| EnergyDb.CorrectRowsLookup | energy_db.py:611-633 | the specified rows differ from the old ones in exactly the minutes overlapping the range, in output only |
| Corrections.BucketsAreHistory | energy_db.py:503-633 | under any interleaving each bucket holds the areas recorded in it, its output replaced by each correction that touches it and added to afterwards |
| Corrections.CorrectionTouchesOutputOnly | energy_db.py:611-633 | row by row: overlapped minutes get output energy and whole watts, keep every other column, or start empty with one sample; all other rows stay |
| Corrections.OthersConserved | energy_db.py:579-633 | corrections leave input, solar, AC and diverted energy of any set of buckets the areas under the device's curves |
| Corrections.CorrectionKeepsDivertedExactly | energy_db.py:620-631 | after any run of records, a correction keeps diverted within output in every bucket if and only if it reaches each touched row's diverted energy |
| Corrections.DivertedWithinExactly | energy_db.py:503-633 | over any interleaving, diverted stays within output at all times if and only if every correction met that guard |
| Corrections.CorrectionExample | energy_db.py:620-631 | two records and a correction to zero that leave diverted above output |
| Corrections.StartMinuteExactly | energy_db.py:611-619 | the rewritten minutes are those starting in the range if and only if the range starts on a minute |
| Corrections.StartMinuteExample | energy_db.py:611-619 | a range starting at 90 s rewrites the minute at 60 s |
| EnergyDb.StartOfDay | energy_db.py:1614-1620 | the local midnight at most a day before now |
| EnergyDb.TotalsAreAreas | energy_db.py:672-709 | lifetime, today, 7 d and 30 d totals are areas under the device's own curves |
| History.GridPoint | energy_db.py:1457 | the grid point of a bucket under SQLite's truncating division |
| History.GroupingConserves | energy_db.py:1456-1473 | every history row holds exactly the samples of its cell, so any selection of rows sums to them |
| History.HistoryIsAreas | energy_db.py:1453-1473 | from readings to chart: rows of any width sum to the areas from the cutoff on |
| History.GroupsAscend | energy_db.py:1471-1472 | one row a cell, on the grid, in order |
| History.RegroupingRefines | energy_db.py:1456-1473 | grouping the finer history again at a multiple equals grouping directly |
| History.ClipRows | advisor_routes.py:1013-1028 | the loop keeps exactly the rows in the half-open window; each keeps its cell's time, and its watts over the cell's seconds are the cell's watt-seconds, to one watt, towards zero |
| History.QuerySamples | advisor_routes.py:976-1045 | the whole branch: error cases, lookback, clip, the first 500 rows as average watts over the served width, and true counts |
| Integration.ConstantWattsAreShown | advisor_routes.py:1005-1022 | from readings to the advisor: a cell over which the device drew constant watts shows exactly those, cut to whole watts, in every column at every width |
| History.HoursBack | advisor_routes.py:1001 | the fewest hours reaching the start with one to spare |
| History.UnclampedWindowIsWhole | advisor_routes.py:990-1004 | unless clamped, every returned row aggregates its whole cell |
| History.ExpectedBucketsExactly | advisor_routes.py:1038-1044 | the formula counts the window's grid points if and only if the start is on the grid, else one more |
| History.ExpectedBucketsExample | advisor_routes.py:1038-1044 | a window without a grid point of which one bucket is expected |
| History.RowsWithinExpected | advisor_routes.py:1038-1044 | never more rows than expected buckets |
| PackLookup.BisectLeft | energy_db.py:1574 | how many snapshots lie before the target |
| PackLookup.NearestSnapshot | energy_db.py:1574-1583 | the two neighbours suffice: closest of all in the window, ties to the later, none if and only if the window is empty |
| PackLookup.ClosestIsUnique | energy_db.py:1583 | the full search has one answer |
| PackLookup.CapacityWeightedSoc | energy_db.py:1558-1591 | the result is decided by the closest snapshot of the whole list; each fallback returns the main charge |
| PackLookup.InRangeExactly | energy_db.py:1570-1591 | the result lies in 0..100 if and only if the main charge does or there is a snapshot to weigh |
| PackLookup.OutOfRangeExample | energy_db.py:1581-1582 | a main charge of 150 with no snapshot in the window comes back as 150 |
| PackLookup.WeightedBetween | energy_db.py:1587-1590 | the weighted charge lies between the least and the greatest entering it |
| PackLookup.AgreesWithOverlay | energy_db.py:1587-1591 | for positive capacities the result is the mean that the live overlay computes for the main unit and its packs, clamp included |
| PackLookup.WindowByDistance | energy_db.py:1580 | in the window means nearer than its width, or at its very start |
| PackLookup.ClampIsIdentity | energy_db.py:1591 | for charges in 0..100 the clamp changes nothing |
| Automation.OperatorsAgree | automation.py:93-109 | the five comparisons as one order: complements, bounds, the half-point band of "="; no number or another operator never matches |
| Automation.OperatorsPoint | automation.py:93-109 | "<" and "<=" that match at a charge match at every lower one and below the threshold, ">=" and ">" at every higher one and above; at the threshold only "<=", "=" and ">=" match |
| Automation.FiresOnItsSide | automation.py:252-312 | an evaluation calls a rule's plug if and only if the rule is enabled, its edge unused and its own device, else the active one, reads on the side the rule names; it fires if and only if that call succeeds |
| Automation.NeverOnTheOtherSide | automation.py:93-109 | a "below" rule never fires while its device reads above the threshold, an "above" rule never below |
| Automation.EvaluationWrites | automation.py:262-312 | an evaluation writes no setting: a firing stamps the time, clears the error and uses the edge, a failed call only sets the error |
| Automation.HeldExactly | automation.py:252-312 | the remembered state is true if and only if the history shows the edge used and the stretch unbroken |
| Automation.FiresExactly | automation.py:252-312 | a rule fires if and only if its condition holds, the plug call succeeds and the stretch is unused |
| Automation.StretchFiresOnce | automation.py:262-312 | a stretch fires exactly once if any plug call in it succeeds, else never; missing readings do not split it |
| Automation.AutomationEngine.Evaluate | automation.py:238-315 | the loop updates every rule as specified, returns exactly the rules that fired, in order, and makes exactly one plug call for each rule that is due: to its own plug, with its own command |
| Automation.AutomationEngine.DisableMany | automation.py:214-235 | disables and resets exactly the listed enabled rules and reports their ids in rule order |
| Automation.DisablingIsExact | automation.py:214-235 | a listed enabled rule is off and starts afresh, every other rule is as it was |
| Automation.AutomationEngine.Upsert | automation.py:192-204 | rejects bad rules; replaces in place keeping the last firing, or appends; ids stay unique |
| Automation.EditKeepsLastFiring | automation.py:192-204 | an edit replaces the rule but keeps the time of its last firing unless a new one is given |
| Automation.RunProjects | automation.py:252-312 | each rule's state over a run of the engine is that of its own history |
| Automation.EngineFiresExactly | automation.py:192-315 | over any run of evaluations, edits and disables, a rule fires in an evaluation if and only if what the run showed it says so |
| Automation.FiringIsOwn | automation.py:252-312 | two runs that show one rule the same readings, own plug results, disables and edits of its id fire it alike, whatever the other rules, devices, plugs and clocks |
| Intervals.AutomationOnIntervals | automation_tables.py:338-378 | the pairing loop computes the specified intervals |
| Intervals.PairingIsPointwise | automation_tables.py:345-378 | an instant is in an interval if and only if the latest on or off firing at or before it says on |
| Intervals.ReportIsOrdered | automation_tables.py:345-378 | intervals are ordered and disjoint, only the last may be open |
| Intervals.DurationsAddUp | automation_tables.py:350-378 | durations sum to the gaps the plug was left on, up to now |
| Intervals.IntervalsNameTheirRules | automation_tables.py:350-364 | every closed interval is bounded by an on and a later off firing and names both rules |
| ClockText.HhmmRoundTrip | load_schedule.py:52-71 | a formatted time reads back as itself |
| ClockText.HhmmReadsExactly | load_schedule.py:52-66 | two printed numbers around a colon read as a time if and only if they are an hour and a minute |
| ClockText.IntRoundTrip | load_schedule.py:60-63 | every printed number reads as itself, with either sign |
| ClockText.StripExactly | load_schedule.py:56 | stripping takes white space off both ends and nothing else |
| ClockText.BlanksDoNotMatter | load_schedule.py:56-61 | numbers and times read the same with white space around them |
| ClockText.DateRoundTrip | load_schedule.py:74-86 | a calendar date reads as itself, and reading any text twice is reading it once |
| ClockText.DatesReadExactly | load_schedule.py:74-86 | a printed date reads as one if and only if that day exists |
| ClockText.DateInFront | load_schedule.py:74-80 | a date is read off the front of its text, whatever follows it |
| ClockText.LeapYears | load_schedule.py:82-85 | the leap years in the Gregorian calendar: every fourth, of full centuries every fourth |
| LoadSchedule.SleepWindowsPartition | load_schedule.py:89-101 | two times that read and differ split every day between sleeping and waking; any other pair never sleeps |
| LoadSchedule.SleepIsDaily | load_schedule.py:89-101 | sleep repeats every 1440 minutes and lasts from the first time to the second |
| LoadSchedule.WindowsPartitionTheDay | load_schedule.py:89-111 | (a,b) and (b,a) split the day, and (a,b) covers (b - a) mod 1440 minutes |
| LoadSchedule.HourByFirstMinute | load_schedule.py:104-111 | an hour is covered if and only if its first minute lies in the window |
| LoadSchedule.OnceOnItsDate | load_schedule.py:148-152 | a one-off window adds what it would every day on its own date, and nothing without or on another |
| LoadSchedule.LegacyDaysAre | load_schedule.py:42-46 | Monday to Friday, Saturday and Sunday, or every day |
| LoadSchedule.ScheduledLoadW | load_schedule.py:161-186 | the loop sums the non-negative watts of the covering windows, for either way of giving the day |
| LoadSchedule.WindowsFromLearnedProfile | load_schedule.py:231-249 | one labelled weekly one-hour window a bucket, in order |
| LoadSchedule.BucketContribution | load_schedule.py:236-247 | a bucket's window covers exactly its hour and days, 23:00 to 00:00 included |
| LoadSchedule.ProfileRoundTrip | load_schedule.py:231-249 | scheduling the windows of a learned profile returns the profile at every hour and weekday |
| LoadSchedule.AskedByDayType | load_schedule.py:161-186 | asked by day type only, the schedule of a learned profile answers with that type's bucket; a weekday overrides the flag |
| LoadSchedule.CaptionIsStart | load_schedule.py:239-241 | a learned window's label is its start as a time and the kind of days |
| ScheduleNormal.MigrateApplies | load_schedule.py:261-271 | migrating a legacy window changes no day it applies to |
| ScheduleNormal.MeaningKeptExactly | load_schedule.py:274-310 | a window's meaning survives if and only if it is not one of the two losing kinds |
| ScheduleNormal.LosingExamples | load_schedule.py:286-297 | a window dropped for its watts and one that gains every weekday |
| ScheduleNormal.NormalizeWindows | load_schedule.py:323-336 | the loop keeps the good windows in order and replaces repeated ids |
| ScheduleNormal.NormalizationKeepsLoad | load_schedule.py:313-337 | the kept windows give the raw list's load, each window rounded to 0.1 W |
| ScheduleNormal.DeviceMeaningKept | load_schedule.py:313-322 | normalising changes neither when a device sleeps nor a known mode; an unknown mode becomes the calendar's |
| ScheduleNormal.NormalizedLoadIsClose | load_schedule.py:313-337 | against the raw load the shift is at most 0.05 W for each covering window |
| ScheduleNormal.CaptionStableExactly | load_schedule.py:300 | strip and cut is idempotent if and only if the cut does not follow a blank |
| ScheduleNormal.KeptIsOrderly | load_schedule.py:323-336 | kept windows are well formed with distinct ids |
| ScheduleNormal.SecondPass | load_schedule.py:313-337 | a second pass can change labels only |
| ScheduleNormal.NormalizeTwiceExactly | load_schedule.py:313-337 | normalising twice equals once if and only if every kept label is stable |
| ScheduleNormal.GoodIdsExist | load_schedule.py:299 | generators that meet the assumption on ids exist |
| ScheduleNormal.CutCaptionExample | load_schedule.py:300 | a concrete label that the second pass changes |
| ScheduleNormal.CutCaptionDeviceChanges | load_schedule.py:313-337 | a concrete device that normalising a second time changes |
| WeightedSoc.WeightedSocOf | bms_devices.py:45-61 | the loop computes the clamped weighted mean, none without capacity |
| WeightedSoc.MeanNeedsNoClamp | bms_devices.py:61 | for charges in 0..100 the mean is in range and the clamp idle |
| WeightedSoc.TwoStagesEqualOne | ecoflow_devices.py:465-471 | the packs' mean weighted by their capacity and averaged with units is the mean over all |
| WeightedSoc.OverlayBms | bms_devices.py:270-340 | the charge and capacity fields after the BMS overlay, every early return included |
| WeightedSoc.BmsFields | bms_devices.py:270-340 | every field over all returns: the packs take over exactly when asked and some pack has weight, within 0.05 of their mean; the inverter's charge is kept beside it or shows nowhere |
| WeightedSoc.PacksTakingPart | bms_devices.py:292-306 | a pack weighs in if and only if it is fresh and has capacity, with its own charge and capacity |
| WeightedSoc.OverlayEcoflow | ecoflow_devices.py:339-479 | the charge and capacity fields after the EcoFlow overlay |
| WeightedSoc.EcoflowFields | ecoflow_devices.py:460-479 | every field: capacity of all linked batteries in whole watt-hours, charge within 0.05 of the mean of headline and units, the old headline kept once |
| WeightedSoc.UnitsTakingPart | ecoflow_devices.py:419-422 | a linked unit weighs in if and only if it is a fresh battery with known charge and capacity |
| WeightedSoc.LinkedCapacity | ecoflow_devices.py:358-359 | the linked capacity is that of all batteries added up, fresh or not |
| WeightedSoc.InverterChargeIsIgnored | bms_devices.py:218-227 | with the inverter's charge ignored, no field after both overlays depends on it |
| WeightedSoc.MeanIsStable | bms_devices.py:45-61 | moving one charge by eps moves the mean by at most eps |
| WeightedSoc.PipelineIsTwoStageMean | ecoflow_devices.py:465-479 | both overlays with roundings stay within 0.1 point of the two-stage mean, stale packs or not, capacity override or not |
| WeightedSoc.PipelineIsOneMean | ecoflow_devices.py:465-479 | with nothing stale, or an override that fits the fresh packs, that is within 0.1 point of the single mean over packs and units |
| WeightedSoc.PipelineCapacity | ecoflow_devices.py:460-463 | the shown capacity is the override or all packs, plus all linked batteries, in whole watt-hours |
| WeightedSoc.StalePacksBiasExactly | bms_devices.py:302-336 | the two-stage mean equals the mean over fresh packs and units if and only if the headline's weight is that of the fresh packs (no override: none stale), no unit takes part, or the two means agree |
| WeightedSoc.StalePackExample | bms_devices.py:302-309 | packs and a unit for which both overlays show 50 where the mean exceeds 90 |
| Journal.Capture.Emit | ble_inspector.py:43-65 | one emit: limit check, how the write and flush ended, numbering and accounting as specified; failure is recorded |
| Journal.Capture.Finish | ble_inspector.py:67-73 | the summary is attempted and the file closed either way, which may push out what is buffered |
| Journal.EmitKeepsSound | ble_inspector.py:52-63 | whatever the disk does: lines are numbered by the emits that returned, those leave the reserve free and respect the cap, readable lines only grow |
| Journal.EndingsFit | ble_inspector.py:53-57 | the reserve suffices: no ending is refused while all endings together take at most 131072 bytes, whatever the run; ordinary events are refused exactly when they would reach into the reserve, endings beyond 100 MB |
| Journal.ReserveIsKept | ble_inspector.py:53-57 | over every run the bytes accounted for exceed the ordinary limit by no more than the endings take |
| Journal.NumberedExactly | ble_inspector.py:44-45 | the numbers run without gap or repeat if and only if no failed emit's line is followed by another |
| Journal.Events | ble_inspector.py:76-88 | the loop returns the events after the cursor, up to the limit |
| Journal.PollAdvances | ble_routes.py:144-154 | a poll returns the next events and moves the cursor to min(cursor + limit, complete events) |
| Journal.PagingExactly | ble_inspector.py:76-88 | every page from every cursor holds exactly the next lines if and only if the numbers have no gap or repeat |
| Journal.RunPagesExactly | ble_inspector.py:43-88 | for any run: paging is right if and only if no failed emit's line stands before another |
| Journal.FailedFlushExactly | ble_inspector.py:56-73 | when failures are failed flushes, for open and finished captures: paging is right if and only if no later emit returned and the close pushed out at most one failed line |
| Journal.SkippedEventExample | ble_inspector.py:56-63 | metadata, a failed flush, a success and a page ending between their lines: the last event is never returned |
| Journal.FinishedCaptureExample | ble_inspector.py:67-73 | no emit returns after the failure, yet closing delivers two lines of one number |
| Journal.PagesArePrefix | ble_inspector.py:76-88 | under any interleaving of emits and polls on a file without such a line the pages so far are the first events, none skipped or repeated |

## Left out

- Concurrency inside a call: an engine evaluation is atomic here; the source can take an edit while a plug call is awaited.
- Watchdog: the text of the error message (its presence is kept), the per-device registry and its reset, and the carrying out of a cycle.
- JBD: building read requests, protection bits and the basic-info record, the wait loop and timeouts of a poll; the bit operations on bytes are written as arithmetic.
- ProtoWire: a fixed32 payload stays a four-byte word, its float value is not modelled; the XOR decoding and the decoding against the vendored schema are left out.
- Floating point: all arithmetic is on reals, so NaN and rounding error of sums are not captured; `round` is half-even on the exact value.
- Energy tables: schema migrations, the previous-reading tuple of older versions, device rows and capacity overrides; SQL statements are sequences in key order, and the overwrite in `correct_output_w` acts on one row list at a time.
- Energy days: the fallback to the container's time zone when no location is set.
- History.QuerySamples: leaves out the battery charge and instantaneous-watt columns of a row and the window and row times as ISO text.
- History: the columns of averaged instantaneous watts and battery charge, the joins that add system charge and the decision log, and the conversion of times to ISO text.
- History.UnclampedWindowIsWhole: needs a start after the epoch; before it SQLite's truncation puts two cells on one grid point, and the source rejects a start of zero.
- Automation: deleting a rule (positions shift), loading and saving, rule names and aliases, trigger kinds, ids generated for a rule without one, and the audit record of a firing; texts arrive stripped.
- Intervals: the 10000-row limit and the order SQL gives to firings of the same second; rule names beside rule ids.
- ClockText: digits and white space are those of Unicode's common ranges and ASCII digits only.
- LoadSchedule: a window holds the minute and date that the readers make of its text, justified by the two round trips.
- ScheduleNormal.NormalizeTwiceExactly: assumes that the ids one pass draws are distinct and differ from the stored ones, which the source leaves to chance.
- ScheduleNormal: windows that are not objects (dropped by the source) and the file they are stored in.
- WeightedSoc: voltages, currents, temperatures, solar and output parts of the overlays, readings that are not numbers, and the two fields that mirror the headline and the portal charge; a pack without a charge reading counts as not fresh.
- Journal: the bytes of a partly written line, time stamps and payloads, of which only the length matters; a reader racing an append sees the file before or after it.
- Network, cloud, Bluetooth and plug calls, the bridge, authentication, backup and advisor prompts: they move data and decide little; a call's outcome is a parameter where a modelled part needs it.
- Forecasting, charging strategy and cost: not modelled here; they build on the tables and rules above and have rules of their own.
