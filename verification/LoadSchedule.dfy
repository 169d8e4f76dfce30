/** The per-device load calendar: windows, what they cover, and the load they add up to. */
module LoadSchedule {
  import opened Prelude
  import opened ClockText

  datatype Kind = Once | Weekly | NoKind
  datatype Days = AllDays | WorkDays | WeekendDays | OtherDays

  type Minute = m: int | 0 <= m < 1440

  /**
   * A window. `start`, `end` and `date` hold what the clock and date readers make of the stored
   * text, none when it does not read as one; `watts` and each weekday hold what the number readers
   * make of theirs. An absent `id` and an empty one coincide, and so for `caption` (the label).
   */
  datatype Window = Window(
    id: string,
    caption: string,
    start: Option<Minute>,
    end: Option<Minute>,
    watts: Option<real>,
    kind: Kind,
    days: Days,
    date: Option<string>,
    weekdays: Option<set<Option<int>>>)

  // ---------- circular windows ----------

  /** `minute` lies in the half-open window, which wraps past midnight when it ends before it starts. */
  predicate InWindow(minute: int, start: int, end: int) {
    if start == end then false
    else if start < end then start <= minute < end
    else minute >= start || minute < end
  }

  predicate Sleeps(minuteOfDay: int, a: Option<int>, b: Option<int>) {
    a.Some? && b.Some? && InWindow(minuteOfDay % 1440, a.value, b.value)
  }

  predicate InSleepWindow(minuteOfDay: int, sleepStart: Option<string>, sleepEnd: Option<string>) {
    Sleeps(minuteOfDay, ParseHhmm(sleepStart), ParseHhmm(sleepEnd))
  }

  /** Two sleep times that read and differ split every day between them; any other pair sleeps never. */
  lemma SleepWindowsPartition(minuteOfDay: int, s: Option<string>, e: Option<string>)
    ensures InSleepWindow(minuteOfDay, s, e) || InSleepWindow(minuteOfDay, e, s) <==>
            ParseHhmm(s).Some? && ParseHhmm(e).Some? && ParseHhmm(s) != ParseHhmm(e)
    ensures !(InSleepWindow(minuteOfDay, s, e) && InSleepWindow(minuteOfDay, e, s))
  {
  }

  /** The hour is covered when its first minute is. */
  predicate HourInWindow(hour: int, start: int, end: int) {
    InWindow(hour * 60, start, end)
  }

  /** Which minute decides about an hour: on each full hour the two questions are one. */
  lemma HourByFirstMinute(minute: int, start: int, end: int)
    requires minute % 60 == 0
    ensures HourInWindow(minute / 60, start, end) <==> InWindow(minute, start, end)
  {
  }

  /** Sleep repeats every day, and within one it lasts from the first time to the second. */
  lemma SleepIsDaily(minuteOfDay: int, a: Option<int>, b: Option<int>)
    ensures Sleeps(minuteOfDay + 1440, a, b) <==> Sleeps(minuteOfDay, a, b)
    ensures a.Some? && b.Some? && 0 <= minuteOfDay < 1440 ==>
              (Sleeps(minuteOfDay, a, b) <==> InWindow(minuteOfDay, a.value, b.value))
  {
    assert (minuteOfDay + 1440) % 1440 == minuteOfDay % 1440;
  }

  function CoveredMinutes(start: int, end: int, below: nat): nat {
    if below == 0 then 0 else CoveredMinutes(start, end, below - 1) + if InWindow(below - 1, start, end) then 1 else 0
  }

  lemma {:induction false} CoveredMinutesFormula(start: int, end: int, below: nat)
    requires 0 <= start < 1440 && 0 <= end < 1440
    ensures var upto := (x: int) => if below <= x then below else x;
            CoveredMinutes(start, end, below) ==
            if start == end then 0
            else if start < end then upto(end) - upto(start)
            else below - upto(start) + upto(end)
  {
    if below > 0 {
      CoveredMinutesFormula(start, end, below - 1);
    }
  }

  /** A window and its mirror split the day between them, and cover exactly their circular lengths. */
  lemma WindowsPartitionTheDay(a: int, b: int, minute: int)
    requires 0 <= a < 1440 && 0 <= b < 1440 && 0 <= minute < 1440
    ensures a != b ==> (InWindow(minute, a, b) <==> !InWindow(minute, b, a))
    ensures CoveredMinutes(a, b, 1440) == (b - a) % 1440
  {
    CoveredMinutesFormula(a, b, 1440);
  }

  // ---------- weekdays ----------

  /** The valid weekdays, Monday 0, or none when there are none. */
  function ValidWeekdays(raw: Option<set<Option<int>>>): (days: Option<set<int>>)
    ensures days.Some? ==> days.value != {}
  {
    if raw.None? then None
    else
      var days := set d | 0 <= d <= 6 && Some(d) in raw.value;
      if days == {} then None else Some(days)
  }

  function LegacyDays(days: Days): set<int> {
    match days
    case WorkDays => {0, 1, 2, 3, 4}
    case WeekendDays => {5, 6}
    case _ => {0, 1, 2, 3, 4, 5, 6}
  }

  function Wrapped(days: set<int>): set<Option<int>> {
    set d | d in days :: Some(d)
  }

  lemma WrappedIsValid(days: set<int>)
    requires days != {} && forall d <- days :: 0 <= d <= 6
    ensures ValidWeekdays(Some(Wrapped(days))) == Some(days)
  {
    assert (set d | 0 <= d <= 6 && Some(d) in Wrapped(days)) == days;
  }

  // ---------- what a window covers ----------

  predicate AppliesOn(w: Window, weekday: int, date: Option<string>) {
    match w.kind
    case NoKind => weekday in LegacyDays(w.days)
    case Once => w.date.Some? && date == w.date
    case Weekly => ValidWeekdays(w.weekdays).Some? && weekday in ValidWeekdays(w.weekdays).value
  }

  predicate Covers(w: Window, hour: int, weekday: int, date: Option<string>) {
    w.start.Some? && w.end.Some? && HourInWindow(hour, w.start.value, w.end.value) && AppliesOn(w, weekday, date)
  }

  /** What one window adds: its watts, never negative, when it covers the hour. */
  function Contribution(w: Window, hour: int, weekday: int, date: Option<string>): (c: real)
    ensures c >= 0.0
  {
    if Covers(w, hour, weekday, date) && w.watts.Some? then Max(0.0, w.watts.value) else 0.0
  }

  /** A one-off window adds what it would every day on its own date, and nothing without one or on another. */
  lemma OnceOnItsDate(w: Window, hour: int, weekday: int, date: Option<string>)
    requires w.kind == Once && 0 <= weekday < 7
    ensures Contribution(w, hour, weekday, date) ==
            if w.date != None && w.date == date
            then Contribution(w.(kind := NoKind, days := AllDays), hour, weekday, date) else 0.0
  {
  }

  /** The three legacy day filters: every day, Monday to Friday, Saturday and Sunday; anything else is every day. */
  lemma LegacyDaysAre(days: Days, weekday: int)
    ensures weekday in LegacyDays(days) <==>
            if days == WorkDays then 0 <= weekday <= 4 else if days == WeekendDays then 5 <= weekday <= 6
            else 0 <= weekday <= 6
  {
  }

  function LoadOf(windows: seq<Window>, hour: int, weekday: int, date: Option<string>): real {
    if windows == [] then 0.0
    else
      LoadOf(windows[..|windows| - 1], hour, weekday, date)
      + Contribution(windows[|windows| - 1], hour, weekday, date)
  }

  /** Callers that only know weekend or not ask for a Saturday or a Monday. */
  function WeekdayAsked(weekend: Option<bool>, weekday: Option<int>): int {
    if weekday.Some? then weekday.value else if weekend == Some(true) then 5 else 0
  }

  method ScheduledLoadW(windows: seq<Window>, hour: int, weekend: Option<bool>, weekday: Option<int>,
                        date: Option<string>)
    returns (total: real)
    ensures weekday.Some? ==> total == LoadOf(windows, hour, weekday.value, date)
    ensures weekday.None? && weekend == Some(true) ==> total == LoadOf(windows, hour, 5, date)
    ensures weekday.None? && weekend != Some(true) ==> total == LoadOf(windows, hour, 0, date)
  {
    var day := WeekdayAsked(weekend, weekday);
    total := 0.0;
    for i := 0 to |windows|
      invariant total == LoadOf(windows[..i], hour, day, date)
    {
      assert windows[..i + 1][..i] == windows[..i];
      if Covers(windows[i], hour, day, date) {
        if windows[i].watts.None? {
          continue;
        }
        total := total + Max(0.0, windows[i].watts.value);
      }
    }
    assert windows[..|windows|] == windows;
  }

  // ---------- the learned profile ----------

  /** One learned bucket: the usual watts of an hour on working days or at weekends. */
  datatype Bucket = Bucket(hour: int, weekend: bool, watts: real)

  /** The label of a learned window, "07:00 weekend". */
  function BucketCaption(b: Bucket): string {
    TwoDigits(b.hour % 24) + ":00 " + if b.weekend then "weekend" else "weekday"
  }

  /** The one-hour weekly window of a bucket. */
  function BucketWindow(b: Bucket, id: string): Window {
    var h := b.hour % 24;
    Window(id, BucketCaption(b), Some(h * 60), Some((h + 1) % 24 * 60), Some(Round1(Max(0.0, b.watts))),
           Weekly, OtherDays, None,
           Some(Wrapped(if b.weekend then LegacyDays(WeekendDays) else LegacyDays(WorkDays))))
  }

  lemma FullHour(h: int)
    requires 0 <= h < 24
    ensures FormatHhmm(h * 60) == TwoDigits(h) + ":00"
  {
    assert h * 60 % 1440 == h * 60 && h * 60 / 60 == h && h * 60 % 60 == 0;
    assert TwoDigits(0) == "00";
  }

  lemma CaptionJoins(time: string)
    ensures time + ":00 " + "weekend" == time + ":00" + " weekend"
    ensures time + ":00 " + "weekday" == time + ":00" + " weekday"
  {
    assert ":00 " + "weekend" == ":00" + " weekend" && ":00 " + "weekday" == ":00" + " weekday";
    Assoc(time, ":00 ", "weekend");
    Assoc(time, ":00", " weekend");
    Assoc(time, ":00 ", "weekday");
    Assoc(time, ":00", " weekday");
  }

  /** The label of a window is its start as a time and the kind of days. */
  lemma CaptionIsStart(b: Bucket)
    ensures BucketCaption(b) == FormatHhmm(b.hour % 24 * 60) + (if b.weekend then " weekend" else " weekday")
  {
    FullHour(b.hour % 24);
    CaptionJoins(TwoDigits(b.hour % 24));
  }

  predicate Describes(b: Bucket, hour: int, weekday: int) {
    b.hour % 24 == hour && b.weekend == (weekday >= 5)
  }

  lemma OneHour(h: int, hour: int)
    requires 0 <= h < 24 && 0 <= hour < 24
    ensures HourInWindow(hour, h * 60, (h + 1) % 24 * 60) <==> hour == h
  {
    if h == 23 {
      assert (h + 1) % 24 * 60 == 0;
    } else {
      assert (h + 1) % 24 == h + 1;
    }
  }

  lemma BucketApplies(b: Bucket, id: string, weekday: int, date: Option<string>)
    requires 0 <= weekday < 7
    ensures AppliesOn(BucketWindow(b, id), weekday, date) <==> b.weekend == (weekday >= 5)
  {
    var days := if b.weekend then LegacyDays(WeekendDays) else LegacyDays(WorkDays);
    WrappedIsValid(days);
  }

  /** A bucket's window covers exactly the hour and the days it was learned for, 23:00 to 00:00 included. */
  lemma BucketContribution(b: Bucket, id: string, hour: int, weekday: int, date: Option<string>)
    requires 0 <= hour < 24 && 0 <= weekday < 7
    ensures Contribution(BucketWindow(b, id), hour, weekday, date) ==
            if Describes(b, hour, weekday) then Round1(Max(0.0, b.watts)) else 0.0
  {
    BucketApplies(b, id, weekday, date);
    OneHour(b.hour % 24, hour);
  }

  /** `sorted(profile.items())`: a dictionary holds each hour and day type once. */
  ghost predicate DistinctKeys(items: seq<Bucket>) {
    (forall i | 0 <= i < |items| :: 0 <= items[i].hour < 24)
    && forall i, j | 0 <= i < j < |items| :: items[i].hour != items[j].hour || items[i].weekend != items[j].weekend
  }

  ghost predicate Scheduled(items: seq<Bucket>, windows: seq<Window>) {
    |windows| == |items| && forall i | 0 <= i < |items| :: windows[i] == BucketWindow(items[i], windows[i].id)
  }

  method WindowsFromLearnedProfile(items: seq<Bucket>, ids: nat -> string) returns (out: seq<Window>)
    ensures Scheduled(items, out) && forall i | 0 <= i < |items| :: out[i].id == ids(i)
  {
    out := [];
    for i := 0 to |items|
      invariant |out| == i && forall k | 0 <= k < i :: out[k] == BucketWindow(items[k], ids(k))
    {
      out := out + [BucketWindow(items[i], ids(i))];
    }
  }

  lemma {:induction false} OnlyOneContributes(windows: seq<Window>, i: int, hour: int, weekday: int,
                                              date: Option<string>)
    requires forall k | 0 <= k < |windows| && k != i :: Contribution(windows[k], hour, weekday, date) == 0.0
    ensures LoadOf(windows, hour, weekday, date) ==
            if 0 <= i < |windows| then Contribution(windows[i], hour, weekday, date) else 0.0
  {
    if windows != [] {
      var n := |windows| - 1;
      assert forall k | 0 <= k < n :: windows[..n][k] == windows[k];
      OnlyOneContributes(windows[..n], i, hour, weekday, date);
    }
  }

  lemma AllContributions(items: seq<Bucket>, windows: seq<Window>, hour: int, weekday: int, date: Option<string>)
    requires Scheduled(items, windows) && 0 <= hour < 24 && 0 <= weekday < 7
    ensures forall k | 0 <= k < |items| ::
              Contribution(windows[k], hour, weekday, date) ==
              if Describes(items[k], hour, weekday) then Round1(Max(0.0, items[k].watts)) else 0.0
  {
    forall k | 0 <= k < |items|
      ensures Contribution(windows[k], hour, weekday, date) ==
              if Describes(items[k], hour, weekday) then Round1(Max(0.0, items[k].watts)) else 0.0
    {
      BucketContribution(items[k], windows[k].id, hour, weekday, date);
    }
  }

  /** At most one bucket is for a given hour and day type. */
  lemma OneDescribes(items: seq<Bucket>, i: nat, hour: int, weekday: int)
    requires DistinctKeys(items) && i < |items| && Describes(items[i], hour, weekday)
    ensures forall k | 0 <= k < |items| && k != i :: !Describes(items[k], hour, weekday)
  {
  }

  /**
   * Copying a learned profile into the calendar loses nothing: at every hour and weekday the
   * windows add up to that bucket's rounded non-negative watts, or to nothing if it was not learned.
   */
  lemma ProfileRoundTrip(items: seq<Bucket>, windows: seq<Window>, hour: int, weekday: int, date: Option<string>)
    requires DistinctKeys(items) && Scheduled(items, windows) && 0 <= hour < 24 && 0 <= weekday < 7
    ensures forall i | 0 <= i < |items| && Describes(items[i], hour, weekday) ::
              LoadOf(windows, hour, weekday, date) == Round1(Max(0.0, items[i].watts))
    ensures (forall i | 0 <= i < |items| :: !Describes(items[i], hour, weekday)) ==>
              LoadOf(windows, hour, weekday, date) == 0.0
  {
    AllContributions(items, windows, hour, weekday, date);
    if i: nat :| i < |items| && Describes(items[i], hour, weekday) {
      OneDescribes(items, i, hour, weekday);
      OnlyOneContributes(windows, i, hour, weekday, date);
    } else {
      OnlyOneContributes(windows, -1, hour, weekday, date);
    }
  }

  /**
   * Asking by day type: callers that only say weekend or not get the bucket of that type, callers that
   * say nothing the working day's, and a weekday overrides the flag.
   */
  lemma AskedByDayType(items: seq<Bucket>, windows: seq<Window>, i: nat, weekend: Option<bool>, weekday: Option<int>,
                       date: Option<string>)
    requires DistinctKeys(items) && Scheduled(items, windows) && i < |items|
    requires weekday.Some? ==> 0 <= weekday.value < 7
    requires items[i].weekend == if weekday.Some? then weekday.value in {5, 6} else weekend == Some(true)
    ensures LoadOf(windows, items[i].hour, WeekdayAsked(weekend, weekday), date) == Round1(Max(0.0, items[i].watts))
  {
    var hour, day := items[i].hour, WeekdayAsked(weekend, weekday);
    assert 0 <= hour < 24 && 0 <= day < 7 && Describes(items[i], hour, day);
    ProfileRoundTrip(items, windows, hour, day, date);
  }
}
