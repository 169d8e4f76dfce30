/** Normalising a stored schedule: what is kept, what it means, and when doing it twice changes nothing. */
module ScheduleNormal {
  import opened Prelude
  import opened ClockText
  import opened LoadSchedule

  const MAX_WATTS := 20000.0

  /** A legacy `days` window becomes a weekly one. */
  function Migrate(w: Window): Window {
    if w.kind != NoKind then w
    else w.(kind := Weekly, weekdays := Some(Wrapped(LegacyDays(w.days))), date := None)
  }

  function Cut(s: string, n: nat): string {
    if |s| > n then s[..n] else s
  }

  function NormalCaption(caption: string): string {
    Cut(Strip(caption), 80)
  }

  function NormalDays(raw: Option<set<Option<int>>>): set<int> {
    var days := ValidWeekdays(raw);
    if days.Some? then days.value else LegacyDays(AllDays)
  }

  /** The window as it is kept, or none when it is dropped. `uuid` stands in for a missing id. */
  function NormalizeWindow(raw: Window, uuid: string): Option<Window> {
    var w := Migrate(raw);
    if w.start.None? || w.end.None? || w.watts.None? || w.watts.value < 0.0 || w.watts.value > MAX_WATTS
       || (w.kind == Once && w.date.None?)
    then None
    else
      Some(Window(Cut(if w.id != "" then w.id else uuid, 16), NormalCaption(w.caption), w.start, w.end,
                  Some(Round1(w.watts.value)), w.kind, OtherDays,
                  if w.kind == Once then w.date else None,
                  if w.kind == Once then None else Some(Wrapped(NormalDays(w.weekdays)))))
  }

  // ---------- meaning of one window ----------

  function KeptContribution(w: Option<Window>, hour: int, weekday: int, date: Option<string>): real {
    if w.None? then 0.0 else Contribution(w.value, hour, weekday, date)
  }

  /** What the raw window adds, with its watts rounded to a tenth. */
  function Rounded(w: Window, hour: int, weekday: int, date: Option<string>): real {
    if Covers(w, hour, weekday, date) && w.watts.Some? then Round1(Max(0.0, w.watts.value)) else 0.0
  }

  /** Normalising keeps the window's meaning at every hour, weekday and date. */
  ghost predicate MeaningKept(w: Window, uuid: string) {
    forall hour, weekday, date | 0 <= hour < 24 && 0 <= weekday < 7 ::
      KeptContribution(NormalizeWindow(w, uuid), hour, weekday, date) == Rounded(w, hour, weekday, date)
  }

  ghost predicate CoversSomeHour(w: Window) {
    w.start.Some? && w.end.Some? && exists h :: 0 <= h < 24 && HourInWindow(h, w.start.value, w.end.value)
  }

  /** The window names a date or a weekday it applies to. */
  predicate NamesADay(w: Window) {
    match w.kind
    case NoKind => true
    case Once => w.date.Some?
    case Weekly => ValidWeekdays(w.weekdays).Some?
  }

  /** The two ways to lose meaning: watts above the limit are dropped, a weekly window without days gets all of them. */
  ghost predicate LosesMeaning(w: Window) {
    CoversSomeHour(w) && w.watts.Some? &&
    if w.watts.value > 20000.0 then NamesADay(w)
    else w.kind == Weekly && !NamesADay(w) && w.watts.value >= 0.0 && Round1(w.watts.value) > 0.0
  }

  lemma MigrateApplies(w: Window, weekday: int, date: Option<string>)
    ensures AppliesOn(Migrate(w), weekday, date) <==> AppliesOn(w, weekday, date)
    ensures NamesADay(Migrate(w)) <==> NamesADay(w)
  {
    if w.kind == NoKind {
      WrappedIsValid(LegacyDays(w.days));
    }
  }

  lemma NormalApplies(raw: Window, uuid: string, weekday: int, date: Option<string>)
    requires NormalizeWindow(raw, uuid).Some?
    ensures AppliesOn(NormalizeWindow(raw, uuid).value, weekday, date) <==>
            if raw.kind == Weekly && !NamesADay(raw) then 0 <= weekday <= 6 else AppliesOn(raw, weekday, date)
  {
    MigrateApplies(raw, weekday, date);
    var w := Migrate(raw);
    if w.kind == Weekly {
      WrappedIsValid(NormalDays(w.weekdays));
    }
  }

  lemma KeptMeansRounded(raw: Window, uuid: string, hour: int, weekday: int, date: Option<string>)
    requires NormalizeWindow(raw, uuid).Some?
    ensures KeptContribution(NormalizeWindow(raw, uuid), hour, weekday, date) ==
            if raw.start.Some? && raw.end.Some? && HourInWindow(hour, raw.start.value, raw.end.value)
               && (if raw.kind == Weekly && !NamesADay(raw) then 0 <= weekday <= 6 else AppliesOn(raw, weekday, date))
            then Round1(raw.watts.value) else 0.0
  {
    NormalApplies(raw, uuid, weekday, date);
  }

  lemma SomeDayApplies(w: Window) returns (weekday: int, date: Option<string>)
    requires NamesADay(w)
    ensures 0 <= weekday < 7 && AppliesOn(w, weekday, date)
  {
    weekday, date := 0, w.date;
    match w.kind {
      case Weekly =>
        weekday :| weekday in ValidWeekdays(w.weekdays).value;
      case NoKind =>
        weekday :| weekday in LegacyDays(w.days);
      case Once =>
    }
  }

  lemma LargeRoundsPositive(x: real)
    requires x > MAX_WATTS
    ensures Round1(Max(0.0, x)) > 0.0
  {
  }

  lemma LossShows(w: Window, uuid: string)
    requires LosesMeaning(w)
    ensures !MeaningKept(w, uuid)
  {
    var h :| 0 <= h < 24 && HourInWindow(h, w.start.value, w.end.value);
    if w.watts.value > MAX_WATTS {
      var day, date := SomeDayApplies(w);
      LargeRoundsPositive(w.watts.value);
      assert Covers(w, h, day, date);
      assert KeptContribution(NormalizeWindow(w, uuid), h, day, date) != Rounded(w, h, day, date);
    } else {
      KeptMeansRounded(w, uuid, h, 0, None);
      assert KeptContribution(NormalizeWindow(w, uuid), h, 0, None) != Rounded(w, h, 0, None);
    }
  }

  lemma NoLossKeeps(w: Window, uuid: string, hour: int, weekday: int, date: Option<string>)
    requires !LosesMeaning(w) && 0 <= hour < 24 && 0 <= weekday < 7
    ensures KeptContribution(NormalizeWindow(w, uuid), hour, weekday, date) == Rounded(w, hour, weekday, date)
  {
    if NormalizeWindow(w, uuid).Some? {
      KeptMeansRounded(w, uuid, hour, weekday, date);
    }
  }

  /**
   * When normalising keeps a window's meaning, exactly: unless the window covers some hour and
   * either names a day but has more than 20000 W, or is weekly, names no valid weekday and has
   * watts that do not round to zero.
   */
  lemma MeaningKeptExactly(w: Window, uuid: string)
    ensures MeaningKept(w, uuid) <==> !LosesMeaning(w)
  {
    if LosesMeaning(w) {
      LossShows(w, uuid);
    } else {
      forall hour, weekday, date | 0 <= hour < 24 && 0 <= weekday < 7
        ensures KeptContribution(NormalizeWindow(w, uuid), hour, weekday, date) == Rounded(w, hour, weekday, date)
      {
        NoLossKeeps(w, uuid, hour, weekday, date);
      }
    }
  }

  /** Midnight to one on Mondays: dropped at 30000 W, and on every day of the week once its weekday is unreadable. */
  lemma LosingExamples(uuid: string)
    ensures var w := Window("w", "", Some(0), Some(60), Some(30000.0), Weekly, OtherDays, None, Some({Some(0)}));
            !MeaningKept(w, uuid) && !MeaningKept(w.(watts := Some(100.0), weekdays := None), uuid)
  {
    var w := Window("w", "", Some(0), Some(60), Some(30000.0), Weekly, OtherDays, None, Some({Some(0)}));
    var v := w.(watts := Some(100.0), weekdays := None);
    assert HourInWindow(0, w.start.value, w.end.value) && HourInWindow(0, v.start.value, v.end.value);
    var days := set d | 0 <= d <= 6 && Some(d) in w.weekdays.value;
    assert 0 in days && NamesADay(w);
    LossShows(w, uuid);
    assert !NamesADay(v) && Round1(100.0) == 100.0;
    LossShows(v, uuid);
  }

  // ---------- a device's windows ----------

  /**
   * Keeps the good windows in order from position `i`; an id seen before is replaced. Window `i` draws on
   * `uuid(2 * i)` for a missing id and on `uuid(2 * i + 1)` for a repeated one.
   */
  function NormalizeFrom(raws: seq<Window>, i: nat, seen: set<string>, uuid: nat -> string): seq<Window>
    requires i <= |raws|
    decreases |raws| - i
  {
    if i == |raws| then []
    else
      var w := NormalizeWindow(raws[i], uuid(2 * i));
      if w.None? then NormalizeFrom(raws, i + 1, seen, uuid)
      else
        var id := if w.value.id in seen then uuid(2 * i + 1) else w.value.id;
        [w.value.(id := id)] + NormalizeFrom(raws, i + 1, seen + {id}, uuid)
  }

  lemma NormalizeStep(raws: seq<Window>, i: nat, seen: set<string>, uuid: nat -> string)
    requires i < |raws|
    ensures var w := NormalizeWindow(raws[i], uuid(2 * i));
            if w.None? then NormalizeFrom(raws, i, seen, uuid) == NormalizeFrom(raws, i + 1, seen, uuid)
            else
              var id := if w.value.id in seen then uuid(2 * i + 1) else w.value.id;
              NormalizeFrom(raws, i, seen, uuid) ==
                [w.value.(id := id)] + NormalizeFrom(raws, i + 1, seen + {id}, uuid)
  {
  }

  method NormalizeWindows(raws: seq<Window>, uuid: nat -> string) returns (windows: seq<Window>)
    ensures windows == NormalizeFrom(raws, 0, {}, uuid)
  {
    windows := [];
    var seen: set<string> := {};
    for i := 0 to |raws|
      invariant NormalizeFrom(raws, 0, {}, uuid) == windows + NormalizeFrom(raws, i, seen, uuid)
    {
      NormalizeStep(raws, i, seen, uuid);
      var w := NormalizeWindow(raws[i], uuid(2 * i));
      if w.None? {
        continue;
      }
      var id := w.value.id;
      if id in seen {
        id := uuid(2 * i + 1);
      }
      seen := seen + {id};
      var kept := w.value.(id := id);
      Assoc(windows, [kept], NormalizeFrom(raws, i + 1, seen, uuid));
      windows := windows + [kept];
    }
  }

  /** The raw windows' load from position `i` on, every window's watts rounded to a tenth. */
  function RoundedLoad(raws: seq<Window>, i: nat, hour: int, weekday: int, date: Option<string>): real
    requires i <= |raws|
    decreases |raws| - i
  {
    if i == |raws| then 0.0 else Rounded(raws[i], hour, weekday, date) + RoundedLoad(raws, i + 1, hour, weekday, date)
  }

  lemma {:induction false} LoadSplits(w: Window, rest: seq<Window>, hour: int, weekday: int, date: Option<string>)
    ensures LoadOf([w] + rest, hour, weekday, date) ==
            Contribution(w, hour, weekday, date) + LoadOf(rest, hour, weekday, date)
  {
    var all := [w] + rest;
    if rest == [] {
      assert all[..0] == [];
    } else {
      LoadSplits(w, rest[..|rest| - 1], hour, weekday, date);
      assert all[..|all| - 1] == [w] + rest[..|rest| - 1];
    }
  }

  /** From position `i` on the kept windows give the load of the raw ones, each rounded to 0.1 W. */
  ghost predicate LoadKept(raws: seq<Window>, i: nat, seen: set<string>, uuid: nat -> string,
                           hour: int, weekday: int, date: Option<string>)
    requires i <= |raws|
  {
    LoadOf(NormalizeFrom(raws, i, seen, uuid), hour, weekday, date) == RoundedLoad(raws, i, hour, weekday, date)
  }

  lemma LoadDropped(raws: seq<Window>, i: nat, seen: set<string>, uuid: nat -> string,
                    hour: int, weekday: int, date: Option<string>)
    requires i < |raws| && 0 <= hour < 24 && 0 <= weekday < 7 && !LosesMeaning(raws[i])
    requires NormalizeWindow(raws[i], uuid(2 * i)).None? && LoadKept(raws, i + 1, seen, uuid, hour, weekday, date)
    ensures LoadKept(raws, i, seen, uuid, hour, weekday, date)
  {
    NormalizeStep(raws, i, seen, uuid);
    NoLossKeeps(raws[i], uuid(2 * i), hour, weekday, date);
  }

  /** A kept window, under whatever id, adds its rounded watts to the load of the rest. */
  lemma KeptLoad(raw: Window, uuid: string, id: string, rest: seq<Window>,
                 hour: int, weekday: int, date: Option<string>)
    requires !LosesMeaning(raw) && 0 <= hour < 24 && 0 <= weekday < 7 && NormalizeWindow(raw, uuid).Some?
    ensures LoadOf([NormalizeWindow(raw, uuid).value.(id := id)] + rest, hour, weekday, date) ==
            Rounded(raw, hour, weekday, date) + LoadOf(rest, hour, weekday, date)
  {
    var w := NormalizeWindow(raw, uuid).value;
    NoLossKeeps(raw, uuid, hour, weekday, date);
    LoadSplits(w.(id := id), rest, hour, weekday, date);
    assert Contribution(w.(id := id), hour, weekday, date) == Contribution(w, hour, weekday, date);
  }

  lemma LoadAdded(raws: seq<Window>, i: nat, seen: set<string>, uuid: nat -> string, id: string,
                  hour: int, weekday: int, date: Option<string>)
    requires i < |raws| && 0 <= hour < 24 && 0 <= weekday < 7 && !LosesMeaning(raws[i])
    requires NormalizeWindow(raws[i], uuid(2 * i)).Some?
    requires var own := NormalizeWindow(raws[i], uuid(2 * i)).value.id;
             id == if own in seen then uuid(2 * i + 1) else own
    requires LoadKept(raws, i + 1, seen + {id}, uuid, hour, weekday, date)
    ensures LoadKept(raws, i, seen, uuid, hour, weekday, date)
  {
    NormalizeStep(raws, i, seen, uuid);
    KeptLoad(raws[i], uuid(2 * i), id, NormalizeFrom(raws, i + 1, seen + {id}, uuid), hour, weekday, date);
  }

  /**
   * Normalisation preserves meaning: if no window is of the losing kinds, the kept windows give at
   * every hour, weekday and date the load of the raw list with each window rounded to 0.1 W. Dropped
   * windows, legacy windows and replaced ids make no difference.
   */
  lemma {:induction false} NormalizationKeepsLoad(raws: seq<Window>, i: nat, seen: set<string>, uuid: nat -> string,
                                                  hour: int, weekday: int, date: Option<string>)
    requires i <= |raws| && 0 <= hour < 24 && 0 <= weekday < 7
    requires forall k | i <= k < |raws| :: !LosesMeaning(raws[k])
    ensures LoadKept(raws, i, seen, uuid, hour, weekday, date)
    decreases |raws| - i
  {
    if i < |raws| {
      var w := NormalizeWindow(raws[i], uuid(2 * i));
      if w.None? {
        NormalizationKeepsLoad(raws, i + 1, seen, uuid, hour, weekday, date);
        LoadDropped(raws, i, seen, uuid, hour, weekday, date);
      } else {
        var id := if w.value.id in seen then uuid(2 * i + 1) else w.value.id;
        NormalizationKeepsLoad(raws, i + 1, seen + {id}, uuid, hour, weekday, date);
        LoadAdded(raws, i, seen, uuid, id, hour, weekday, date);
      }
    }
  }

  /** How many raw windows from position `i` on add something. */
  function Adding(raws: seq<Window>, i: nat, hour: int, weekday: int, date: Option<string>): nat
    requires i <= |raws|
    decreases |raws| - i
  {
    if i == |raws| then 0
    else Adding(raws, i + 1, hour, weekday, date) + if Covers(raws[i], hour, weekday, date) then 1 else 0
  }

  lemma {:induction false} RoundingIsSmall(raws: seq<Window>, i: nat, hour: int, weekday: int, date: Option<string>)
    requires i <= |raws|
    ensures var gap := RoundedLoad(raws, i, hour, weekday, date) - LoadOf(raws[i..], hour, weekday, date);
            var bound := 0.05 * Adding(raws, i, hour, weekday, date) as real;
            -bound <= gap <= bound
    decreases |raws| - i
  {
    if i < |raws| {
      RoundingIsSmall(raws, i + 1, hour, weekday, date);
      assert raws[i..] == [raws[i]] + raws[i + 1..];
      LoadSplits(raws[i], raws[i + 1..], hour, weekday, date);
    }
  }

  /** Against the raw list itself the load moves by at most 0.05 W for each window that covers the hour. */
  lemma NormalizedLoadIsClose(raws: seq<Window>, uuid: nat -> string, hour: int, weekday: int, date: Option<string>)
    requires 0 <= hour < 24 && 0 <= weekday < 7
    requires forall k | 0 <= k < |raws| :: !LosesMeaning(raws[k])
    ensures var kept := NormalizeFrom(raws, 0, {}, uuid);
            var gap := LoadOf(kept, hour, weekday, date) - LoadOf(raws, hour, weekday, date);
            var bound := 0.05 * Adding(raws, 0, hour, weekday, date) as real;
            -bound <= gap <= bound
  {
    NormalizationKeepsLoad(raws, 0, {}, uuid, hour, weekday, date);
    RoundingIsSmall(raws, 0, hour, weekday, date);
    assert raws[0..] == raws;
  }

  // ---------- normalising twice ----------

  /** A kept caption that another pass would leave alone: its cut at 80 does not end in white space. */
  predicate StableCaption(caption: string) {
    var t := Strip(caption);
    |t| <= 80 || !IsSpace(t[79])
  }

  lemma CaptionStableExactly(caption: string)
    ensures NormalCaption(NormalCaption(caption)) == NormalCaption(caption) <==> StableCaption(caption)
  {
    var t := Strip(caption);
    var c := NormalCaption(caption);
    StripStable(c);
    assert |t| > 80 && IsSpace(t[79]) ==> c[79] == t[79];
  }

  /** The shape every kept window has. */
  ghost predicate Canonical(w: Window) {
    && 0 < |w.id| <= 16
    && w.start.Some? && w.end.Some?
    && w.watts.Some? && 0.0 <= w.watts.value <= MAX_WATTS && Round1(w.watts.value) == w.watts.value
    && w.kind != NoKind && w.days == OtherDays
    && (w.kind == Once ==> w.date.Some? && w.weekdays.None?)
    && (w.kind == Weekly ==> w.date.None? && w.weekdays.Some? && ValidWeekdays(w.weekdays).Some?
                             && w.weekdays.value == Wrapped(ValidWeekdays(w.weekdays).value))
  }

  lemma RoundTwice(x: real)
    requires 0.0 <= x <= MAX_WATTS
    ensures Round1(Round1(x)) == Round1(x) && 0.0 <= Round1(x) <= MAX_WATTS
  {
    var n := RoundHalfEven(x * 10.0);
    assert Round1(x) * 10.0 == n as real;
    assert RoundHalfEven(n as real) == n;
  }

  lemma KeptIsCanonical(raw: Window, uuid: string)
    requires NormalizeWindow(raw, uuid).Some? && 0 < |uuid| <= 16
    ensures Canonical(NormalizeWindow(raw, uuid).value)
  {
    var w := Migrate(raw);
    RoundTwice(w.watts.value);
    if w.kind == Weekly {
      WrappedIsValid(NormalDays(w.weekdays));
    }
  }

  /** Another pass over a kept window can only touch its caption. */
  lemma CanonicalKept(w: Window, uuid: string)
    requires Canonical(w)
    ensures NormalizeWindow(w, uuid) == Some(w.(caption := NormalCaption(w.caption)))
  {
  }

  /** The ids one pass may draw are short, never empty, never repeated, and never collide with a stored one. */
  ghost predicate GoodIds(raws: seq<Window>, uuid: nat -> string) {
    && (forall k: nat | k < 2 * |raws| :: 0 < |uuid(k)| <= 16)
    && (forall k: nat, m: nat | k < m < 2 * |raws| :: uuid(k) != uuid(m))
    && (forall k: nat, i | k < 2 * |raws| && 0 <= i < |raws| :: uuid(k) != Cut(raws[i].id, 16))
  }

  /** Well-shaped windows with ids of their own, none of them in `seen`. */
  ghost predicate Orderly(ws: seq<Window>, seen: set<string>) {
    && (forall k | 0 <= k < |ws| :: Canonical(ws[k]))
    && (forall k | 0 <= k < |ws| :: ws[k].id !in seen)
    && (forall k, m | 0 <= k < m < |ws| :: ws[k].id != ws[m].id)
  }

  lemma OrderlyCons(w: Window, ws: seq<Window>, seen: set<string>)
    ensures Orderly([w] + ws, seen) <==> Canonical(w) && w.id !in seen && Orderly(ws, seen + {w.id})
  {
    var all := [w] + ws;
    assert all[0] == w && all[1..] == ws;
    if Orderly(all, seen) {
      forall k | 0 <= k < |ws| ensures Canonical(ws[k]) && ws[k].id !in seen + {w.id} {
        assert all[k + 1] == ws[k];
      }
      forall k, m | 0 <= k < m < |ws| ensures ws[k].id != ws[m].id {
        assert all[k + 1] == ws[k] && all[m + 1] == ws[m];
      }
    }
  }

  /** The id a window is kept under is new, and none of the ids still to be drawn. */
  lemma KeptId(raws: seq<Window>, i: nat, seen: set<string>, uuid: nat -> string) returns (id: string)
    requires i < |raws| && GoodIds(raws, uuid) && forall k: nat | 2 * i <= k < 2 * |raws| :: uuid(k) !in seen
    requires NormalizeWindow(raws[i], uuid(2 * i)).Some?
    ensures var own := NormalizeWindow(raws[i], uuid(2 * i)).value.id;
            id == if own in seen then uuid(2 * i + 1) else own
    ensures 0 < |id| <= 16 && id !in seen
    ensures forall k: nat | 2 * (i + 1) <= k < 2 * |raws| :: uuid(k) !in seen + {id}
  {
    KeptIsCanonical(raws[i], uuid(2 * i));
    var own := NormalizeWindow(raws[i], uuid(2 * i)).value.id;
    id := if own in seen then uuid(2 * i + 1) else own;
    assert id == Cut(raws[i].id, 16) || id == uuid(2 * i) || id == uuid(2 * i + 1);
  }

  /** A kept window in front of the rest, under the id it gets. */
  lemma KeptInFront(raws: seq<Window>, i: nat, seen: set<string>, uuid: nat -> string, id: string)
    requires i < |raws| && 0 < |uuid(2 * i)| <= 16 && 0 < |id| <= 16 && id !in seen
    requires NormalizeWindow(raws[i], uuid(2 * i)).Some?
    requires var own := NormalizeWindow(raws[i], uuid(2 * i)).value.id;
             id == if own in seen then uuid(2 * i + 1) else own
    requires Orderly(NormalizeFrom(raws, i + 1, seen + {id}, uuid), seen + {id})
    ensures Orderly(NormalizeFrom(raws, i, seen, uuid), seen)
  {
    var kept := NormalizeWindow(raws[i], uuid(2 * i)).value.(id := id);
    var rest := NormalizeFrom(raws, i + 1, seen + {id}, uuid);
    assert NormalizeFrom(raws, i, seen, uuid) == [kept] + rest by {
      NormalizeStep(raws, i, seen, uuid);
    }
    assert Canonical(kept) by {
      KeptIsCanonical(raws[i], uuid(2 * i));
    }
    OrderlyCons(kept, rest, seen);
  }

  lemma {:induction false} KeptIsOrderly(raws: seq<Window>, i: nat, seen: set<string>, uuid: nat -> string)
    requires i <= |raws| && GoodIds(raws, uuid) && forall k: nat | 2 * i <= k < 2 * |raws| :: uuid(k) !in seen
    ensures Orderly(NormalizeFrom(raws, i, seen, uuid), seen)
    decreases |raws| - i
  {
    if i < |raws| {
      if NormalizeWindow(raws[i], uuid(2 * i)).None? {
        NormalizeStep(raws, i, seen, uuid);
        KeptIsOrderly(raws, i + 1, seen, uuid);
      } else {
        var id := KeptId(raws, i, seen, uuid);
        KeptIsOrderly(raws, i + 1, seen + {id}, uuid);
        KeptInFront(raws, i, seen, uuid, id);
      }
    }
  }

  function Recaptioned(ws: seq<Window>): seq<Window> {
    if ws == [] then [] else [ws[0].(caption := NormalCaption(ws[0].caption))] + Recaptioned(ws[1..])
  }

  lemma {:induction false} SecondPass(ws: seq<Window>, j: nat, seen: set<string>, uuid: nat -> string)
    requires j <= |ws| && Orderly(ws[j..], seen)
    ensures NormalizeFrom(ws, j, seen, uuid) == Recaptioned(ws[j..])
    decreases |ws| - j
  {
    if j < |ws| {
      assert ws[j..] == [ws[j]] + ws[j + 1..];
      OrderlyCons(ws[j], ws[j + 1..], seen);
      CanonicalKept(ws[j], uuid(2 * j));
      SecondPass(ws, j + 1, seen + {ws[j].id}, uuid);
    }
  }

  /** Every kept window from position `i` on has a caption another pass leaves alone. */
  ghost predicate CaptionsStable(raws: seq<Window>, i: nat, uuid: nat -> string)
    requires i <= |raws|
  {
    forall k | i <= k < |raws| && NormalizeWindow(raws[k], uuid(2 * k)).Some? :: StableCaption(raws[k].caption)
  }

  lemma RecaptionedCons(w: Window, ws: seq<Window>)
    ensures Recaptioned([w] + ws) == [w] + ws <==> NormalCaption(w.caption) == w.caption && Recaptioned(ws) == ws
  {
    var all := [w] + ws;
    assert all[1..] == ws;
    var again := Recaptioned(all);
    assert again[1..] == Recaptioned(ws) && again[0] == w.(caption := NormalCaption(w.caption));
    if again == all {
      assert again[0].caption == w.caption;
    }
  }

  lemma {:induction false} CaptionsCarryOver(raws: seq<Window>, i: nat, seen: set<string>, uuid: nat -> string)
    requires i <= |raws|
    ensures Recaptioned(NormalizeFrom(raws, i, seen, uuid)) == NormalizeFrom(raws, i, seen, uuid) <==>
            CaptionsStable(raws, i, uuid)
    decreases |raws| - i
  {
    if i < |raws| {
      var w := NormalizeWindow(raws[i], uuid(2 * i));
      if w.None? {
        CaptionsCarryOver(raws, i + 1, seen, uuid);
      } else {
        var id := if w.value.id in seen then uuid(2 * i + 1) else w.value.id;
        CaptionsCarryOver(raws, i + 1, seen + {id}, uuid);
        CaptionStableExactly(raws[i].caption);
        RecaptionedCons(w.value.(id := id), NormalizeFrom(raws, i + 1, seen + {id}, uuid));
      }
      assert CaptionsStable(raws, i, uuid) <==>
             (w.Some? ==> StableCaption(raws[i].caption)) && CaptionsStable(raws, i + 1, uuid);
    }
  }

  datatype Mode = Historical | ScheduledMode | OtherMode

  datatype Device = Device(mode: Mode, sleepStart: Option<string>, sleepEnd: Option<string>, windows: seq<Window>)

  /** A time as it is written back: in one form if it reads as a time, else dropped. */
  function NormalTime(text: Option<string>): Option<string> {
    var minute := ParseHhmm(text);
    if minute.None? then None else Some(FormatHhmm(minute.value))
  }

  lemma NormalTimeReads(text: Option<string>)
    ensures ParseHhmm(NormalTime(text)) == ParseHhmm(text) && NormalTime(NormalTime(text)) == NormalTime(text)
  {
    if ParseHhmm(text).Some? {
      HhmmRoundTrip(ParseHhmm(text).value);
    }
  }

  /** A record that is not an object becomes the default device. */
  function NormalizeDevice(raw: Option<Device>, uuid: nat -> string): Device {
    if raw.None? then Device(ScheduledMode, None, None, [])
    else
      var d := raw.value;
      Device(if d.mode == OtherMode then ScheduledMode else d.mode, NormalTime(d.sleepStart), NormalTime(d.sleepEnd),
             NormalizeFrom(d.windows, 0, {}, uuid))
  }

  /**
   * Normalising changes neither when the device sleeps nor a mode the program knows; an unknown mode
   * becomes the calendar's, and a record that is not one never sleeps and has no windows.
   */
  lemma DeviceMeaningKept(raw: Device, uuid: nat -> string, minuteOfDay: int)
    ensures var d := NormalizeDevice(Some(raw), uuid);
            && (InSleepWindow(minuteOfDay, d.sleepStart, d.sleepEnd) <==>
                InSleepWindow(minuteOfDay, raw.sleepStart, raw.sleepEnd))
            && (raw.mode in {Historical, ScheduledMode} ==> d.mode == raw.mode)
            && d.mode in {Historical, ScheduledMode} && (raw.mode == OtherMode ==> d.mode == ScheduledMode)
    ensures var d := NormalizeDevice(None, uuid);
            d.mode == ScheduledMode && d.windows == [] && !InSleepWindow(minuteOfDay, d.sleepStart, d.sleepEnd)
  {
    NormalTimeReads(raw.sleepStart);
    NormalTimeReads(raw.sleepEnd);
  }

  /**
   * Normalising twice equals normalising once exactly when no kept window's label is cut right
   * after a white space character: the second pass would strip it.
   */
  lemma NormalizeTwiceExactly(raw: Device, uuid: nat -> string, uuid': nat -> string)
    requires GoodIds(raw.windows, uuid)
    ensures var once := NormalizeDevice(Some(raw), uuid);
            NormalizeDevice(Some(once), uuid') == once <==> CaptionsStable(raw.windows, 0, uuid)
  {
    var kept := NormalizeFrom(raw.windows, 0, {}, uuid);
    NormalTimeReads(raw.sleepStart);
    NormalTimeReads(raw.sleepEnd);
    KeptIsOrderly(raw.windows, 0, {}, uuid);
    assert kept[0..] == kept;
    SecondPass(kept, 0, {}, uuid');
    CaptionsCarryOver(raw.windows, 0, {}, uuid);
  }

  function PlainId(k: nat): string {
    ['#', (k % 0xD800) as char]
  }

  /** Good generators exist: this one serves every list of at most 27000 windows whose ids do not start with '#'. */
  lemma GoodIdsExist(raws: seq<Window>)
    requires |raws| <= 27000 && forall i | 0 <= i < |raws| && raws[i].id != "" :: raws[i].id[0] != '#'
    ensures GoodIds(raws, PlainId)
  {
    forall k: nat, m: nat | k < m < 2 * |raws| ensures PlainId(k) != PlainId(m) {
      assert PlainId(k)[1] as int == k && PlainId(m)[1] as int == m;
    }
    forall k: nat, i | k < 2 * |raws| && 0 <= i < |raws| ensures PlainId(k) != Cut(raws[i].id, 16) {
      assert PlainId(k)[0] == '#';
    }
  }

  /** A label whose eightieth character is a blank: the blank is kept by the first pass and not by the second. */
  lemma CutCaptionExample()
    ensures var caption := seq(79, _ => 'x') + " y";
            NormalCaption(caption)[79] == ' ' && NormalCaption(NormalCaption(caption)) != NormalCaption(caption)
  {
    var caption := seq(79, _ => 'x') + " y";
    StripStable(caption);
    CaptionStableExactly(caption);
  }

  function CutCaptionDevice(): Device {
    Device(ScheduledMode, None, None,
           [Window("w", seq(79, _ => 'x') + " y", Some(0), Some(60), Some(100.0), Weekly, OtherDays, None,
                   Some({Some(0)}))])
  }

  /** A device that changes on the second pass although every id is good: its one label is cut after a blank. */
  lemma CutCaptionDeviceChanges()
    ensures var once := NormalizeDevice(Some(CutCaptionDevice()), PlainId);
            GoodIds(CutCaptionDevice().windows, PlainId) && NormalizeDevice(Some(once), PlainId) != once
  {
    var raws := CutCaptionDevice().windows;
    GoodIdsExist(raws);
    StripStable(raws[0].caption);
    assert NormalizeWindow(raws[0], PlainId(0)).Some? && !StableCaption(raws[0].caption);
    assert !CaptionsStable(raws, 0, PlainId);
    NormalizeTwiceExactly(CutCaptionDevice(), PlainId, PlainId);
  }
}
