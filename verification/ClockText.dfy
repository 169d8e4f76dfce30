/** The text forms the schedule reads and writes: clock times and calendar dates. */
module ClockText {
  import opened Prelude
  import opened Arithmetic

  // ---------- white space ----------

  predicate IsSpace(c: char) {
    var k := c as int;
    9 <= k <= 13 || 28 <= k <= 32 || 0x2000 <= k <= 0x200A
    || k in {0x85, 0xA0, 0x1680, 0x2028, 0x2029, 0x202F, 0x205F, 0x3000}
  }

  function StripLeft(s: string): (r: string)
    ensures |r| <= |s| && (r != "" ==> !IsSpace(r[0]))
  {
    if s != "" && IsSpace(s[0]) then StripLeft(s[1..]) else s
  }

  function StripRight(s: string): (r: string)
    ensures r <= s && (r != "" ==> !IsSpace(r[|r| - 1]))
  {
    if s != "" && IsSpace(s[|s| - 1]) then StripRight(s[..|s| - 1]) else s
  }

  /** `str.strip()`. */
  function Strip(s: string): (r: string)
    ensures |r| <= |s|
    ensures r != "" ==> !IsSpace(r[0]) && !IsSpace(r[|r| - 1])
  {
    StripRight(StripLeft(s))
  }

  /** Stripping changes a text exactly when it starts or ends with white space. */
  lemma StripStable(s: string)
    ensures Strip(s) == s <==> (s == "" || (!IsSpace(s[0]) && !IsSpace(s[|s| - 1])))
  {
  }

  lemma {:induction false} StripLeftDrops(s: string) returns (i: nat)
    ensures i <= |s| && StripLeft(s) == s[i..] && forall k | 0 <= k < i :: IsSpace(s[k])
  {
    i := 0;
    if s != "" && IsSpace(s[0]) {
      var j := StripLeftDrops(s[1..]);
      i := j + 1;
      assert s[1..][j..] == s[i..];
      assert forall k | 0 < k < i :: s[k] == s[1..][k - 1];
    }
  }

  lemma {:induction false} StripRightDrops(s: string) returns (j: nat)
    ensures j <= |s| && StripRight(s) == s[..j] && forall k | j <= k < |s| :: IsSpace(s[k])
  {
    j := |s|;
    if s != "" && IsSpace(s[|s| - 1]) {
      j := StripRightDrops(s[..|s| - 1]);
      assert s[..|s| - 1][..j] == s[..j];
      assert forall k | j <= k < |s| - 1 :: s[k] == s[..|s| - 1][k];
    }
  }

  /** Stripping takes white space off both ends and nothing else; what is left has none there. */
  lemma StripExactly(s: string) returns (i: nat, j: nat)
    ensures i <= j <= |s| && Strip(s) == s[i..j]
    ensures forall k | 0 <= k < i || j <= k < |s| :: IsSpace(s[k])
  {
    i := StripLeftDrops(s);
    var n := StripRightDrops(s[i..]);
    j := i + n;
    assert s[i..][..n] == s[i..j];
    assert forall k | j <= k < |s| :: s[k] == s[i..][k - i];
  }

  /** The white space among the ASCII characters: tab to carriage return, the four separators, blank. */
  lemma AsciiSpaces(c: char)
    requires c as int < 128
    ensures IsSpace(c) <==> c as int in {9, 10, 11, 12, 13, 28, 29, 30, 31, 32}
  {
  }

  ghost predicate Blank(s: string) {
    forall k | 0 <= k < |s| :: IsSpace(s[k])
  }

  lemma {:induction false} StripLeftBlank(l: string, s: string)
    requires Blank(l)
    ensures StripLeft(l + s) == StripLeft(s)
  {
    if l == "" {
      assert l + s == s;
    } else {
      StripLeftBlank(l[1..], s);
      assert (l + s)[1..] == l[1..] + s;
    }
  }

  lemma {:induction false} StripRightBlank(s: string, r: string)
    requires Blank(r)
    ensures StripRight(s + r) == StripRight(s)
  {
    if r == "" {
      assert s + r == s;
    } else {
      var n := |r| - 1;
      StripRightBlank(s, r[..n]);
      assert (s + r)[..|s + r| - 1] == s + r[..n];
    }
  }

  lemma {:induction false} StripBlankBehind(s: string, r: string)
    requires Blank(r)
    ensures Strip(s + r) == Strip(s)
  {
    if s == "" {
      StripLeftBlank(r, "");
      assert s + r == r && r + "" == r;
    } else if IsSpace(s[0]) {
      StripBlankBehind(s[1..], r);
      assert (s + r)[1..] == s[1..] + r;
    } else {
      StripRightBlank(s, r);
    }
  }

  /** White space around a text makes no difference. */
  lemma StripBlanks(l: string, s: string, r: string)
    requires Blank(l) && Blank(r)
    ensures Strip(l + s + r) == Strip(s)
  {
    Assoc(l, s, r);
    StripLeftBlank(l, s + r);
    StripBlankBehind(s, r);
  }

  // ---------- numbers ----------

  predicate IsDigit(c: char) {
    '0' <= c <= '9'
  }

  function Digits(s: string, acc: nat, afterDigit: bool): Option<nat> {
    if s == "" then if afterDigit then Some(acc) else None
    else if IsDigit(s[0]) then Digits(s[1..], acc * 10 + (s[0] as int - '0' as int), true)
    else if s[0] == '_' && afterDigit then Digits(s[1..], acc, false)
    else None
  }

  /** `int(text)`: an optional sign and digits, single underscores allowed between them. */
  function ParseInt(s: string): Option<int> {
    var t := Strip(s);
    if t == "" then None
    else
      var n := Digits(if t[0] == '-' || t[0] == '+' then t[1..] else t, 0, false);
      if n.None? then None else Some(if t[0] == '-' then 0 - n.value else n.value)
  }

  // ---------- clock times ----------

  function FirstColon(s: string): (i: nat)
    ensures i <= |s| && (i < |s| ==> s[i] == ':') && forall k | 0 <= k < i :: s[k] != ':'
  {
    if s == "" || s[0] == ':' then 0 else 1 + FirstColon(s[1..])
  }

  /** `text.split(":")` when it yields exactly two parts. */
  function SplitColon(t: string): Option<(string, string)> {
    var i := FirstColon(t);
    if i == |t| || ':' in t[i + 1..] then None else Some((t[..i], t[i + 1..]))
  }

  lemma SplitJoined(h: string, m: string)
    requires ':' !in h && ':' !in m
    ensures SplitColon(h + ":" + m) == Some((h, m))
  {
    var t := h + ":" + m;
    assert forall k | 0 <= k < |h| :: t[k] == h[k];
    assert t[|h|] == ':';
    assert t[..|h|] == h && t[|h| + 1..] == m;
  }

  /** Minutes from midnight of an "HH:MM" text; any other value, absent or not a text, reads as none. */
  function ParseHhmm(s: Option<string>): (r: Option<int>)
    ensures r.Some? ==> 0 <= r.value < 1440
  {
    if s.None? then None else FromParts(SplitColon(Strip(s.value)))
  }

  function FromParts(parts: Option<(string, string)>): (r: Option<int>)
    ensures r.Some? ==> 0 <= r.value < 1440
  {
    if parts.None? then None
    else
      var hh, mm := ParseInt(parts.value.0), ParseInt(parts.value.1);
      if hh.Some? && mm.Some? && 0 <= hh.value <= 23 && 0 <= mm.value <= 59
      then Some(hh.value * 60 + mm.value) else None
  }

  function TwoDigits(n: int): (s: string)
    requires 0 <= n < 100
    ensures |s| == 2 && IsDigit(s[0]) && IsDigit(s[1])
  {
    [(n / 10 + '0' as int) as char, (n % 10 + '0' as int) as char]
  }

  function FormatHhmm(minutes: int): string {
    var m := minutes % 1440;
    TwoDigits(m / 60) + ":" + TwoDigits(m % 60)
  }

  lemma TwoDigitsParse(n: int)
    requires 0 <= n < 100
    ensures ParseInt(TwoDigits(n)) == Some(n)
  {
    var s := TwoDigits(n);
    StripStable(s);
    assert s[1..] == [s[1]] && s[1..][1..] == "";
    assert Digits(s[1..], n / 10, true) == Digits("", n, true);
  }

  lemma JoinedIsStripped(h: string, m: string)
    requires h != "" && m != "" && IsDigit(h[0]) && IsDigit(m[|m| - 1])
    ensures Strip(h + ":" + m) == h + ":" + m
  {
    var t := h + ":" + m;
    assert t[0] == h[0] && t[|t| - 1] == m[|m| - 1];
    StripStable(t);
  }

  lemma DigitsHaveNoColon(s: string)
    requires |s| == 2 && IsDigit(s[0]) && IsDigit(s[1])
    ensures ':' !in s
  {
  }

  lemma JoinedParses(h: string, m: string, hh: int, mm: int)
    requires |h| == |m| == 2 && IsDigit(h[0]) && IsDigit(h[1]) && IsDigit(m[0]) && IsDigit(m[1])
    requires ParseInt(h) == Some(hh) && ParseInt(m) == Some(mm) && 0 <= hh < 24 && 0 <= mm < 60
    ensures ParseHhmm(Some(h + ":" + m)) == Some(hh * 60 + mm)
  {
    JoinedIsStripped(h, m);
    DigitsHaveNoColon(h);
    DigitsHaveNoColon(m);
    SplitJoined(h, m);
  }

  lemma DigitsOf(n: int) returns (s: string)
    requires 0 <= n < 100
    ensures s == TwoDigits(n) && |s| == 2 && IsDigit(s[0]) && IsDigit(s[1]) && ParseInt(s) == Some(n)
  {
    s := TwoDigits(n);
    TwoDigitsParse(n);
  }

  /** A formatted time reads back as itself, so normalising times twice changes nothing. */
  lemma HhmmRoundTrip(m: int)
    requires 0 <= m < 1440
    ensures ParseHhmm(Some(FormatHhmm(m))) == Some(m)
  {
    var h, k := m / 60, m % 60;
    assert m % 1440 == m && h * 60 + k == m;
    var a := DigitsOf(h);
    var b := DigitsOf(k);
    var text := a + ":" + b;
    assert FormatHhmm(m) == text;
    JoinedParses(a, b, h, k);
  }

  // ---------- what reads as a number, and as a time ----------

  /** A number as it is printed, without leading zeros. */
  function Decimal(n: nat): (s: string)
    ensures s != "" && IsDigit(s[0]) && IsDigit(s[|s| - 1]) && ':' !in s
  {
    var last := [(n % 10 + '0' as int) as char];
    if n < 10 then last else Decimal(n / 10) + last
  }

  lemma {:induction false} DigitsRead(n: nat, rest: string, afterDigit: bool)
    ensures Digits(Decimal(n) + rest, 0, afterDigit) == Digits(rest, n, true)
  {
    var last := [(n % 10 + '0' as int) as char];
    if n < 10 {
      assert (Decimal(n) + rest)[1..] == rest;
    } else {
      DigitsRead(n / 10, last + rest, afterDigit);
      Assoc(Decimal(n / 10), last, rest);
      assert (last + rest)[1..] == rest;
    }
  }

  lemma DecimalReads(n: nat)
    ensures Digits(Decimal(n), 0, false) == Some(n)
  {
    DigitsRead(n, "", false);
    assert Decimal(n) + "" == Decimal(n);
  }

  lemma PlainReads(s: string, n: int)
    requires s != "" && IsDigit(s[0]) && IsDigit(s[|s| - 1]) && Digits(s, 0, false) == Some(n)
    ensures ParseInt(s) == Some(n)
  {
    StripStable(s);
  }

  lemma SignedReads(t: string, s: string, n: int)
    requires t != "" && t[0] in {'+', '-'} && t[1..] == s != "" && IsDigit(t[|t| - 1])
    requires Digits(s, 0, false) == Some(n)
    ensures ParseInt(t) == Some(if t[0] == '-' then 0 - n else n)
  {
    StripStable(t);
  }

  /** Every printed number reads as itself, with either sign. */
  lemma IntRoundTrip(n: int)
    requires n >= 0
    ensures ParseInt(Decimal(n)) == Some(n) && ParseInt("+" + Decimal(n)) == Some(n)
    ensures ParseInt("-" + Decimal(n)) == Some(0 - n)
  {
    var s := Decimal(n);
    DecimalReads(n);
    PlainReads(s, n);
    assert ("+" + s)[1..] == s && ("-" + s)[1..] == s;
    SignedReads("+" + s, s, n);
    SignedReads("-" + s, s, n);
  }

  /** A single underscore may stand between two digits, and nowhere else. */
  lemma UnderscoreExamples()
    ensures ParseInt("1_0") == Some(10) && ParseInt("1__0") == ParseInt("_1") == ParseInt("1_") == None
  {
    StripStable("1_0");
    StripStable("1__0");
    StripStable("_1");
    StripStable("1_");
    assert "1_0"[1..] == "_0" && "_0"[1..] == "0" && "0"[1..] == "";
    assert "1__0"[1..] == "__0" && "__0"[1..] == "_0" && "1_"[1..] == "_" && "_"[1..] == "";
  }

  lemma PartsRead(a: string, b: string, h: int, m: int)
    requires ParseInt(a) == Some(h) && ParseInt(b) == Some(m)
    ensures FromParts(Some((a, b))) == if 0 <= h < 24 && 0 <= m < 60 then Some(60 * h + m) else None
  {
  }

  /** Numbers and times read the same with white space around them. */
  lemma BlanksDoNotMatter(l: string, s: string, r: string)
    requires Blank(l) && Blank(r)
    ensures ParseInt(l + s + r) == ParseInt(s) && ParseHhmm(Some(l + s + r)) == ParseHhmm(Some(s))
  {
    StripBlanks(l, s, r);
  }

  /** Two printed numbers around a colon are a time exactly when they are an hour and a minute. */
  lemma HhmmReadsExactly(h: nat, m: nat)
    ensures ParseHhmm(Some(Decimal(h) + ":" + Decimal(m))) == if h < 24 && m < 60 then Some(60 * h + m) else None
  {
    var a, b := Decimal(h), Decimal(m);
    IntRoundTrip(h);
    IntRoundTrip(m);
    JoinedIsStripped(a, b);
    SplitJoined(a, b);
    PartsRead(a, b, h, m);
  }

  // ---------- dates ----------

  function Number(s: string): nat {
    if s == "" then 0
    else Number(s[..|s| - 1]) * 10 + if IsDigit(s[|s| - 1]) then s[|s| - 1] as int - '0' as int else 0
  }

  function DaysIn(year: int, month: int): (d: int)
    ensures month in {1, 3, 5, 7, 8, 10, 12} ==> d == 31
    ensures month in {4, 6, 9, 11} ==> d == 30
    ensures month == 2 ==> d in {28, 29}
  {
    if month == 2 then if year % 4 == 0 && (year % 100 != 0 || year % 400 == 0) then 29 else 28
    else if month in {4, 6, 9, 11} then 30 else 31
  }

  predicate IsDate(t: string) {
    && |t| == 10 && t[4] == '-' && t[7] == '-'
    && (forall k | 0 <= k < 10 && k != 4 && k != 7 :: IsDigit(t[k]))
    && 1 <= Number(t[..4]) && 1 <= Number(t[5..7]) <= 12
    && 1 <= Number(t[8..]) <= DaysIn(Number(t[..4]), Number(t[5..7]))
  }

  /** The date part of a text that begins with a real calendar date, else none. */
  function ParseDate(s: Option<string>): (r: Option<string>)
    ensures r.Some? ==> IsDate(r.value)
  {
    if s.None? then None
    else
      var t := Strip(s.value);
      var cut := if |t| > 10 then t[..10] else t;
      if IsDate(cut) then Some(cut) else None
  }

  /** A calendar date reads as itself, so reading twice is reading once, whatever follows the date or surrounds it. */
  lemma DateRoundTrip(s: Option<string>)
    ensures ParseDate(s).Some? ==> ParseDate(ParseDate(s)) == ParseDate(s)
    ensures s.Some? && IsDate(s.value) ==> ParseDate(s) == s
  {
    if s.Some? {
      StripStable(s.value);
    }
    if ParseDate(s).Some? {
      StripStable(ParseDate(s).value);
    }
  }

  /** A date as it is printed. */
  function PrintDate(year: int, month: int, day: int): string
    requires 0 <= year < 10000 && 0 <= month < 100 && 0 <= day < 100
  {
    TwoDigits(year / 100) + TwoDigits(year % 100) + "-" + TwoDigits(month) + "-" + TwoDigits(day)
  }

  lemma NumberOfTwo(n: int)
    requires 0 <= n < 100
    ensures Number(TwoDigits(n)) == n
  {
    var s := TwoDigits(n);
    var head := s[..1];
    assert head == [s[0]] && head[..0] == "";
    assert Number(head) == n / 10;
  }

  lemma NumberOfFour(a: int, b: int)
    requires 0 <= a < 100 && 0 <= b < 100
    ensures Number(TwoDigits(a) + TwoDigits(b)) == 100 * a + b
  {
    var s, t := TwoDigits(a), TwoDigits(b);
    assert (s + t)[..3] == s + [t[0]] && (s + [t[0]])[..2] == s;
    NumberOfTwo(a);
    NumberOfTwo(b);
    assert t[..1] == [t[0]] && t[..1][..0] == "";
  }

  /** Where the numbers stand in a printed date. */
  lemma DateParts(year: int, month: int, day: int)
    requires 0 <= year < 10000 && 0 <= month < 100 && 0 <= day < 100
    ensures var t := PrintDate(year, month, day);
            && |t| == 10 && t[4] == '-' && t[7] == '-'
            && t[..4] == TwoDigits(year / 100) + TwoDigits(year % 100) && t[5..7] == TwoDigits(month)
            && t[8..] == TwoDigits(day)
  {
  }

  /** A printed date reads as one exactly when that day exists. */
  lemma DatesReadExactly(year: int, month: int, day: int)
    requires 0 <= year < 10000 && 0 <= month < 100 && 0 <= day < 100
    ensures IsDate(PrintDate(year, month, day)) <==> year >= 1 && 1 <= month <= 12 && 1 <= day <= DaysIn(year, month)
  {
    var t := PrintDate(year, month, day);
    DateParts(year, month, day);
    NumberOfFour(year / 100, year % 100);
    NumberOfTwo(month);
    NumberOfTwo(day);
    forall k | 0 <= k < 10 && k != 4 && k != 7 ensures IsDigit(t[k]) {
      assert k < 4 ==> t[k] == t[..4][k];
      assert 5 <= k < 7 ==> t[k] == t[5..7][k - 5];
      assert k >= 8 ==> t[k] == t[8..][k - 8];
    }
  }

  /** A date is read off the front of its text: white space before it and anything behind it are no matter. */
  lemma DateInFront(l: string, date: string, rest: string)
    requires Blank(l) && IsDate(date)
    ensures ParseDate(Some(l + (date + rest))) == Some(date)
  {
    var s := date + rest;
    StripLeftBlank(l, s);
    var j := StripRightDrops(s);
    assert !IsSpace(s[9]);
    assert j >= 10 && s[..j][..10] == date;
  }

  lemma CenturyRemainders(q: int, r: int)
    requires 0 <= r < 4
    ensures (400 * q + 100 * r) % 400 == 100 * r
    ensures (400 * q + 100 * r) % 4 == 0
  {
    DivUnique(400 * q + 100 * r, 400, q);
    MultipleMod(100 * q + 25 * r, 4);
  }

  lemma FullCentury(year: int)
    requires year % 100 == 0
    ensures year % 4 == 0 && (year % 400 == 0 <==> year / 100 % 4 == 0)
  {
    var c := year / 100;
    CenturyRemainders(c / 4, c % 4);
    assert year == 400 * (c / 4) + 100 * (c % 4);
  }

  /** The leap years: every fourth, of the full centuries every fourth. */
  lemma LeapYears(year: int)
    ensures year % 100 != 0 ==> (DaysIn(year, 2) == 29 <==> year % 4 == 0)
    ensures year % 100 == 0 ==> (DaysIn(year, 2) == 29 <==> year / 100 % 4 == 0)
  {
    if year % 100 == 0 {
      FullCentury(year);
    }
  }
}
