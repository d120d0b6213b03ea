/**
 The file-name stem of a backup: written from an instant, read back by
 retention, and sorted as a string where a time is meant.
 */
module Stems {
  import opened Wrappers
  import opened Calendar
  import opened Digits

  const EPOCH_DAY := 719_528
  const LAST_DAY := 3_652_425

  datatype Stamp = Stamp(date: Date, hour: int, minute: int, second: int)

  predicate IsStamp(s: Stamp) {
    && IsDate(s.date) && s.date.year <= 9999
    && 0 <= s.hour < 24 && 0 <= s.minute < 60 && 0 <= s.second < 60
  }

  // ---- Writing --------------------------------------------------------------

  function Render(s: Stamp): string
    requires IsStamp(s)
  {
    Four(s.date.year) + ("-" + (Two(s.date.month) + ("-" + (Two(s.date.day) + ("T" + (
      Two(s.hour) + (Two(s.minute) + Two(s.second))))))))
  }

  /** The second an instant in milliseconds falls in, rounding down before the epoch as well. */
  function SecondOf(ms: int): int {
    ms / 1000
  }

  /** Seconds since the start of the year 0. */
  ghost function SinceZero(ms: int): int {
    SecondOf(ms) + EPOCH_DAY * 86_400
  }

  /** The years a stem has room for: 0000 to 9999. */
  predicate InRange(ms: int) {
    0 <= SecondOf(ms) + EPOCH_DAY * 86_400 < LAST_DAY * 86_400
  }

  function Clock(rest: int): (int, int, int) {
    (rest / 3600, rest % 3600 / 60, rest % 3600 % 60)
  }

  lemma ClockIsExact(rest: int)
    requires 0 <= rest < 86_400
    ensures var (h, m, s) := Clock(rest);
            0 <= h < 24 && 0 <= m < 60 && 0 <= s < 60 && h * 3600 + m * 60 + s == rest
  {
  }

  lemma LastYear(day: nat)
    requires day < LAST_DAY
    ensures DateOf(day).year <= 9999
  {
    var y := DateOf(day).year;
    assert YearStart(10000) == LAST_DAY;
    assert Day(DateOf(day)) >= YearStart(y);
    if y >= 10000 {
      YearsAscend(10000, y);
    }
  }

  /** The calendar reading of an instant. */
  function StampOf(ms: int): (s: Stamp)
    requires InRange(ms)
    ensures IsStamp(s)
    ensures Day(s.date) * 86_400 + s.hour * 3600 + s.minute * 60 + s.second == SinceZero(ms)
  {
    var since := SecondOf(ms) + EPOCH_DAY * 86_400;
    var day, rest := since / 86_400, since % 86_400;
    LastYear(day);
    ClockIsExact(rest);
    var (h, m, s) := Clock(rest);
    Stamp(DateOf(day), h, m, s)
  }

  function StemFor(ms: int): string
    requires InRange(ms)
  {
    Render(StampOf(ms))
  }

  // ---- Reading --------------------------------------------------------------

  /** Four digits, dash, two, dash, two, T, six. */
  predicate HasShape(s: string) {
    && |s| == 17
    && s[4] == '-' && s[7] == '-' && s[10] == 'T'
    && (forall i :: 0 <= i < 17 && i != 4 && i != 7 && i != 10 ==> IsDigit(s[i]))
  }

  /** Milliseconds since the epoch, as `time.Date` and `UnixMilli` count them. */
  function Millis(day: int, hour: int, minute: int, second: int): int {
    ((day - EPOCH_DAY) * 86_400 + hour * 3600 + minute * 60 + second) * 1000
  }

  /** A stem back to milliseconds; fields out of range carry over, as `time.Date` lets them. */
  function StemToMs(s: string): Option<int> {
    if !HasShape(s) then None
    else
      var day := DayNumber(Value2(s, 0) * 100 + Value2(s, 2), Value2(s, 5), Value2(s, 8));
      Some(Millis(day, Value2(s, 11), Value2(s, 13), Value2(s, 15)))
  }

  /** The fields of a stem, real or not. */
  function StampIn(s: string): Stamp
    requires HasShape(s)
  {
    Stamp(Date(Value2(s, 0) * 100 + Value2(s, 2), Value2(s, 5), Value2(s, 8)), Value2(s, 11), Value2(s, 13), Value2(s, 15))
  }

  /** A stem read field by field. */
  lemma FieldsRead(s: string, a: Stamp)
    requires HasShape(s) && StampIn(s) == a
    ensures StemToMs(s) == Some(Millis(DayNumber(a.date.year, a.date.month, a.date.day), a.hour, a.minute, a.second))
  {
  }

  /** Where each field of a rendered stamp is. */
  lemma RenderLayout(s: Stamp)
    requires IsStamp(s)
    ensures var r := Render(s);
            && |r| == 17 && r[4] == '-' && r[7] == '-' && r[10] == 'T'
            && r[0] == Two(s.date.year / 100)[0] && r[1] == Two(s.date.year / 100)[1]
            && r[2] == Two(s.date.year % 100)[0] && r[3] == Two(s.date.year % 100)[1]
            && r[5] == Two(s.date.month)[0] && r[6] == Two(s.date.month)[1]
            && r[8] == Two(s.date.day)[0] && r[9] == Two(s.date.day)[1]
            && r[11] == Two(s.hour)[0] && r[12] == Two(s.hour)[1]
            && r[13] == Two(s.minute)[0] && r[14] == Two(s.minute)[1]
            && r[15] == Two(s.second)[0] && r[16] == Two(s.second)[1]
  {
  }

  lemma RenderReads(s: Stamp)
    requires IsStamp(s)
    ensures var r := Render(s);
            && HasShape(r)
            && Value2(r, 0) == s.date.year / 100 && Value2(r, 2) == s.date.year % 100
            && Value2(r, 5) == s.date.month && Value2(r, 8) == s.date.day
            && Value2(r, 11) == s.hour && Value2(r, 13) == s.minute && Value2(r, 15) == s.second
  {
    RenderLayout(s);
    TwoReads(s.date.year / 100);
    TwoReads(s.date.year % 100);
    TwoReads(s.date.month);
    TwoReads(s.date.day);
    TwoReads(s.hour);
    TwoReads(s.minute);
    TwoReads(s.second);
  }

  lemma Hundreds(n: int)
    ensures n / 100 * 100 + n % 100 == n
  {
  }

  lemma RenderedReads(s: Stamp)
    requires IsStamp(s)
    ensures StemToMs(Render(s)) == Some(Millis(Day(s.date), s.hour, s.minute, s.second))
  {
    RenderReads(s);
    NothingCarried(s.date);
    Hundreds(s.date.year);
  }

  lemma StampReadsBack(s: Stamp, since: int)
    requires IsStamp(s) && Day(s.date) * 86_400 + s.hour * 3600 + s.minute * 60 + s.second == since
    ensures StemToMs(Render(s)) == Some((since - EPOCH_DAY * 86_400) * 1000)
  {
    RenderedReads(s);
  }

  /** A stem reads back as its instant, rounded down to the second. */
  lemma StemRoundTrips(ms: int)
    requires InRange(ms)
    ensures StemToMs(StemFor(ms)) == Some(SecondOf(ms) * 1000)
  {
    var s := StampOf(ms);
    StampReadsBack(s, SinceZero(ms));
  }

  // ---- Order ----------------------------------------------------------------

  /** Strings in byte order, as Go compares them. */
  predicate Less(s: string, t: string) {
    t != [] && (s == [] || s[0] < t[0] || (s[0] == t[0] && Less(s[1..], t[1..])))
  }

  lemma {:induction false} LessIsIrreflexive(s: string)
    ensures !Less(s, s)
  {
    if s != [] {
      LessIsIrreflexive(s[1..]);
    }
  }

  /** Heads of equal length are compared first, and what follows only when they are equal. */
  lemma {:induction false} LessByParts(p: string, q: string, s: string, t: string)
    requires |p| == |q|
    ensures Less(p + s, q + t) <==> Less(p, q) || (p == q && Less(s, t))
  {
    if p == [] {
      assert p + s == s && q + t == t;
    } else {
      LessByParts(p[1..], q[1..], s, t);
      assert (p + s)[1..] == p[1..] + s && (q + t)[1..] == q[1..] + t;
      assert p == q <==> p[0] == q[0] && p[1..] == q[1..] by {
        assert p == [p[0]] + p[1..] && q == [q[0]] + q[1..];
      }
    }
  }

  lemma TwoOrder(a: int, b: int)
    requires 0 <= a < 100 && 0 <= b < 100
    ensures Less(Two(a), Two(b)) <==> a < b
    ensures Two(a) == Two(b) <==> a == b
  {
    var s, t := Two(a), Two(b);
    assert s[1..] == [s[1]] && t[1..] == [t[1]];
    assert s[1..][1..] == [] && t[1..][1..] == [];
    assert Less(s[1..], t[1..]) <==> s[1] < t[1];
    TwoReads(a);
    TwoReads(b);
  }

  lemma FourOrder(a: int, b: int)
    requires 0 <= a < 10000 && 0 <= b < 10000
    ensures Less(Four(a), Four(b)) <==> a < b
    ensures Four(a) == Four(b) <==> a == b
  {
    LessByParts(Two(a / 100), Two(b / 100), Two(a % 100), Two(b % 100));
    TwoOrder(a / 100, b / 100);
    TwoOrder(a % 100, b % 100);
    if Four(a) == Four(b) {
      assert Two(a / 100) == Four(a)[..2] && Two(a % 100) == Four(a)[2..];
      assert Two(b / 100) == Four(b)[..2] && Two(b % 100) == Four(b)[2..];
    }
  }

  /** A one-character separator common to both sides does not matter. */
  lemma SeparatorOrder(c: char, s: string, t: string)
    ensures Less([c] + s, [c] + t) <==> Less(s, t)
  {
    assert ([c] + s)[1..] == s && ([c] + t)[1..] == t;
  }

  ghost predicate ClockBefore(a: Stamp, b: Stamp) {
    || a.hour < b.hour
    || (a.hour == b.hour && (a.minute < b.minute || (a.minute == b.minute && a.second < b.second)))
  }

  lemma ClockOrder(a: Stamp, b: Stamp)
    requires IsStamp(a) && IsStamp(b)
    ensures Less(Two(a.hour) + (Two(a.minute) + Two(a.second)), Two(b.hour) + (Two(b.minute) + Two(b.second)))
            <==> ClockBefore(a, b)
  {
    LessByParts(Two(a.hour), Two(b.hour), Two(a.minute) + Two(a.second), Two(b.minute) + Two(b.second));
    LessByParts(Two(a.minute), Two(b.minute), Two(a.second), Two(b.second));
    TwoOrder(a.hour, b.hour);
    TwoOrder(a.minute, b.minute);
    TwoOrder(a.second, b.second);
  }

  /** From the day of the month on. */
  ghost function DayPart(s: Stamp): string
    requires IsStamp(s)
  {
    Two(s.date.day) + ("T" + (Two(s.hour) + (Two(s.minute) + Two(s.second))))
  }

  lemma DayOrder(a: Stamp, b: Stamp)
    requires IsStamp(a) && IsStamp(b)
    ensures Less(DayPart(a), DayPart(b)) <==>
            a.date.day < b.date.day || (a.date.day == b.date.day && ClockBefore(a, b))
  {
    var ca, cb := Two(a.hour) + (Two(a.minute) + Two(a.second)), Two(b.hour) + (Two(b.minute) + Two(b.second));
    LessByParts(Two(a.date.day), Two(b.date.day), "T" + ca, "T" + cb);
    TwoOrder(a.date.day, b.date.day);
    SeparatorOrder('T', ca, cb);
    ClockOrder(a, b);
  }

  lemma RenderOrder(a: Stamp, b: Stamp)
    requires IsStamp(a) && IsStamp(b)
    ensures Less(Render(a), Render(b)) <==> Before(a.date, b.date) || (a.date == b.date && ClockBefore(a, b))
  {
    var ma, mb := Two(a.date.month) + ("-" + DayPart(a)), Two(b.date.month) + ("-" + DayPart(b));
    LessByParts(Four(a.date.year), Four(b.date.year), "-" + ma, "-" + mb);
    FourOrder(a.date.year, b.date.year);
    SeparatorOrder('-', ma, mb);
    LessByParts(Two(a.date.month), Two(b.date.month), "-" + DayPart(a), "-" + DayPart(b));
    TwoOrder(a.date.month, b.date.month);
    SeparatorOrder('-', DayPart(a), DayPart(b));
    DayOrder(a, b);
  }

  ghost function Instant(s: Stamp): int {
    Day(s.date) * 86_400 + s.hour * 3600 + s.minute * 60 + s.second
  }

  lemma LaterStamp(a: Stamp, b: Stamp)
    requires IsStamp(a) && IsStamp(b)
    requires Before(a.date, b.date) || (a.date == b.date && ClockBefore(a, b))
    ensures Instant(a) < Instant(b)
  {
    if Before(a.date, b.date) {
      EarlierDate(a.date, b.date);
    }
  }

  /** Stems compare as strings exactly as the seconds they stand for compare in time. */
  lemma StemOrderIsTimeOrder(t: int, u: int)
    requires InRange(t) && InRange(u)
    ensures Less(StemFor(t), StemFor(u)) <==> SecondOf(t) < SecondOf(u)
    ensures StemFor(t) == StemFor(u) <==> SecondOf(t) == SecondOf(u)
  {
    var a, b := StampOf(t), StampOf(u);
    RenderOrder(a, b);
    RenderOrder(b, a);
    if Before(a.date, b.date) || (a.date == b.date && ClockBefore(a, b)) {
      LaterStamp(a, b);
    } else if Before(b.date, a.date) || (b.date == a.date && ClockBefore(b, a)) {
      LaterStamp(b, a);
    } else {
      assert a == b;
    }
    LessIsIrreflexive(StemFor(t));
  }

  /** Byte order is a total order. */
  lemma {:induction false} LessIsTransitive(a: string, b: string, c: string)
    ensures Less(a, b) && Less(b, c) ==> Less(a, c)
  {
    if a != [] && b != [] && c != [] {
      LessIsTransitive(a[1..], b[1..], c[1..]);
    }
  }

  lemma {:induction false} LessIsTotal(a: string, b: string)
    ensures Less(a, b) || Less(b, a) || a == b
    ensures !(Less(a, b) && Less(b, a))
  {
    if a != [] && b != [] {
      LessIsTotal(a[1..], b[1..]);
      assert a == [a[0]] + a[1..] && b == [b[0]] + b[1..];
    }
  }

  const MADE_UP := "2024-13-02T000000"
  const WRITTEN := "2025-01-01T000000"

  lemma MadeUpSortsFirst()
    ensures Less(MADE_UP, WRITTEN)
  {
    assert Less(MADE_UP[3..], WRITTEN[3..]);
    assert Less(MADE_UP[2..], WRITTEN[2..]) by {
      assert MADE_UP[2..][1..] == MADE_UP[3..] && WRITTEN[2..][1..] == WRITTEN[3..];
    }
    assert Less(MADE_UP[1..], WRITTEN[1..]) by {
      assert MADE_UP[1..][1..] == MADE_UP[2..] && WRITTEN[1..][1..] == WRITTEN[2..];
    }
  }

  lemma MadeUpFields()
    ensures HasShape(MADE_UP) && StampIn(MADE_UP) == Stamp(Date(2024, 13, 2), 0, 0, 0)
  {
  }

  lemma WrittenFields()
    ensures HasShape(WRITTEN) && StampIn(WRITTEN) == Stamp(Date(2025, 1, 1), 0, 0, 0)
  {
  }

  lemma MadeUpDay()
    ensures DayNumber(2024, 13, 2) == 739_618
  {
    DivIs(12, 12, 1, 0);
    ModIs(12, 12, 1, 0);
    assert YearStart(2025) == 739_617;
  }

  lemma WrittenDay()
    ensures DayNumber(2025, 1, 1) == 739_617
  {
    NothingCarried(Date(2025, 1, 1));
  }

  lemma MadeUpReads()
    ensures StemToMs(MADE_UP) == Some(1_735_776_000_000)
  {
    MadeUpFields();
    MadeUpDay();
    FieldsRead(MADE_UP, Stamp(Date(2024, 13, 2), 0, 0, 0));
  }

  lemma WrittenReads()
    ensures StemToMs(WRITTEN) == Some(1_735_689_600_000)
  {
    WrittenFields();
    WrittenDay();
    FieldsRead(WRITTEN, Stamp(Date(2025, 1, 1), 0, 0, 0));
  }

  /** Two stems that parse and sort the wrong way round. */
  ghost predicate Misordered(s: string, t: string) {
    && Less(s, t)
    && StemToMs(s).Some? && StemToMs(t).Some? && StemToMs(s).value > StemToMs(t).value
  }

  /** A stem no clock wrote can parse, and then sort before a stem it is later than. */
  lemma MadeUpStemsMisorder()
    ensures exists s, t :: Misordered(s, t)
  {
    MadeUpSortsFirst();
    MadeUpReads();
    WrittenReads();
    assert Misordered(MADE_UP, WRITTEN);
  }

  // ---- Which stems sort by their time ---------------------------------------

  /** A month from 1 to 12, a day the month has, and a time the day has. */
  predicate IsReal(s: string)
    requires HasShape(s)
  {
    var stamp := StampIn(s);
    && 1 <= stamp.date.month <= 12 && 1 <= stamp.date.day <= MonthLength(stamp.date.year, stamp.date.month)
    && stamp.hour < 24 && stamp.minute < 60 && stamp.second < 60
  }

  lemma FieldsAreNatural(s: string)
    requires HasShape(s)
    ensures var stamp := StampIn(s);
            && 0 <= stamp.date.year <= 9999 && stamp.date.year / 100 == Value2(s, 0) && stamp.date.year % 100 == Value2(s, 2)
            && 0 <= stamp.date.month && 0 <= stamp.date.day
            && 0 <= stamp.hour && 0 <= stamp.minute && 0 <= stamp.second
  {
    ValueIsWritten(s, 0);
    ValueIsWritten(s, 2);
    DivIs(Value2(s, 0) * 100 + Value2(s, 2), 100, Value2(s, 0), Value2(s, 2));
  }

  lemma RealIsStamp(s: string)
    requires HasShape(s)
    ensures IsReal(s) <==> IsStamp(StampIn(s))
  {
    FieldsAreNatural(s);
  }

  /** The fields of a real stem, written out again, are the stem. */
  lemma FieldsRender(s: string)
    requires HasShape(s) && IsStamp(StampIn(s))
    ensures Render(StampIn(s)) == s
  {
    FieldsAreNatural(s);
    RenderLayout(StampIn(s));
    ValueIsWritten(s, 0);
    ValueIsWritten(s, 2);
    ValueIsWritten(s, 5);
    ValueIsWritten(s, 8);
    ValueIsWritten(s, 11);
    ValueIsWritten(s, 13);
    ValueIsWritten(s, 15);
    SameLetters(Render(StampIn(s)), s);
  }

  lemma SameLetters(r: string, s: string)
    requires |r| == |s| == 17
    requires r[0] == s[0] && r[1] == s[1] && r[2] == s[2] && r[3] == s[3] && r[4] == s[4] && r[5] == s[5]
    requires r[6] == s[6] && r[7] == s[7] && r[8] == s[8] && r[9] == s[9] && r[10] == s[10] && r[11] == s[11]
    requires r[12] == s[12] && r[13] == s[13] && r[14] == s[14] && r[15] == s[15] && r[16] == s[16]
    ensures r == s
  {
  }

  lemma EqualInstants(a: Stamp, b: Stamp)
    requires IsStamp(a) && IsStamp(b) && Instant(a) == Instant(b)
    ensures a == b
  {
    if Before(a.date, b.date) || (a.date == b.date && ClockBefore(a, b)) {
      LaterStamp(a, b);
    } else if Before(b.date, a.date) || (b.date == a.date && ClockBefore(b, a)) {
      LaterStamp(b, a);
    }
  }

  /** A real stamp is in the years a stem has room for. */
  lemma StampInRange(a: Stamp)
    requires IsStamp(a)
    ensures 0 <= Instant(a) < LAST_DAY * 86_400
  {
    YearsAscend(0, a.date.year);
    YearsAscend(a.date.year + 1, 10000);
    YearsFollow(a.date.year);
    assert YearStart(0) == 0 && YearStart(10000) == LAST_DAY;
    assert Day(a.date) < YearStart(a.date.year + 1);
  }

  /** A stamp is what its own instant reads as. */
  lemma StampOfItself(a: Stamp, ms: int)
    requires IsStamp(a) && ms == (Instant(a) - EPOCH_DAY * 86_400) * 1000
    ensures InRange(ms) && StampOf(ms) == a
  {
    StampInRange(a);
    DivIs(ms, 1000, Instant(a) - EPOCH_DAY * 86_400, 0);
    EqualInstants(StampOf(ms), a);
  }

  /** A stem is real exactly when it is the one its instant is written as. */
  lemma RealIsWritten(s: string)
    requires HasShape(s)
    ensures var ms := StemToMs(s).value; IsReal(s) <==> InRange(ms) && s == StemFor(ms)
  {
    var ms := StemToMs(s).value;
    RealIsStamp(s);
    if IsReal(s) {
      FieldsRender(s);
      StampReadsBack(StampIn(s), Instant(StampIn(s)));
      StampOfItself(StampIn(s), ms);
    } else if InRange(ms) && s == StemFor(ms) {
      WrittenIsReal(ms);
    }
  }

  lemma WrittenIsReal(ms: int)
    requires InRange(ms)
    ensures HasShape(StemFor(ms)) && IsStamp(StampIn(StemFor(ms)))
  {
    var a := StampOf(ms);
    RenderReads(a);
    Hundreds(a.date.year);
    assert StampIn(Render(a)) == a;
  }

  /** A stem sorts among the stems of instants exactly as an instant does. */
  ghost predicate SortsByTime(s: string, ms: int) {
    forall t :: InRange(t) ==>
      && (Less(s, StemFor(t)) <==> SecondOf(ms) < SecondOf(t))
      && (Less(StemFor(t), s) <==> SecondOf(t) < SecondOf(ms))
  }

  /** The first and the last instant a stem has room for. */
  const FIRST_MS := -EPOCH_DAY * 86_400 * 1000
  const LAST_MS := ((LAST_DAY - EPOCH_DAY) * 86_400 - 1) * 1000

  const LAST_STEM := "9999-12-31T235959"

  /** What an instant is written as, by its fields. */
  lemma WrittenAs(s: string, a: Stamp, ms: int)
    requires HasShape(s) && StampIn(s) == a && IsStamp(a) && ms == (Instant(a) - EPOCH_DAY * 86_400) * 1000
    ensures InRange(ms) && StemFor(ms) == s
  {
    FieldsRender(s);
    StampOfItself(a, ms);
  }

  lemma LastFields()
    ensures HasShape(LAST_STEM) && StampIn(LAST_STEM) == Stamp(Date(9999, 12, 31), 23, 59, 59)
  {
  }

  lemma LastStem(ms: int)
    requires ms == LAST_MS
    ensures InRange(ms) && StemFor(ms) == LAST_STEM
  {
    LastFields();
    assert Day(Date(9999, 12, 31)) == LAST_DAY - 1;
    WrittenAs(LAST_STEM, Stamp(Date(9999, 12, 31), 23, 59, 59), ms);
  }

  lemma SortsInRange(s: string, ms: int)
    requires InRange(ms)
    ensures SortsByTime(s, ms) <==> s == StemFor(ms)
  {
    if s == StemFor(ms) {
      forall t | InRange(t)
        ensures Less(s, StemFor(t)) <==> SecondOf(ms) < SecondOf(t)
        ensures Less(StemFor(t), s) <==> SecondOf(t) < SecondOf(ms)
      {
        StemOrderIsTimeOrder(ms, t);
        StemOrderIsTimeOrder(t, ms);
      }
    }
    LessIsTotal(s, StemFor(ms));
  }

  /** An instant past every one a stem has room for. */
  lemma SortsAfterAll(s: string, ms: int, last: int)
    requires InRange(last) && SecondOf(ms) > SecondOf(last) && forall t :: InRange(t) ==> SecondOf(t) <= SecondOf(last)
    ensures SortsByTime(s, ms) <==> Less(StemFor(last), s)
  {
    if Less(StemFor(last), s) {
      forall t | InRange(t)
        ensures !Less(s, StemFor(t)) && Less(StemFor(t), s)
      {
        StemOrderIsTimeOrder(t, last);
        LessIsTransitive(StemFor(t), StemFor(last), s);
        LessIsTotal(s, StemFor(t));
      }
    }
  }

  lemma SortsBeforeAll(s: string, ms: int, first: int)
    requires InRange(first) && SecondOf(ms) < SecondOf(first) && forall t :: InRange(t) ==> SecondOf(first) <= SecondOf(t)
    ensures SortsByTime(s, ms) <==> Less(s, StemFor(first))
  {
    if Less(s, StemFor(first)) {
      forall t | InRange(t)
        ensures Less(s, StemFor(t)) && !Less(StemFor(t), s)
      {
        StemOrderIsTimeOrder(first, t);
        LessIsTransitive(s, StemFor(first), StemFor(t));
        LessIsTotal(s, StemFor(t));
      }
    }
  }

  /**
   Of the stems that can be read, those whose instant is in the years 0000 to
   9999 sort by it exactly when their fields are a real date and time. One whose
   fields carry over past the year 9999, as a thirteenth month of it does, sorts
   by its time exactly when it comes after every stem of an instant, and one
   that carries back before the year 0000 exactly when it comes before them all.
   */
  lemma SortsByTimeExactlyWhen(s: string)
    requires HasShape(s)
    ensures InRange(FIRST_MS)
    ensures var ms := StemToMs(s).value;
            SortsByTime(s, ms) <==>
            if InRange(ms) then IsReal(s)
            else if ms > LAST_MS then Less(LAST_STEM, s)
            else Less(s, StemFor(FIRST_MS))
  {
    var ms, first, last := StemToMs(s).value, FIRST_MS, LAST_MS;
    LastStem(last);
    RealIsWritten(s);
    WholeSeconds(ms, s);
    RangeEnds(first, last);
    if InRange(ms) {
      SortsInRange(s, ms);
    } else if ms > LAST_MS {
      SortsAfterAll(s, ms, last);
    } else {
      SortsBeforeAll(s, ms, first);
    }
  }

  lemma RangeEnds(first: int, last: int)
    requires first == FIRST_MS && last == LAST_MS
    ensures forall t :: InRange(t) ==> SecondOf(first) <= SecondOf(t) <= SecondOf(last)
  {
  }

  /** A stem stands for a whole second, in the range, past it or before it. */
  lemma WholeSeconds(ms: int, s: string)
    requires StemToMs(s) == Some(ms)
    ensures !InRange(ms) && ms > LAST_MS ==> SecondOf(ms) > SecondOf(LAST_MS)
    ensures !InRange(ms) && ms <= LAST_MS ==> SecondOf(ms) < SecondOf(FIRST_MS)
  {
    var stamp := StampIn(s);
    var day := DayNumber(stamp.date.year, stamp.date.month, stamp.date.day);
    DivIs(ms, 1000, (day - EPOCH_DAY) * 86_400 + stamp.hour * 3600 + stamp.minute * 60 + stamp.second, 0);
  }
}
