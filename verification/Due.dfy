/** When a router's backup is due. */
module Due {
  import opened Wrappers
  import opened Digits

  const HOURLY := 3_600_000
  const DAILY := 86_400_000
  const WEEKLY := 604_800_000
  const MONTHLY := 2_592_000_000

  function Interval(schedule: string): int {
    if schedule == "hourly" then HOURLY
    else if schedule == "daily" then DAILY
    else if schedule == "weekly" then WEEKLY
    else if schedule == "monthly" then MONTHLY
    else 0
  }

  const DEFAULT_TIME := "08:00"

  /** `time` absent takes the default; present and empty means any time. */
  datatype Backup = Backup(enabled: bool, schedule: string, time: Option<string>)

  predicate IsBlank(c: char) {
    c == ' ' || '\t' <= c <= '\r'
  }

  function TrimLeft(s: string): string {
    if s != [] && IsBlank(s[0]) then TrimLeft(s[1..]) else s
  }

  function TrimRight(s: string): string {
    if s != [] && IsBlank(s[|s| - 1]) then TrimRight(s[..|s| - 1]) else s
  }

  function ClockDigit(c: char): int {
    if '0' <= c <= '9' then c as int - '0' as int else -1
  }

  /** Minutes past local midnight, or -1 when no time is set. */
  function TimeMinutes(t: string): (m: int)
    ensures -1 <= m < 1440
  {
    var s := TrimRight(TrimLeft(t));
    if |s| != 5 || s[2] != ':' then -1
    else
      var h1, h2, m1, m2 := ClockDigit(s[0]), ClockDigit(s[1]), ClockDigit(s[3]), ClockDigit(s[4]);
      if h1 < 0 || h2 < 0 || m1 < 0 || m2 < 0 || h1 * 10 + h2 > 23 || m1 > 5 then -1
      else (h1 * 10 + h2) * 60 + m1 * 10 + m2
  }

  ghost predicate AllBlank(s: string) {
    forall i :: 0 <= i < |s| ==> IsBlank(s[i])
  }

  /** This time of day in two digits each, a colon between, with blanks around at most. */
  ghost predicate IsTimeText(t: string, hour: int, minute: int) {
    && 0 <= hour < 24 && 0 <= minute < 60
    && exists left, right :: AllBlank(left) && AllBlank(right) && t == left + (Two(hour) + (":" + Two(minute))) + right
  }

  lemma {:induction false} TrimLeftIs(left: string, s: string)
    requires AllBlank(left) && (s == [] || !IsBlank(s[0]))
    ensures TrimLeft(left + s) == s
  {
    if left == [] {
      assert left + s == s;
    } else {
      assert (left + s)[1..] == left[1..] + s;
      TrimLeftIs(left[1..], s);
    }
  }

  lemma {:induction false} TrimRightIs(s: string, right: string)
    requires AllBlank(right) && (s == [] || !IsBlank(s[|s| - 1]))
    ensures TrimRight(s + right) == s
  {
    if right == [] {
      assert s + right == s;
    } else {
      var front := right[..|right| - 1];
      assert (s + right)[..|s + right| - 1] == s + front;
      TrimRightIs(s, front);
    }
  }

  lemma {:induction false} TrimLeftLeaves(s: string) returns (left: string)
    ensures AllBlank(left) && s == left + TrimLeft(s)
  {
    left := [];
    if s != [] && IsBlank(s[0]) {
      var more := TrimLeftLeaves(s[1..]);
      left := [s[0]] + more;
    }
  }

  lemma {:induction false} TrimRightLeaves(s: string) returns (right: string)
    ensures AllBlank(right) && s == TrimRight(s) + right
  {
    right := [];
    if s != [] && IsBlank(s[|s| - 1]) {
      var more := TrimRightLeaves(s[..|s| - 1]);
      right := more + [s[|s| - 1]];
    }
  }

  lemma ClockReads(hour: int, minute: int)
    requires 0 <= hour < 24 && 0 <= minute < 60
    ensures var s := Two(hour) + (":" + Two(minute));
            && |s| == 5 && s[2] == ':' && !IsBlank(s[0]) && !IsBlank(s[4])
            && ClockDigit(s[0]) == hour / 10 && ClockDigit(s[1]) == hour % 10
            && ClockDigit(s[3]) == minute / 10 && ClockDigit(s[4]) == minute % 10
  {
    TwoReads(hour);
    TwoReads(minute);
  }

  lemma TimeTextReads(left: string, clock: string, right: string, hour: int, minute: int)
    requires AllBlank(left) && AllBlank(right) && 0 <= hour < 24 && 0 <= minute < 60
    requires clock == Two(hour) + (":" + Two(minute))
    ensures TimeMinutes(left + clock + right) == 60 * hour + minute
  {
    ClockReads(hour, minute);
    assert left + clock + right == left + (clock + right);
    TrimLeftIs(left, clock + right);
    TrimRightIs(clock, right);
  }

  lemma ReadIsTimeText(t: string, hour: int, minute: int)
    requires 0 <= hour < 24 && 0 <= minute < 60 && TimeMinutes(t) == 60 * hour + minute
    ensures IsTimeText(t, hour, minute)
  {
    var left := TrimLeftLeaves(t);
    var right := TrimRightLeaves(TrimLeft(t));
    var s := TrimRight(TrimLeft(t));
    ClockIsWritten(s, hour, minute);
    assert t == left + s + right;
  }

  /** A time of day is read as the minutes since midnight, and nothing else is read as a time. */
  lemma TimeMinutesReads(t: string, hour: int, minute: int)
    requires 0 <= hour < 24 && 0 <= minute < 60
    ensures TimeMinutes(t) == 60 * hour + minute <==> IsTimeText(t, hour, minute)
  {
    if TimeMinutes(t) == 60 * hour + minute {
      ReadIsTimeText(t, hour, minute);
    }
    if IsTimeText(t, hour, minute) {
      var left, right :| AllBlank(left) && AllBlank(right) && t == left + (Two(hour) + (":" + Two(minute))) + right;
      TimeTextReads(left, Two(hour) + (":" + Two(minute)), right, hour, minute);
    }
  }

  lemma ClockIsWritten(s: string, hour: int, minute: int)
    requires |s| == 5 && s[2] == ':' && IsDigit(s[0]) && IsDigit(s[1]) && IsDigit(s[3]) && IsDigit(s[4])
    requires 0 <= hour < 24 && 0 <= minute < 60 && Value2(s, 0) * 60 + Value2(s, 3) == 60 * hour + minute && Value2(s, 3) < 60
    ensures s == Two(hour) + (":" + Two(minute))
  {
    ValueIsWritten(s, 0);
    ValueIsWritten(s, 3);
    assert Value2(s, 0) == hour && Value2(s, 3) == minute;
    assert s == [s[0], s[1]] + (":" + [s[3], s[4]]);
  }

  /** A time zone: the local day an instant falls in, and the instant of a time of day on a day. */
  datatype Zone = Zone(day: int -> int, at: (int, int) -> int)

  /** Days follow each other, and a time of day falls in its day. */
  ghost predicate IsZone(z: Zone) {
    && (forall t, u :: t <= u ==> z.day(t) <= z.day(u))
    && (forall d, m :: 0 <= m < 1440 ==> z.day(z.at(d, m)) == d)
  }

  function TodayAt(z: Zone, minutes: int, now: int): int {
    z.at(z.day(now), minutes)
  }

  function Anchor(b: Backup): int {
    TimeMinutes(if b.time.Some? then b.time.value else DEFAULT_TIME)
  }

  predicate IsAnchored(b: Backup) {
    Anchor(b) >= 0 && b.schedule != "hourly"
  }

  predicate IsDue(b: Option<Backup>, lastRun: int, now: int, z: Zone) {
    if b.None? || !b.value.enabled then false
    else if Interval(b.value.schedule) == 0 then false
    else if lastRun == 0 then true
    else if !(IsAnchored(b.value) && b.value.schedule == "daily") && now - lastRun < Interval(b.value.schedule) then false
    else if !IsAnchored(b.value) then true
    else
      var target := TodayAt(z, Anchor(b.value), now);
      now >= target && lastRun < target
  }

  /** The chosen time of day: the one stored, and eight in the morning where none ever was. */
  ghost predicate IsAt(b: Backup, hour: int, minute: int) {
    match b.time
    case None => hour == 8 && minute == 0
    case Some(t) => IsTimeText(t, hour, minute)
  }

  /** No time of day is chosen. */
  ghost predicate IsTimeless(b: Backup) {
    b.time.Some? && forall hour, minute :: !IsTimeText(b.time.value, hour, minute)
  }

  lemma AnchorIs(b: Backup, hour: int, minute: int)
    requires 0 <= hour < 24 && 0 <= minute < 60
    ensures Anchor(b) == 60 * hour + minute <==> IsAt(b, hour, minute)
  {
    if b.time.Some? {
      TimeMinutesReads(b.time.value, hour, minute);
    }
  }

  lemma NoAnchor(b: Backup)
    ensures Anchor(b) < 0 <==> IsTimeless(b)
  {
    if b.time.Some? {
      var m := Anchor(b);
      if m >= 0 {
        TimeMinutesReads(b.time.value, m / 60, m % 60);
      }
      forall hour, minute | IsTimeText(b.time.value, hour, minute)
        ensures m >= 0
      {
        TimeMinutesReads(b.time.value, hour, minute);
      }
    }
  }

  ghost predicate IsDaily(b: Backup) {
    b.enabled && b.schedule == "daily" && Anchor(b) >= 0
  }

  /** Once a router has been backed up, its daily backup is due exactly past today's time with nothing since it. */
  lemma DailyIsDueWhen(b: Backup, last: int, now: int, z: Zone)
    requires IsDaily(b) && last != 0
    ensures var target := TodayAt(z, Anchor(b), now);
            IsDue(Some(b), last, now, z) <==> now >= target && last < target
  {
  }

  /** A zone with no offset and no daylight saving. */
  function Plain(): Zone {
    Zone(t => t / DAILY, (d, m) => d * DAILY + m * 60_000)
  }

  lemma PlainIsAZone()
    ensures IsZone(Plain())
  {
    forall d, m | 0 <= m < 1440
      ensures Plain().day(Plain().at(d, m)) == d
    {
      assert (d * DAILY + m * 60_000) / DAILY == d;
    }
    forall t: int, u: int | t <= u
      ensures Plain().day(t) <= Plain().day(u)
    {
      assert t / DAILY <= u / DAILY;
    }
  }
}
