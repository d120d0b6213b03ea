/**
 Which days a router's backups start on, over any history of the scheduler:
 any ticks, and runs that may be recorded and released at any time after they
 started, however many ticks later.
 */
module BackupDays {
  import opened Wrappers
  import opened Due
  import opened Scheduler

  /** The tick an event belongs to: the latest one begun before it. */
  ghost function TickOf(events: seq<Event>, i: nat): (t: int)
    requires i <= |events|
    ensures -1 <= t < i && (t >= 0 ==> events[t].Ticked?)
    ensures forall k :: t < k < i ==> !events[k].Ticked?
  {
    if i == 0 then -1 else if events[i - 1].Ticked? then i - 1 else TickOf(events, i - 1)
  }

  ghost predicate InTimeOrder(events: seq<Event>) {
    forall i, j :: 0 <= i < j < |events| && events[i].Ticked? && events[j].Ticked? ==> events[i].now <= events[j].now
  }

  /** The router has this schedule throughout: every tick lists it exactly when it is due by what is on record. */
  ghost predicate ListedWhenDue(events: seq<Event>, z: Zone, id: string, b: Backup) {
    forall k :: 0 <= k < |events| && events[k].Ticked? ==>
      (id in events[k].due <==> IsDue(Some(b), LastRecord(events[..k], id), events[k].now, z))
  }

  /** A history of one router on one schedule. */
  ghost predicate IsHistory(events: seq<Event>, z: Zone, id: string, b: Backup) {
    Orderly(events) && InTimeOrder(events) && ListedWhenDue(events, z, id, b)
  }

  /** A tick of a fleet in which the router has this schedule goes on such a history. */
  lemma TickListsWhenDue(fleet: seq<Router>, i: nat, before: seq<Event>, now: int, z: Zone, b: Backup, due: set<string>)
    requires DistinctIds(fleet) && i < |fleet| && !fleet[i].disabled && fleet[i].backup == Some(b)
    requires forall id :: id in due <==> IsDueId(fleet, before, now, z, id)
    ensures fleet[i].id in due <==> IsDue(Some(b), LastRecord(before, fleet[i].id), now, z)
  {
  }

  /** The fleet holds the router, in service and on this schedule. */
  ghost predicate Schedules(fleet: seq<Router>, id: string, b: Backup) {
    && DistinctIds(fleet)
    && exists i :: 0 <= i < |fleet| && fleet[i].id == id && !fleet[i].disabled && fleet[i].backup == Some(b)
  }

  ghost predicate NoLaterTick(events: seq<Event>, now: int) {
    forall k :: 0 <= k < |events| && events[k].Ticked? ==> events[k].now <= now
  }

  /** More of a history in which at most its first new event is a tick. */
  lemma HistoryGoesOn(before: seq<Event>, events: seq<Event>, z: Zone, id: string, b: Backup, now: int)
    requires IsHistory(before, z, id, b) && NoLaterTick(before, now)
    requires before <= events && Orderly(events) && forall k :: |before| < k < |events| ==> !events[k].Ticked?
    requires |before| < |events| && events[|before|].Ticked? ==>
               && events[|before|].now == now
               && (id in events[|before|].due <==> IsDue(Some(b), LastRecord(before, id), now, z))
    ensures IsHistory(events, z, id, b) && NoLaterTick(events, now)
  {
    assert forall k :: 0 <= k < |before| ==> events[k] == before[k];
    forall k | 0 <= k < |events| && events[k].Ticked?
      ensures id in events[k].due <==> IsDue(Some(b), LastRecord(events[..k], id), events[k].now, z)
    {
      if k < |before| {
        assert events[..k] == before[..k];
      } else {
        assert events[..k] == before;
      }
    }
  }

  /** One tick of the scheduler goes on a history of each router the fleet schedules. */
  method TickInHistory(s: Scheduler, fleet: seq<Router>, now: int, z: Zone, ghost id: string, ghost b: Backup)
    requires s.Valid() && Schedules(fleet, id, b)
    requires IsHistory(s.events, z, id, b) && NoLaterTick(s.events, now)
    modifies s
    ensures s.Valid() && old(s.events) <= s.events
    ensures IsHistory(s.events, z, id, b) && NoLaterTick(s.events, now)
  {
    ghost var before := s.events;
    s.Tick(fleet, now, z);
    ghost var i :| 0 <= i < |fleet| && fleet[i].id == id && !fleet[i].disabled && fleet[i].backup == Some(b);
    TickListsWhenDue(fleet, i, before, now, z, b, s.events[|before|].due);
    HistoryGoesOn(before, s.events, z, id, b, now);
  }

  /** A tick to come: its instant, and the fleet as it is then. */
  datatype Turn = Turn(now: int, fleet: seq<Router>)

  /** Ticks in the order of the clock, each of a fleet that schedules the router. */
  ghost predicate AreTurns(turns: seq<Turn>, id: string, b: Backup) {
    && (forall i :: 0 <= i < |turns| ==> Schedules(turns[i].fleet, id, b))
    && (forall i, j :: 0 <= i < j < |turns| ==> turns[i].now <= turns[j].now)
  }

  /**
   From a new scheduler, through any ticks, and whatever is recorded and
   released during them and in between: what has happened is such a history,
   and every tick of it is over.
   */
  method RunScheduler(turns: seq<Turn>, z: Zone, ghost id: string, ghost b: Backup) returns (s: Scheduler)
    requires AreTurns(turns, id, b)
    ensures fresh(s) && s.Valid() && IsHistory(s.events, z, id, b) && Pending(s.events) == {}
  {
    s := new Scheduler();
    for i := 0 to |turns|
      invariant fresh(s) && s.Valid() && IsHistory(s.events, z, id, b)
      invariant forall j :: i <= j < |turns| ==> NoLaterTick(s.events, turns[j].now)
    {
      ghost var before := s.events;
      s.Meanwhile();
      HistoryGoesOn(before, s.events, z, id, b, turns[i].now);
      TickInHistory(s, turns[i].fleet, turns[i].now, z, id, b);
    }
  }

  // ---- Starts and the ticks they belong to ----------------------------------

  /** What waits to be come to was listed by the tick under way. */
  lemma {:induction false} PendingIsListed(events: seq<Event>, i: nat, id: string)
    requires i <= |events| && id in Pending(events[..i])
    ensures TickOf(events, i) >= 0 && id in events[TickOf(events, i)].due
  {
    assert i > 0;
    assert events[..i][..i - 1] == events[..i - 1] && events[..i][i - 1] == events[i - 1];
    if !events[i - 1].Ticked? {
      PendingIsListed(events, i - 1, id);
    }
  }

  lemma StartIsListed(events: seq<Event>, i: nat, id: string)
    requires Orderly(events) && i < |events| && events[i] == Started(id)
    ensures TickOf(events, i) >= 0 && id in events[TickOf(events, i)].due
  {
    OrderlyAt(events, i);
    PendingIsListed(events, i, id);
  }

  /** A router come to is not come to again in the same tick. */
  lemma {:induction false} NotPendingAgain(events: seq<Event>, i: nat, j: nat, id: string)
    requires i < j <= |events| && events[i] == Started(id) && NoTick(events, i, j)
    ensures id !in Pending(events[..j])
  {
    assert events[..j][..j - 1] == events[..j - 1] && events[..j][j - 1] == events[j - 1];
    if i < j - 1 {
      NotPendingAgain(events, i, j - 1, id);
    }
  }

  lemma LaterTick(events: seq<Event>, i: nat, j: nat, id: string)
    requires Orderly(events) && i < j < |events| && events[i] == Started(id) && events[j] == Started(id)
    ensures TickOf(events, i) < i < TickOf(events, j)
  {
    if TickOf(events, j) < i {
      OrderlyAt(events, j);
      NotPendingAgain(events, i, j, id);
    }
  }

  // ---- What is on record ----------------------------------------------------

  lemma {:induction false} RecordsOnlyGrow(events: seq<Event>, i: nat, j: nat, id: string)
    requires i <= j <= |events|
    ensures 0 <= LastRecord(events[..i], id) <= LastRecord(events[..j], id)
    decreases j
  {
    if j > 0 {
      assert events[..j][..j - 1] == events[..j - 1];
      RecordsOnlyGrow(events, if i < j then i else j - 1, j - 1, id);
    }
  }

  lemma RecordCounts(events: seq<Event>, k: nat, j: nat, id: string, at: int)
    requires k < j <= |events| && events[k] == Recorded(id, at)
    ensures at <= LastRecord(events[..j], id)
  {
    RecordsOnlyGrow(events, k + 1, j, id);
    assert events[..k + 1][..k] == events[..k];
  }

  /** What is on record is before an instant exactly when every record is. */
  lemma {:induction false} AllBefore(events: seq<Event>, j: nat, id: string, target: int)
    requires j <= |events| && 0 < target
    ensures LastRecord(events[..j], id) < target <==>
            forall k :: 0 <= k < j && events[k].Recorded? && events[k].id == id ==> events[k].at < target
  {
    if j > 0 {
      assert events[..j][..j - 1] == events[..j - 1];
      AllBefore(events, j - 1, id, target);
    }
  }

  /** The record of the run started at `i`: no earlier than the tick that started it. */
  ghost predicate IsRecordOf(events: seq<Event>, i: nat, k: nat)
    requires i < |events| && events[i].Started?
  {
    && i < k < |events| && TickOf(events, i) >= 0
    && events[k].Recorded? && events[k].id == events[i].id && events[k].at >= events[TickOf(events, i)].now
  }

  /** The run started at `i` goes on record before it is released. */
  ghost predicate RecordedFirst(events: seq<Event>, i: nat)
    requires i < |events| && events[i].Started?
  {
    forall r :: i < r < |events| && events[r] == Released(events[i].id) ==>
      exists k: nat :: k < r && IsRecordOf(events, i, k)
  }

  /** So a run that is not in flight any more is on record. */
  lemma FreeIsRecorded(events: seq<Event>, i: nat, j: nat)
    requires i < j <= |events| && events[i].Started? && RecordedFirst(events, i)
    requires !InFlight(events[..j], events[i].id)
    ensures exists k: nat :: k < j && IsRecordOf(events, i, k)
  {
    var id := events[i].id;
    if forall r :: i < r < j ==> events[r] != Released(id) {
      StaysInFlight(events, i, j, id);
    }
    var r :| i < r < j && events[r] == Released(id);
    var k: nat :| k < r && IsRecordOf(events, i, k);
  }

  // ---- One start per day ----------------------------------------------------

  /** The instant of the tick a start belongs to. */
  ghost function StartedAt(events: seq<Event>, i: nat): int
    requires i < |events| && TickOf(events, i) >= 0
  {
    events[TickOf(events, i)].now
  }

  /** A start after the router's first recorded run; the first-ever run is due at any time of day. */
  ghost predicate IsLaterStart(events: seq<Event>, id: string, i: nat) {
    && i < |events| && events[i] == Started(id) && TickOf(events, i) >= 0
    && LastRecord(events[..TickOf(events, i)], id) > 0
  }

  /** A daily start comes at or after that day's time. */
  lemma StartIsPastTime(events: seq<Event>, z: Zone, id: string, b: Backup, i: nat)
    requires IsHistory(events, z, id, b) && IsDaily(b) && IsLaterStart(events, id, i)
    ensures var now := StartedAt(events, i);
            LastRecord(events[..TickOf(events, i)], id) < TodayAt(z, Anchor(b), now) <= now
  {
    StartIsListed(events, i, id);
    DailyIsDueWhen(b, LastRecord(events[..TickOf(events, i)], id), StartedAt(events, i), z);
  }

  /** A record no earlier than a start makes the router not due for the rest of that day. */
  lemma NotDueThatDay(z: Zone, b: Backup, started: int, now: int, last: int)
    requires IsDaily(b) && last > 0 && TodayAt(z, Anchor(b), started) <= started <= last
    requires z.day(started) == z.day(now)
    ensures !IsDue(Some(b), last, now, z)
  {
  }

  lemma DaysInOrder(events: seq<Event>, z: Zone, id: string, i: nat, j: nat)
    requires Orderly(events) && InTimeOrder(events) && IsZone(z)
    requires i < j && IsLaterStart(events, id, i) && j < |events| && events[j] == Started(id)
    ensures TickOf(events, i) < i < TickOf(events, j) && IsLaterStart(events, id, j)
    ensures z.day(StartedAt(events, i)) <= z.day(StartedAt(events, j))
  {
    LaterTick(events, i, j, id);
    RecordsOnlyGrow(events, TickOf(events, i), TickOf(events, j), id);
  }

  /** On record at some point after its start, a run's router is not due for the rest of that day. */
  lemma RecordedIsNotDue(events: seq<Event>, z: Zone, id: string, b: Backup, i: nat, k: nat, upto: nat, now: int)
    requires IsHistory(events, z, id, b) && IsDaily(b) && IsLaterStart(events, id, i)
    requires k < upto <= |events| && IsRecordOf(events, i, k) && z.day(StartedAt(events, i)) == z.day(now)
    ensures !IsDue(Some(b), LastRecord(events[..upto], id), now, z)
  {
    StartIsPastTime(events, z, id, b, i);
    RecordCounts(events, k, upto, id, events[k].at);
    RecordsOnlyGrow(events, TickOf(events, i), upto, id);
    NotDueThatDay(z, b, StartedAt(events, i), now, LastRecord(events[..upto], id));
  }

  /**
   Two starts of a router on an anchored daily schedule are on different local
   days if the router was free when the tick that made the second one began.
   */
  lemma OncePerDayWhenFree(events: seq<Event>, z: Zone, id: string, b: Backup, i: nat, j: nat)
    requires IsHistory(events, z, id, b) && IsDaily(b) && IsZone(z)
    requires i < j && IsLaterStart(events, id, i) && j < |events| && events[j] == Started(id) && RecordedFirst(events, i)
    requires TickOf(events, j) >= 0 && !InFlight(events[..TickOf(events, j)], id)
    ensures z.day(StartedAt(events, i)) < z.day(StartedAt(events, j))
  {
    DaysInOrder(events, z, id, i, j);
    var t := TickOf(events, j);
    FreeIsRecorded(events, i, t);
    var k: nat :| k < t && IsRecordOf(events, i, k);
    if z.day(StartedAt(events, i)) == z.day(StartedAt(events, j)) {
      StartIsListed(events, j, id);
      RecordedIsNotDue(events, z, id, b, i, k, t, StartedAt(events, j));
    }
  }

  /** And also if it was still due by what was on record when it was claimed. */
  lemma OncePerDayWhenStillDue(events: seq<Event>, z: Zone, id: string, b: Backup, i: nat, j: nat)
    requires IsHistory(events, z, id, b) && IsDaily(b) && IsZone(z)
    requires i < j && IsLaterStart(events, id, i) && j < |events| && events[j] == Started(id) && RecordedFirst(events, i)
    requires TickOf(events, j) >= 0 && IsDue(Some(b), LastRecord(events[..j], id), StartedAt(events, j), z)
    ensures z.day(StartedAt(events, i)) < z.day(StartedAt(events, j))
  {
    DaysInOrder(events, z, id, i, j);
    OrderlyAt(events, j);
    FreeIsRecorded(events, i, j);
    var k: nat :| k < j && IsRecordOf(events, i, k);
    if z.day(StartedAt(events, i)) == z.day(StartedAt(events, j)) {
      RecordedIsNotDue(events, z, id, b, i, k, j, StartedAt(events, j));
    }
  }

  ghost predicate OnePerDay(events: seq<Event>, z: Zone, id: string) {
    forall i, j :: 0 <= i < j && IsLaterStart(events, id, i) && IsLaterStart(events, id, j) ==>
      z.day(StartedAt(events, i)) < z.day(StartedAt(events, j))
  }

  /** The router's latest start before `t`, whose run nothing has released by then. */
  ghost predicate IsUnreleased(events: seq<Event>, id: string, t: nat, i: nat) {
    && i < t <= |events| && events[i] == Started(id)
    && (forall k :: i < k < t ==> events[k] != Released(id) && events[k] != Started(id))
  }

  lemma {:induction false} LatestStart(events: seq<Event>, id: string, t: nat) returns (i: nat)
    requires t <= |events| && InFlight(events[..t], id)
    ensures IsUnreleased(events, id, t, i)
  {
    assert events[..t][..t - 1] == events[..t - 1] && events[..t][t - 1] == events[t - 1];
    if events[t - 1] == Started(id) {
      i := t - 1;
    } else {
      i := LatestStart(events, id, t - 1);
    }
  }

  /** The router's run that is in flight at a tick began on the local day of that tick. */
  ghost predicate IsStillAtIt(events: seq<Event>, z: Zone, id: string, t: nat)
    requires t < |events| && events[t].Ticked?
  {
    exists i: nat :: IsUnreleased(events, id, t, i) && IsLaterStart(events, id, i)
                     && z.day(StartedAt(events, i)) == z.day(events[t].now)
  }

  /** A run of the tick's own day, in flight when the tick began, is released while the tick has its router on the list. */
  ghost predicate LetGoWhileListed(events: seq<Event>, z: Zone, id: string, t: int, r: int) {
    && 0 <= t < r < |events| && events[t].Ticked? && NoTick(events, t + 1, r)
    && events[r] == Released(id) && id in Pending(events[..r])
    && IsStillAtIt(events, z, id, t)
  }

  /** A listed router is come to before the next tick, and nothing of it starts until then. */
  lemma {:induction false} ComesToIt(events: seq<Event>, id: string, r: nat) returns (s: nat)
    requires Orderly(events) && r <= |events| && id in Pending(events[..r]) && id !in Pending(events)
    ensures r <= s < |events| && (events[s] == Started(id) || events[s] == Skipped(id)) && NoTick(events, r, s + 1)
    ensures forall k :: r <= k < s ==> events[k] != Started(id)
    decreases |events| - r
  {
    assert events[..|events|] == events;
    assert events[..r + 1][..r] == events[..r] && events[..r + 1][r] == events[r];
    OrderlyAt(events, r);
    if events[r] == Started(id) || events[r] == Skipped(id) {
      s := r;
    } else {
      s := ComesToIt(events, id, r + 1);
    }
  }

  /** What is on the list now has been on it since its tick began. */
  lemma {:induction false} StillPending(events: seq<Event>, id: string, k: nat, j: nat)
    requires k <= j <= |events| && NoTick(events, k, j) && id in Pending(events[..j])
    ensures id in Pending(events[..k])
    decreases j
  {
    if k < j {
      assert events[..j][..j - 1] == events[..j - 1] && events[..j][j - 1] == events[j - 1];
      StillPending(events, id, k, j - 1);
    }
  }

  lemma {:induction false} TickIs(events: seq<Event>, t: nat, s: nat)
    requires t < s <= |events| && events[t].Ticked? && NoTick(events, t + 1, s)
    ensures TickOf(events, s) == t
  {
  }

  /** Let go while it is listed, the router is started again that day. */
  lemma LetGoStartsAgain(events: seq<Event>, z: Zone, id: string, t: nat, r: nat) returns (i: nat, s: nat)
    requires Orderly(events) && InTimeOrder(events) && IsZone(z) && Pending(events) == {}
    requires LetGoWhileListed(events, z, id, t, r)
    ensures i < s && IsLaterStart(events, id, i) && IsLaterStart(events, id, s)
    ensures z.day(StartedAt(events, i)) == z.day(StartedAt(events, s))
  {
    i :| IsUnreleased(events, id, t, i) && IsLaterStart(events, id, i)
         && z.day(StartedAt(events, i)) == z.day(events[t].now);
    s := ComesToIt(events, id, r);
    assert events[..r + 1][..r] == events[..r];
    assert !InFlight(events[..r + 1], id);
    StaysFree(events, r + 1, s, id);
    OrderlyAt(events, s);
    TickIs(events, t, s);
    DaysInOrder(events, z, id, i, s);
  }

  /** A second start of a day is of a router let go while it was listed. */
  lemma SecondStartWasLetGo(events: seq<Event>, z: Zone, id: string, b: Backup, i: nat, j: nat) returns (t: nat, r: nat)
    requires IsHistory(events, z, id, b) && IsDaily(b) && IsZone(z) && AllRecordedFirst(events, id)
    requires i < j && IsLaterStart(events, id, i) && IsLaterStart(events, id, j)
    requires z.day(StartedAt(events, i)) == z.day(StartedAt(events, j))
    ensures LetGoWhileListed(events, z, id, t, r)
  {
    DaysInOrder(events, z, id, i, j);
    t := TickOf(events, j);
    if !InFlight(events[..t], id) {
      OncePerDayWhenFree(events, z, id, b, i, j);
    }
    var latest := LatestStart(events, id, t);
    if i < latest {
      DaysInOrder(events, z, id, i, latest);
    }
    DaysInOrder(events, z, id, latest, j);
    r := ReleasedBefore(events, id, latest, t, j);
    OrderlyAt(events, j);
    StillPending(events, id, r, j);
  }

  /** A run in flight at a tick and over when its router is started again was released in between. */
  lemma ReleasedBefore(events: seq<Event>, id: string, i: nat, t: nat, j: nat) returns (r: nat)
    requires Orderly(events) && IsUnreleased(events, id, t, i) && t < j < |events| && events[t].Ticked?
    requires events[j] == Started(id)
    ensures t < r < j && events[r] == Released(id)
  {
    OrderlyAt(events, j);
    if forall k :: i < k < j ==> events[k] != Released(id) {
      StaysInFlight(events, i, j, id);
    }
    r :| i < r < j && events[r] == Released(id);
  }

  /** Every run goes on record before it is released. */
  ghost predicate AllRecordedFirst(events: seq<Event>, id: string) {
    forall i :: 0 <= i < |events| && events[i] == Started(id) ==> RecordedFirst(events, i)
  }

  /**
   Over every history whose last tick is over, an anchored daily schedule starts
   at most one run per local day exactly when no run is released while a later
   tick of its own day has its router on the list.
   */
  lemma OnePerDayExactlyWhen(events: seq<Event>, z: Zone, id: string, b: Backup)
    requires IsHistory(events, z, id, b) && IsDaily(b) && IsZone(z) && Pending(events) == {}
    requires AllRecordedFirst(events, id)
    ensures OnePerDay(events, z, id) <==> forall t, r :: !LetGoWhileListed(events, z, id, t, r)
  {
    if OnePerDay(events, z, id) {
      forall t, r
        ensures !LetGoWhileListed(events, z, id, t, r)
      {
        if LetGoWhileListed(events, z, id, t, r) {
          var i, s := LetGoStartsAgain(events, z, id, t, r);
        }
      }
    }
    if forall t, r :: !LetGoWhileListed(events, z, id, t, r) {
      forall i, j | 0 <= i < j && IsLaterStart(events, id, i) && IsLaterStart(events, id, j)
        ensures z.day(StartedAt(events, i)) < z.day(StartedAt(events, j))
      {
        DaysInOrder(events, z, id, i, j);
        if z.day(StartedAt(events, i)) == z.day(StartedAt(events, j)) {
          var t, r := SecondStartWasLetGo(events, z, id, b, i, j);
        }
      }
    }
  }

  /** A queue that waits for the run: it is released before the next tick begins. */
  ghost predicate QueueWaits(events: seq<Event>, id: string) {
    forall i, t :: 0 <= i < t < |events| && events[i] == Started(id) && events[t].Ticked? ==>
      exists r :: i < r < t && events[r] == Released(id)
  }

  /** With such a queue every tick finds the router free, and there is at most one start per day. */
  lemma OnePerDayWhenQueueWaits(events: seq<Event>, z: Zone, id: string, b: Backup)
    requires IsHistory(events, z, id, b) && IsDaily(b) && IsZone(z)
    requires AllRecordedFirst(events, id) && QueueWaits(events, id)
    ensures OnePerDay(events, z, id)
  {
    forall i, j | 0 <= i < j && IsLaterStart(events, id, i) && IsLaterStart(events, id, j)
      ensures z.day(StartedAt(events, i)) < z.day(StartedAt(events, j))
    {
      FreeAtTick(events, id, TickOf(events, j));
      OncePerDayWhenFree(events, z, id, b, i, j);
    }
  }

  lemma FreeAtTick(events: seq<Event>, id: string, t: nat)
    requires QueueWaits(events, id) && t < |events| && events[t].Ticked?
    ensures !InFlight(events[..t], id)
  {
    if InFlight(events[..t], id) {
      var i := LatestStart(events, id, t);
    }
  }

  // ---- Catching up ----------------------------------------------------------

  lemma {:induction false} StaysFree(events: seq<Event>, t: nat, s: nat, id: string)
    requires t <= s <= |events| && !InFlight(events[..t], id)
    requires forall k :: t <= k < s ==> events[k] != Started(id)
    ensures !InFlight(events[..s], id)
    decreases s
  {
    if t < s {
      assert events[..s][..s - 1] == events[..s - 1];
      StaysFree(events, t, s - 1, id);
    }
  }

  /** Listed and no longer waiting: it was come to, and before that nothing of it started in this tick. */
  lemma {:induction false} ListedIsAttended(events: seq<Event>, t: nat, e: nat, id: string) returns (s: nat)
    requires t < e <= |events| && events[t].Ticked? && id in events[t].due && NoTick(events, t + 1, e)
    requires id !in Pending(events[..e])
    ensures t < s < e && (events[s] == Started(id) || events[s] == Skipped(id))
    ensures forall k :: t <= k < s ==> events[k] != Started(id)
    decreases e
  {
    assert events[..e][..e - 1] == events[..e - 1] && events[..e][e - 1] == events[e - 1];
    if e - 1 > t && id !in Pending(events[..e - 1]) {
      s := ListedIsAttended(events, t, e - 1, id);
    } else {
      s := e - 1;
      NothingYet(events, t, e - 1, id);
    }
  }

  lemma {:induction false} NothingYet(events: seq<Event>, t: nat, e: nat, id: string)
    requires t < e <= |events| && events[t].Ticked? && NoTick(events, t + 1, e) && id in Pending(events[..e])
    ensures forall k :: t <= k < e ==> events[k] != Started(id)
    decreases e
  {
    assert events[..e][..e - 1] == events[..e - 1] && events[..e][e - 1] == events[e - 1];
    if e - 1 > t {
      NothingYet(events, t, e - 1, id);
    }
  }

  ghost predicate StartsIn(events: seq<Event>, t: nat, e: nat, id: string)
    requires e <= |events|
  {
    exists s :: t < s < e && events[s] == Started(id)
  }

  /** A tick that finds the router free starts it exactly when it is due. */
  lemma FreeStartsWhenDue(events: seq<Event>, z: Zone, id: string, b: Backup, t: nat, e: nat)
    requires IsHistory(events, z, id, b) && t < e <= |events| && events[t].Ticked?
    requires NoTick(events, t + 1, e) && Pending(events[..e]) == {} && !InFlight(events[..t], id)
    ensures StartsIn(events, t, e, id) <==> IsDue(Some(b), LastRecord(events[..t], id), events[t].now, z)
  {
    if id in events[t].due {
      var s := ListedIsAttended(events, t, e, id);
      StaysFree(events, t, s, id);
      OrderlyAt(events, s);
    }
    if StartsIn(events, t, e, id) {
      var s :| t < s < e && events[s] == Started(id);
      StartIsListed(events, s, id);
      assert TickOf(events, s) == t;
    }
  }

  /** A tick, over by `e`, that finds the router free. */
  ghost predicate IsFreeTick(events: seq<Event>, id: string, t: nat, e: nat) {
    && t < e <= |events| && events[t].Ticked? && NoTick(events, t + 1, e) && Pending(events[..e]) == {}
    && !InFlight(events[..t], id)
  }

  /** No run of the router is on record. */
  ghost predicate NeverRecorded(events: seq<Event>, t: nat, id: string)
    requires t <= |events|
  {
    forall k :: 0 <= k < t && events[k].Recorded? && events[k].id == id ==> events[k].at <= 0
  }

  /** The latest of the records is from this instant. */
  ghost predicate IsLatest(events: seq<Event>, t: nat, id: string, last: int)
    requires t <= |events|
  {
    && last > 0 && (exists k :: 0 <= k < t && events[k] == Recorded(id, last))
    && (forall k :: 0 <= k < t && events[k].Recorded? && events[k].id == id ==> events[k].at <= last)
  }

  lemma LatestIs(events: seq<Event>, t: nat, id: string, last: int)
    requires t <= |events|
    ensures NeverRecorded(events, t, id) <==> LastRecord(events[..t], id) == 0
    ensures IsLatest(events, t, id, last) ==> LastRecord(events[..t], id) == last
  {
    AllBefore(events, t, id, 1);
    RecordsOnlyGrow(events, t, t, id);
    if IsLatest(events, t, id, last) {
      AllBefore(events, t, id, last);
      AllBefore(events, t, id, last + 1);
    }
  }

  /** A first backup is started by the first tick that finds its router free, at whatever time of day. */
  lemma FirstStartsAtOnce(events: seq<Event>, z: Zone, id: string, b: Backup, t: nat, e: nat)
    requires IsHistory(events, z, id, b) && IsFreeTick(events, id, t, e) && NeverRecorded(events, t, id)
    requires b.enabled && b.schedule in {"hourly", "daily", "weekly", "monthly"}
    ensures StartsIn(events, t, e, id)
  {
    LatestIs(events, t, id, 0);
    FreeStartsWhenDue(events, z, id, b, t, e);
  }

  ghost function Hours(schedule: string): int {
    if schedule == "hourly" then 1
    else if schedule == "daily" then 24
    else if schedule == "weekly" then 7 * 24
    else 30 * 24
  }

  /** The time between two backups has gone by. */
  ghost predicate HasPassed(b: Backup, last: int, now: int) {
    now - last >= Hours(b.schedule) * 60 * 60 * 1000
  }

  /** After that, an hourly one is started, and any other for which no time of day is chosen, exactly when its interval has gone by. */
  lemma IntervalStartsWhen(events: seq<Event>, z: Zone, id: string, b: Backup, t: nat, e: nat, last: int)
    requires IsHistory(events, z, id, b) && IsFreeTick(events, id, t, e) && IsLatest(events, t, id, last)
    requires b.enabled && b.schedule in {"hourly", "daily", "weekly", "monthly"} && (b.schedule == "hourly" || IsTimeless(b))
    ensures StartsIn(events, t, e, id) <==> HasPassed(b, last, events[t].now)
  {
    LatestIs(events, t, id, last);
    NoAnchor(b);
    FreeStartsWhenDue(events, z, id, b, t, e);
  }

  /**
   One with a time of day is started exactly past today's time with nothing on
   record since it; a weekly or a monthly one only once its interval has gone by
   as well.
   */
  lemma AnchoredStartsWhen(events: seq<Event>, z: Zone, id: string, b: Backup, t: nat, e: nat, last: int,
                           hour: int, minute: int)
    requires IsHistory(events, z, id, b) && IsFreeTick(events, id, t, e) && IsLatest(events, t, id, last)
    requires b.enabled && b.schedule in {"daily", "weekly", "monthly"} && IsAt(b, hour, minute)
    ensures var now := events[t].now;
            StartsIn(events, t, e, id) <==>
            && last < z.at(z.day(now), 60 * hour + minute) <= now
            && (b.schedule == "daily" || HasPassed(b, last, now))
  {
    LatestIs(events, t, id, last);
    AnchorIs(b, hour, minute);
    FreeStartsWhenDue(events, z, id, b, t, e);
  }

  /**
   A tick that finds the router free, with at least one run of it on record,
   starts one at or after the chosen time, however late the previous one was,
   exactly when every record is from before that time.
   */
  lemma CatchesUp(events: seq<Event>, z: Zone, id: string, b: Backup, t: nat, e: nat)
    requires IsHistory(events, z, id, b) && IsDaily(b) && t < e <= |events| && events[t].Ticked?
    requires NoTick(events, t + 1, e) && Pending(events[..e]) == {} && !InFlight(events[..t], id)
    requires LastRecord(events[..t], id) > 0
    ensures var target := TodayAt(z, Anchor(b), events[t].now);
            StartsIn(events, t, e, id) <==>
            && events[t].now >= target
            && (forall k :: 0 <= k < t && events[k].Recorded? && events[k].id == id ==> events[k].at < target)
  {
    var target := TodayAt(z, Anchor(b), events[t].now);
    FreeStartsWhenDue(events, z, id, b, t, e);
    DailyIsDueWhen(b, LastRecord(events[..t], id), events[t].now, z);
    if 0 < target {
      AllBefore(events, t, id, target);
    } else {
      SomeRecord(events, t, id);
    }
  }

  lemma {:induction false} SomeRecord(events: seq<Event>, j: nat, id: string)
    requires j <= |events| && LastRecord(events[..j], id) > 0
    ensures exists k :: 0 <= k < j && events[k].Recorded? && events[k].id == id && events[k].at > 0
  {
    assert events[..j][..j - 1] == events[..j - 1];
    if LastRecord(events[..j - 1], id) > 0 {
      SomeRecord(events, j - 1, id);
    } else {
      assert events[j - 1].Recorded?;
    }
  }

  /** Every other schedule leaves its interval between what was on record at a tick and a start that tick makes. */
  lemma IntervalIsKept(events: seq<Event>, z: Zone, id: string, b: Backup, k: nat, j: nat)
    requires IsHistory(events, z, id, b) && !(IsAnchored(b) && b.schedule == "daily")
    requires j < |events| && events[j] == Started(id) && TickOf(events, j) >= 0 && k < TickOf(events, j)
    requires events[k].Recorded? && events[k].id == id && events[k].at > 0
    ensures StartedAt(events, j) - events[k].at >= Interval(b.schedule)
  {
    StartIsListed(events, j, id);
    RecordCounts(events, k, TickOf(events, j), id, events[k].at);
  }

  // ---- Two histories in which a day is missed or gets two -------------------

  /** One more event of a history. */
  lemma {:induction false} HistoryGrows(events: seq<Event>, z: Zone, id: string, b: Backup, e: Event)
    requires IsHistory(events, z, id, b) && Fits(events, e) && (OwesReport(events) <==> e.Reported?)
    requires e.Ticked? ==>
               && (forall k :: 0 <= k < |events| && events[k].Ticked? ==> events[k].now <= e.now)
               && (id in e.due <==> IsDue(Some(b), LastRecord(events, id), e.now, z))
    ensures IsHistory(events + [e], z, id, b)
    ensures InFlight(events + [e], id) <==>
              if e == Started(id) then true else if e == Released(id) then false else InFlight(events, id)
    ensures LastRecord(events + [e], id) ==
              if e.Recorded? && e.id == id && e.at > LastRecord(events, id) then e.at else LastRecord(events, id)
    ensures Pending(events + [e]) == PendingAfter(Pending(events), e)
  {
    OrderlyGrows(events, e);
    OneMore(events, e);
    OneMoreRecord(events, e);
    var more := events + [e];
    assert more[..|events|] == events;
    forall k | 0 <= k < |more| && more[k].Ticked?
      ensures id in more[k].due <==> IsDue(Some(b), LastRecord(more[..k], id), more[k].now, z)
    {
      if k < |events| {
        assert more[..k] == events[..k];
      }
    }
  }

  /** Daily at five past midnight. */
  const NIGHTLY := Backup(true, "daily", Some("00:05"))

  lemma NightlyAnchor()
    ensures IsDaily(NIGHTLY) && Anchor(NIGHTLY) == 5
  {
  }

  lemma NightlyDue(last: int, now: int)
    requires last > 0
    ensures IsDue(Some(NIGHTLY), last, now, Plain()) <==>
            now >= now / DAILY * DAILY + 300_000 > last
  {
    NightlyAnchor();
    DailyIsDueWhen(NIGHTLY, last, now, Plain());
  }

  /** A history of one nightly router, with where it stands. */
  ghost predicate Stands(events: seq<Event>, waiting: bool, inFlight: bool, last: int) {
    && IsHistory(events, Plain(), "r", NIGHTLY) && !OwesReport(events)
    && Pending(events) == (if waiting then {"r"} else {})
    && (InFlight(events, "r") <==> inFlight)
    && LastRecord(events, "r") == last
  }

  lemma {:induction false} RecordNext(events: seq<Event>, waiting: bool, inFlight: bool, last: int, at: int)
    requires Stands(events, waiting, inFlight, last) && at > last
    ensures Stands(events + [Recorded("r", at)], waiting, inFlight, at)
  {
    HistoryGrows(events, Plain(), "r", NIGHTLY, Recorded("r", at));
  }

  lemma {:induction false} ReleaseNext(events: seq<Event>, waiting: bool, inFlight: bool, last: int)
    requires Stands(events, waiting, inFlight, last)
    ensures Stands(events + [Released("r")], waiting, false, last)
  {
    HistoryGrows(events, Plain(), "r", NIGHTLY, Released("r"));
  }

  lemma {:induction false} StartNext(events: seq<Event>, last: int)
    requires Stands(events, true, false, last)
    ensures Stands(events + [Started("r")], false, true, last)
  {
    HistoryGrows(events, Plain(), "r", NIGHTLY, Started("r"));
  }

  lemma {:induction false} TickNext(events: seq<Event>, inFlight: bool, last: int, now: int, due: set<string>)
    requires Stands(events, false, inFlight, last) && last > 0
    requires forall k :: 0 <= k < |events| && events[k].Ticked? ==> events[k].now <= now
    requires due == if now >= now / DAILY * DAILY + 300_000 > last then {"r"} else {}
    ensures Stands(events + [Ticked(now, due)], due != {}, inFlight, last)
  {
    NightlyDue(last, now);
    HistoryGrows(events, Plain(), "r", NIGHTLY, Ticked(now, due));
  }

  /** Once on record, then listed at `now` and started. */
  lemma FirstRun(now: int) returns (events: seq<Event>)
    requires 300_000 <= now < DAILY
    ensures events == [Recorded("r", 1), Ticked(now, {"r"}), Started("r")]
    ensures Stands(events, false, true, 1)
  {
    var none: seq<Event> := [];
    assert Stands(none, false, false, 0);
    RecordNext(none, false, false, 0, 1);
    var one := none + [Recorded("r", 1)];
    TickNext(one, false, 1, now, {"r"});
    var two := one + [Ticked(now, {"r"})];
    StartNext(two, 1);
    events := two + [Started("r")];
  }

  /** The first run of such a history is a later start, in its first tick. */
  lemma FirstStart(events: seq<Event>, now: int)
    requires |events| >= 3 && events[0] == Recorded("r", 1) && events[1].Ticked? && events[1].now == now
    requires events[2] == Started("r")
    ensures TickOf(events, 2) == 1 && IsLaterStart(events, "r", 2) && StartedAt(events, 2) == now
  {
    RecordCounts(events, 0, 1, "r", 1);
  }

  lemma SecondStart(events: seq<Event>)
    requires |events| == 7 && events[0] == Recorded("r", 1) && events[3] == Ticked(900_000, {"r"})
    requires events[4] == Recorded("r", 950_000) && events[5] == Released("r") && events[6] == Started("r")
    ensures TickOf(events, 6) == 3 && IsLaterStart(events, "r", 6) && StartedAt(events, 6) == 900_000
  {
    assert TickOf(events, 4) == 3;
    assert TickOf(events, 5) == 3;
    RecordCounts(events, 0, 3, "r", 1);
  }

  lemma StaleHistory() returns (events: seq<Event>)
    ensures events == [Recorded("r", 1), Ticked(600_000, {"r"}), Started("r"), Ticked(900_000, {"r"}),
                       Recorded("r", 950_000), Released("r"), Started("r")]
    ensures IsHistory(events, Plain(), "r", NIGHTLY)
  {
    var three := FirstRun(600_000);
    TickNext(three, true, 1, 900_000, {"r"});
    var four := three + [Ticked(900_000, {"r"})];
    RecordNext(four, true, true, 1, 950_000);
    var five := four + [Recorded("r", 950_000)];
    ReleaseNext(five, true, true, 950_000);
    var six := five + [Released("r")];
    StartNext(six, 950_000);
    events := six + [Started("r")];
  }

  /**
   The list of a tick goes stale. A run of ten past midnight outlasts the next
   tick, which lists its router again because nothing is on record yet; the run
   is recorded and released before the tick comes to it, and it is started a
   second time that day.
   */
  lemma StaleListStartsTwice() returns (events: seq<Event>)
    ensures IsZone(Plain()) && IsDaily(NIGHTLY) && IsHistory(events, Plain(), "r", NIGHTLY)
    ensures |events| == 7 && IsLaterStart(events, "r", 2) && IsLaterStart(events, "r", 6)
    ensures RecordedFirst(events, 2) && RecordedFirst(events, 6)
    ensures Plain().day(StartedAt(events, 2)) == 0 == Plain().day(StartedAt(events, 6))
  {
    PlainIsAZone();
    NightlyAnchor();
    events := StaleHistory();
    FirstStart(events, 600_000);
    SecondStart(events);
    assert IsRecordOf(events, 2, 4);
  }

  lemma LateHistory() returns (events: seq<Event>)
    ensures events == [Recorded("r", 1), Ticked(86_340_000, {"r"}), Started("r"), Recorded("r", 86_760_000),
                       Released("r"), Ticked(87_000_000, {}), Ticked(172_000_000, {})]
    ensures IsHistory(events, Plain(), "r", NIGHTLY)
    ensures !InFlight(events[..5], "r") && !InFlight(events[..6], "r")
  {
    var three := FirstRun(86_340_000);
    RecordNext(three, false, true, 1, 86_760_000);
    var four := three + [Recorded("r", 86_760_000)];
    ReleaseNext(four, false, true, 86_760_000);
    var five := four + [Released("r")];
    TickNext(five, false, 86_760_000, 87_000_000, {});
    var six := five + [Ticked(87_000_000, {})];
    TickNext(six, false, 86_760_000, 172_000_000, {});
    events := six + [Ticked(172_000_000, {})];
    assert events[..5] == five && events[..6] == six;
  }

  /**
   A run is recorded when it ends. One started late on a day and recorded after
   the next day's chosen time counts for that day too: neither of that day's
   ticks, both past the time and with the router free, starts another.
   */
  lemma LateRecordSkipsADay() returns (events: seq<Event>)
    ensures IsZone(Plain()) && IsDaily(NIGHTLY) && IsHistory(events, Plain(), "r", NIGHTLY)
    ensures |events| == 7 && IsLaterStart(events, "r", 2) && Plain().day(StartedAt(events, 2)) == 0
    ensures events[5] == Ticked(87_000_000, {}) && events[6] == Ticked(172_000_000, {})
    ensures Plain().day(87_000_000) == 1 == Plain().day(172_000_000)
    ensures 87_000_000 >= TodayAt(Plain(), Anchor(NIGHTLY), 87_000_000)
    ensures !InFlight(events[..5], "r") && !InFlight(events[..6], "r")
  {
    PlainIsAZone();
    NightlyAnchor();
    events := LateHistory();
    FirstStart(events, 86_340_000);
  }
}
