/**
 The backup scheduler: one run per router at a time, and one line in the log for
 each stretch of ticks a router was passed over.

 A tick reads its clock and lists the due routers once, from what is on record
 then, and only afterwards claims them one by one. Runs of earlier ticks may be
 recorded and released meanwhile. All of it goes into one history.
 */
module Scheduler {
  import opened Wrappers
  import opened Due

  const SKIP_REPORT_AFTER := 3

  datatype Event =
    | Ticked(now: int, due: set<string>)
    | Started(id: string)
    | Skipped(id: string)
    | Reported(id: string)
    | Recorded(id: string, at: int)
    | Released(id: string)

  // ---- What the events say --------------------------------------------------

  /** A run of this router was started and has not been released since. */
  ghost predicate InFlight(events: seq<Event>, id: string) {
    events != []
    && var last := events[|events| - 1];
       if last == Started(id) then true
       else if last == Released(id) then false
       else InFlight(events[..|events| - 1], id)
  }

  /** How often this router was passed over since a run of it last started. */
  ghost function Streak(events: seq<Event>, id: string): nat {
    if events == [] then 0
    else
      var last := events[|events| - 1];
      var before := Streak(events[..|events| - 1], id);
      if last == Started(id) then 0 else if last == Skipped(id) then before + 1 else before
  }

  /** The latest instant a run of this router was recorded at, 0 if none was. */
  ghost function LastRecord(events: seq<Event>, id: string): int {
    if events == [] then 0
    else
      var last := events[|events| - 1];
      var before := LastRecord(events[..|events| - 1], id);
      if last.Recorded? && last.id == id && last.at > before then last.at else before
  }

  /** The routers the current tick has listed and not come to yet. */
  ghost function Pending(events: seq<Event>): set<string> {
    if events == [] then {}
    else PendingAfter(Pending(events[..|events| - 1]), events[|events| - 1])
  }

  ghost function PendingAfter(pending: set<string>, e: Event): set<string> {
    match e
    case Ticked(_, due) => due
    case Started(id) => pending - {id}
    case Skipped(id) => pending - {id}
    case _ => pending
  }

  /**
   The event is one that could come next: a tick once the last one is over, a
   start of a listed router that is free, a skip of one that is not, a report
   of a third skip; a record or a release at any time.
   */
  ghost predicate Fits(events: seq<Event>, e: Event) {
    match e
    case Ticked(_, _) => Pending(events) == {}
    case Started(id) => id in Pending(events) && !InFlight(events, id)
    case Skipped(id) => id in Pending(events) && InFlight(events, id)
    case Reported(id) => events != [] && events[|events| - 1] == Skipped(id) && Streak(events, id) == SKIP_REPORT_AFTER
    case _ => true
  }

  /** A third skip in a row is waiting to be reported. */
  ghost predicate OwesReport(events: seq<Event>) {
    events != []
    && var last := events[|events| - 1]; last.Skipped? && Streak(events, last.id) == SKIP_REPORT_AFTER
  }

  /** Every event fits, and every third skip is reported at once. */
  ghost predicate Orderly(events: seq<Event>) {
    events != [] ==>
      var front, last := events[..|events| - 1], events[|events| - 1];
      Orderly(front) && Fits(front, last) && (OwesReport(front) <==> last.Reported?)
  }

  lemma {:induction false} OrderlyAt(events: seq<Event>, i: nat)
    requires Orderly(events) && i < |events|
    ensures Fits(events[..i], events[i]) && (OwesReport(events[..i]) <==> events[i].Reported?)
  {
    if i < |events| - 1 {
      OrderlyAt(events[..|events| - 1], i);
      assert events[..|events| - 1][..i] == events[..i];
    }
  }

  /** What one more event changes, router by router. */
  lemma {:induction false} OneMore(events: seq<Event>, e: Event)
    ensures forall id :: InFlight(events + [e], id) <==>
              if e == Started(id) then true else if e == Released(id) then false else InFlight(events, id)
    ensures forall id :: Streak(events + [e], id) ==
              if e == Started(id) then 0 else if e == Skipped(id) then Streak(events, id) + 1 else Streak(events, id)
  {
    assert (events + [e])[..|events|] == events;
  }

  lemma {:induction false} OneMoreRecord(events: seq<Event>, e: Event)
    ensures forall id :: LastRecord(events + [e], id) ==
              if e.Recorded? && e.id == id && e.at > LastRecord(events, id) then e.at else LastRecord(events, id)
    ensures Pending(events + [e]) == PendingAfter(Pending(events), e)
  {
    assert (events + [e])[..|events|] == events;
  }

  lemma {:induction false} OrderlyGrows(events: seq<Event>, e: Event)
    requires Orderly(events) && Fits(events, e) && (OwesReport(events) <==> e.Reported?)
    ensures Orderly(events + [e])
  {
    assert (events + [e])[..|events|] == events;
  }

  datatype Router = Router(id: string, disabled: bool, backup: Option<Backup>)

  /** How a run handed to the router's queue ends. */
  datatype Queued = Refused | Finished | FailedRun | StillGoing

  predicate IsDueRouter(r: Router, last: int, now: int, z: Zone) {
    !r.disabled && IsDue(r.backup, last, now, z)
  }

  /** The routers due by what is on record. */
  ghost predicate IsDueId(fleet: seq<Router>, events: seq<Event>, now: int, z: Zone, id: string) {
    exists i :: 0 <= i < |fleet| && fleet[i].id == id && IsDueRouter(fleet[i], LastRecord(events, id), now, z)
  }

  /** Only a router in service whose backup is enabled, on one of the four schedules, is ever due. */
  lemma OnlyEnabledAreDue(fleet: seq<Router>, events: seq<Event>, now: int, z: Zone, id: string)
    requires IsDueId(fleet, events, now, z, id)
    ensures exists i :: 0 <= i < |fleet| && fleet[i].id == id && !fleet[i].disabled && IsScheduled(fleet[i].backup)
  {
  }

  ghost predicate IsScheduled(b: Option<Backup>) {
    b.Some? && b.value.enabled && b.value.schedule in {"hourly", "daily", "weekly", "monthly"}
  }

  ghost predicate Distinct(ids: seq<string>) {
    forall i, j :: 0 <= i < j < |ids| ==> ids[i] != ids[j]
  }

  /** The ids of a fleet, which the router store keeps apart. */
  ghost predicate DistinctIds(fleet: seq<Router>) {
    forall i, j :: 0 <= i < j < |fleet| ==> fleet[i].id != fleet[j].id
  }

  /** No tick begins in this part of a history. */
  ghost predicate NoTick(events: seq<Event>, from: nat, to: nat)
    requires to <= |events|
  {
    forall k :: from <= k < to ==> !events[k].Ticked?
  }

  /** The scheduler's fields are what the events say, for every router. */
  ghost predicate AgreesWith(events: seq<Event>, running: set<string>, skips: map<string, nat>, records: map<string, int>) {
    && (forall id :: id in running <==> InFlight(events, id))
    && (forall id :: (if id in skips then skips[id] else 0) == Streak(events, id))
    && (forall id :: (if id in records then records[id] else 0) == LastRecord(events, id))
  }

  ghost predicate SoundWith(events: seq<Event>, running: set<string>, skips: map<string, nat>, records: map<string, int>) {
    Orderly(events) && !OwesReport(events) && AgreesWith(events, running, skips, records)
  }

  lemma {:induction false} StartSound(events: seq<Event>, running: set<string>, skips: map<string, nat>,
                                      records: map<string, int>, id: string)
    requires SoundWith(events, running, skips, records) && id in Pending(events) && !InFlight(events, id)
    ensures SoundWith(events + [Started(id)], running + {id}, skips - {id}, records)
    ensures InFlight(events + [Started(id)], id) && Pending(events + [Started(id)]) == Pending(events) - {id}
  {
    OrderlyGrows(events, Started(id));
    OneMore(events, Started(id));
    OneMoreRecord(events, Started(id));
  }

  lemma {:induction false} SkipSound(events: seq<Event>, running: set<string>, skips: map<string, nat>,
                                     records: map<string, int>, id: string)
    requires SoundWith(events, running, skips, records) && id in Pending(events) && InFlight(events, id)
    ensures var n := (if id in skips then skips[id] else 0) + 1;
            && Orderly(events + [Skipped(id)])
            && AgreesWith(events + [Skipped(id)], running, skips[id := n], records)
            && n == Streak(events + [Skipped(id)], id) == Streak(events, id) + 1
            && Pending(events + [Skipped(id)]) == Pending(events) - {id}
            && (OwesReport(events + [Skipped(id)]) <==> n == SKIP_REPORT_AFTER)
  {
    OrderlyGrows(events, Skipped(id));
    OneMore(events, Skipped(id));
    OneMoreRecord(events, Skipped(id));
  }

  lemma {:induction false} ReportSound(events: seq<Event>, running: set<string>, skips: map<string, nat>,
                                       records: map<string, int>, id: string)
    requires Orderly(events) && AgreesWith(events, running, skips, records)
    requires events != [] && events[|events| - 1] == Skipped(id) && Streak(events, id) == SKIP_REPORT_AFTER
    ensures SoundWith(events + [Reported(id)], running, skips, records)
    ensures Pending(events + [Reported(id)]) == Pending(events)
  {
    OrderlyGrows(events, Reported(id));
    OneMore(events, Reported(id));
    OneMoreRecord(events, Reported(id));
  }

  lemma {:induction false} ReleaseSound(events: seq<Event>, running: set<string>, skips: map<string, nat>,
                                        records: map<string, int>, id: string)
    requires SoundWith(events, running, skips, records)
    ensures SoundWith(events + [Released(id)], running - {id}, skips, records)
    ensures !InFlight(events + [Released(id)], id) && Pending(events + [Released(id)]) == Pending(events)
  {
    OrderlyGrows(events, Released(id));
    OneMore(events, Released(id));
    OneMoreRecord(events, Released(id));
  }

  lemma {:induction false} RecordSound(events: seq<Event>, running: set<string>, skips: map<string, nat>,
                                       records: map<string, int>, id: string, at: int)
    requires SoundWith(events, running, skips, records)
    ensures var last := if id in records then records[id] else 0;
            SoundWith(events + [Recorded(id, at)], running, skips, if at > last then records[id := at] else records)
    ensures Pending(events + [Recorded(id, at)]) == Pending(events)
  {
    OrderlyGrows(events, Recorded(id, at));
    OneMore(events, Recorded(id, at));
    OneMoreRecord(events, Recorded(id, at));
  }

  lemma {:induction false} TickSound(events: seq<Event>, running: set<string>, skips: map<string, nat>,
                                     records: map<string, int>, now: int, due: set<string>)
    requires SoundWith(events, running, skips, records) && Pending(events) == {}
    ensures SoundWith(events + [Ticked(now, due)], running, skips, records)
    ensures Pending(events + [Ticked(now, due)]) == due
  {
    OrderlyGrows(events, Ticked(now, due));
    OneMore(events, Ticked(now, due));
    OneMoreRecord(events, Ticked(now, due));
  }

  class Scheduler {
    var running: set<string>
    var skips: map<string, nat>

    /** What the backup history answers for each router: its latest record. */
    var records: map<string, int>

    ghost var events: seq<Event>

    constructor ()
      ensures Valid() && events == []
    {
      running, skips, records, events := {}, map[], map[], [];
    }

    ghost predicate Sound()
      reads this
    {
      SoundWith(events, running, skips, records)
    }

    /** Between ticks every listed router has been come to. */
    ghost predicate Valid()
      reads this
    {
      Sound() && Pending(events) == {}
    }

    /** Takes a router that is free; a run that starts ends the streak. */
    method Claim(id: string) returns (ok: bool)
      requires Sound() && id in Pending(events)
      modifies this
      ensures Sound()
      ensures (ok <==> !old(InFlight(events, id))) && InFlight(events, id)
      ensures events == if ok then old(events) + [Started(id)] else old(events)
      ensures Pending(events) == old(Pending(events)) - (if ok then {id} else {})
    {
      if id in running {
        return false;
      }
      StartSound(events, running, skips, records, id);
      running := running + {id};
      skips := skips - {id};
      events := events + [Started(id)];
      return true;
    }

    /** Counts one more time a busy router was passed over. */
    method NoteSkip(id: string) returns (n: nat)
      requires Sound() && id in Pending(events) && InFlight(events, id)
      modifies this
      ensures Orderly(events) && AgreesWith(events, running, skips, records)
      ensures Pending(events) == old(Pending(events)) - {id} && events == old(events) + [Skipped(id)]
      ensures n == Streak(events, id) == old(Streak(events, id)) + 1
      ensures OwesReport(events) <==> n == SKIP_REPORT_AFTER
    {
      SkipSound(events, running, skips, records, id);
      n := (if id in skips then skips[id] else 0) + 1;
      skips := skips[id := n];
      events := events + [Skipped(id)];
    }

    /** Says that a router has been passed over three times in a row. */
    method Report(id: string)
      requires Orderly(events) && AgreesWith(events, running, skips, records)
      requires events != [] && events[|events| - 1] == Skipped(id) && Streak(events, id) == SKIP_REPORT_AFTER
      modifies this`events
      ensures Sound() && events == old(events) + [Reported(id)] && Pending(events) == old(Pending(events))
    {
      ReportSound(events, running, skips, records, id);
      events := events + [Reported(id)];
    }

    method Release(id: string)
      requires Sound()
      modifies this
      ensures Sound() && events == old(events) + [Released(id)] && Pending(events) == old(Pending(events))
      ensures !InFlight(events, id)
    {
      ReleaseSound(events, running, skips, records, id);
      running := running - {id};
      events := events + [Released(id)];
    }

    /** A run, scheduled or asked for on a page, goes on record. */
    method Record(id: string, at: int)
      requires Sound()
      modifies this
      ensures Sound() && events == old(events) + [Recorded(id, at)] && Pending(events) == old(Pending(events))
    {
      RecordSound(events, running, skips, records, id, at);
      if at > if id in records then records[id] else 0 {
        records := records[id := at];
      }
      events := events + [Recorded(id, at)];
    }

    /** Whatever else happens: any runs are recorded and released, in any order. */
    method Meanwhile()
      requires Sound()
      modifies this
      ensures Sound() && old(events) <= events && Pending(events) == old(Pending(events))
      ensures forall k :: |old(events)| <= k < |events| ==> events[k].Recorded? || events[k].Released?
    {
      var n: nat :| true;
      for i := 0 to n
        invariant Sound() && old(events) <= events && Pending(events) == old(Pending(events))
        invariant forall k :: |old(events)| <= k < |events| ==> events[k].Recorded? || events[k].Released?
      {
        var id: string :| true;
        var at: int :| true;
        if * {
          Record(id, at);
        } else {
          Release(id);
        }
      }
    }

    /** Every router whose backup is due right now; one that is disabled is not asked about. */
    method DueRouters(fleet: seq<Router>, now: int, z: Zone) returns (due: seq<string>)
      requires Sound() && DistinctIds(fleet)
      ensures Distinct(due) && forall id :: id in due <==> IsDueId(fleet, events, now, z, id)
    {
      due := [];
      ghost var at: seq<nat> := [];
      for i := 0 to |fleet|
        invariant |at| == |due|
        invariant forall k :: 0 <= k < |due| ==>
                    && at[k] < i && fleet[at[k]].id == due[k]
                    && IsDueRouter(fleet[at[k]], LastRecord(events, due[k]), now, z)
        invariant Distinct(due)
        invariant forall k :: 0 <= k < i && IsDueRouter(fleet[k], LastRecord(events, fleet[k].id), now, z) ==>
                    fleet[k].id in due
      {
        var r := fleet[i];
        if !r.disabled {
          var last := if r.id in records then records[r.id] else 0;
          if IsDue(r.backup, last, now, z) {
            due, at := due + [r.id], at + [i];
          }
        }
      }
    }

    /**
     Lists the due routers, then runs them one at a time. The queue may refuse
     a run, finish it, finish it with an error (and then it is released twice),
     or still be at it when the tick is over. The list is exactly the routers
     due by what was on record when the tick began, and the tick is over once
     each of them was started or passed over.
     */
    method Tick(fleet: seq<Router>, now: int, z: Zone)
      requires Valid() && DistinctIds(fleet)
      modifies this
      ensures Valid() && old(events) < events
      ensures events[|old(events)|].Ticked? && events[|old(events)|].now == now
      ensures forall id :: id in events[|old(events)|].due <==> IsDueId(fleet, old(events), now, z, id)
      ensures NoTick(events, |old(events)| + 1, |events|)
    {
      var due := DueRouters(fleet, now, z);
      BeginTick(now, due);
      for i := 0 to |due|
        invariant Sound() && |old(events)| < |events| && old(events) < events
        invariant events[|old(events)|] == Ticked(now, Members(due))
        invariant Pending(events) == Members(due[i..])
        invariant NoTick(events, |old(events)| + 1, |events|)
      {
        NextMember(due, i);
        Meanwhile();
        RunOne(due[i]);
      }
      assert due[|due|..] == [];
      Meanwhile();
    }

    method BeginTick(now: int, ghost due: seq<string>)
      requires Valid()
      modifies this`events
      ensures Sound() && events == old(events) + [Ticked(now, Members(due))]
      ensures Pending(events) == Members(due[0..])
    {
      TickSound(events, running, skips, records, now, Members(due));
      events := events + [Ticked(now, Members(due))];
      assert due[0..] == due;
    }

    /** Claims a due router and hands its run to the queue, or passes it over. */
    method RunOne(id: string)
      requires Sound() && id in Pending(events)
      modifies this
      ensures Sound() && old(events) < events && Pending(events) == old(Pending(events)) - {id}
      ensures NoTick(events, |old(events)|, |events|)
      ensures events[|old(events)|] == if old(InFlight(events, id)) then Skipped(id) else Started(id)
    {
      var free := Claim(id);
      if free {
        ghost var _ := HandOver(id);
      } else {
        PassOver(id);
      }
    }

    /** Silent the first times, reported at the third. */
    method PassOver(id: string)
      requires Sound() && id in Pending(events) && InFlight(events, id)
      modifies this
      ensures Sound() && Pending(events) == old(Pending(events)) - {id}
      ensures events == old(events) + if Streak(old(events), id) + 1 == SKIP_REPORT_AFTER
                                      then [Skipped(id), Reported(id)] else [Skipped(id)]
    {
      var n := NoteSkip(id);
      if n == SKIP_REPORT_AFTER {
        Report(id);
        assert events == old(events) + [Skipped(id), Reported(id)];
      }
    }

    /** Whatever happens during it, a run that is over leaves its router free. */
    method HandOver(id: string) returns (ghost how: Queued)
      requires Sound()
      modifies this
      ensures Sound() && old(events) <= events && Pending(events) == old(Pending(events))
      ensures forall k :: |old(events)| <= k < |events| ==> events[k].Recorded? || events[k].Released?
      ensures !how.StillGoing? ==> !InFlight(events, id)
    {
      var ending := Queue();
      how := ending;
      Meanwhile();
      if !ending.StillGoing? {
        Release(id);
        if ending.FailedRun? {
          Release(id);
        }
      }
    }

    method Queue() returns (how: Queued)
    {
      how :| true;
    }
  }

  ghost function Members(ids: seq<string>): set<string> {
    set id | id in ids
  }

  lemma NextMember(ids: seq<string>, i: nat)
    requires i < |ids| && Distinct(ids)
    ensures ids[i] in Members(ids[i..]) && Members(ids[i..]) - {ids[i]} == Members(ids[i + 1..])
  {
    assert ids[i..] == [ids[i]] + ids[i + 1..];
  }

  // ---- What orderly events mean ---------------------------------------------

  /** Between two starts of a router its run was released: no two are ever in flight. */
  lemma {:induction false} StartsAlternate(events: seq<Event>, i: nat, j: nat, id: string)
    requires Orderly(events) && i < j < |events| && events[i] == Started(id) && events[j] == Started(id)
    ensures exists k :: i < k < j && events[k] == Released(id)
  {
    OrderlyAt(events, j);
    if forall k :: i < k < j ==> events[k] != Released(id) {
      StaysInFlight(events, i, j, id);
    }
  }

  lemma {:induction false} StaysInFlight(events: seq<Event>, i: nat, j: nat, id: string)
    requires i < j <= |events| && events[i] == Started(id)
    requires forall k :: i < k < j ==> events[k] != Released(id)
    ensures InFlight(events[..j], id)
    decreases j
  {
    assert events[..j][..j - 1] == events[..j - 1];
    if i < j - 1 {
      StaysInFlight(events, i, j - 1, id);
    }
  }

  /** Without a start in between, the streak only grows, by one for each skip. */
  lemma {:induction false} StreakGrows(events: seq<Event>, i: nat, j: nat, id: string)
    requires i <= j <= |events| && forall k :: i <= k < j ==> events[k] != Started(id)
    ensures Streak(events[..i], id) <= Streak(events[..j], id)
    ensures (exists k :: i <= k < j && events[k] == Skipped(id)) ==> Streak(events[..i], id) < Streak(events[..j], id)
    decreases j
  {
    if i < j {
      StreakGrows(events, i, j - 1, id);
      assert events[..j][..j - 1] == events[..j - 1];
    }
  }

  /** One report for each stretch of skips: between two of a router's, a run of it started. */
  lemma OneReportPerStretch(events: seq<Event>, i: nat, j: nat, id: string)
    requires Orderly(events) && i < j < |events| && events[i] == Reported(id) && events[j] == Reported(id)
    ensures exists k :: i < k < j && events[k] == Started(id)
  {
    OrderlyAt(events, i);
    OrderlyAt(events, j);
    assert events[..j][j - 1] == events[j - 1] == Skipped(id);
    if forall k :: i <= k < j ==> events[k] != Started(id) {
      StreakGrows(events, i, j, id);
    }
  }

  /** And it comes right after the third skip, a result in its own right: no third skip goes unreported. */
  lemma ThirdSkipIsReported(events: seq<Event>, i: nat)
    requires Orderly(events) && i + 1 < |events| && OwesReport(events[..i + 1])
    ensures events[i].Skipped? && events[i + 1] == Reported(events[i].id)
  {
    assert events[..i + 1][i] == events[i];
    OrderlyAt(events, i + 1);
  }
}
