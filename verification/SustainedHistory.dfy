/**
 What a sustained run says, over any sequence of readings, ticks and
 interruptions, in terms of the history of readings alone.
 */
module SustainedHistory {
  import opened Sustained

  datatype Event =
    | Reading(at: int, v: real, hold: int)
    | Ticked(at: int, hold: int)
    | Interrupted

  function Step(s: State, e: Event, floor: real): Outcome {
    match e
    case Reading(at, v, hold) => ObserveStep(s, at, v, floor, hold)
    case Ticked(at, hold) => TickStep(s, at, floor, hold)
    case Interrupted => Outcome(InterruptStep(s), Quiet, 0.0)
  }

  /** The state after a sequence of events, from a fresh start. */
  function After(events: seq<Event>, floor: real): State
    decreases |events|, 1
  {
    if events == [] then FRESH else Said(events, floor).state
  }

  /** What the last event of a sequence is answered with. */
  function Said(events: seq<Event>, floor: real): Outcome
    requires events != []
    decreases |events|, 0
  {
    Step(After(events[..|events| - 1], floor), events[|events| - 1], floor)
  }

  // ---- The history ----------------------------------------------------------

  /** An episode is open: a breach was said and no recovery since. */
  ghost predicate IsOpen(events: seq<Event>, floor: real) {
    events != [] && OpenAfter(IsOpen(events[..|events| - 1], floor), Said(events, floor).verdict)
  }

  ghost predicate OpenAfter(open: bool, verdict: Verdict) {
    verdict.Breach? || (open && !verdict.Recovered?)
  }

  /** The level an episode last reported. */
  ghost function Reported(events: seq<Event>, floor: real): real {
    if events == [] then 0.0
    else ReportedAfter(Reported(events[..|events| - 1], floor), Said(events, floor))
  }

  ghost function ReportedAfter(reported: real, said: Outcome): real {
    if said.verdict.Breach? || said.verdict.Escalate? then said.level else reported
  }

  /** A reading as it was judged, with the window it was judged over: the hold time, or none if that is negative. */
  datatype Judged = Judged(at: int, v: real, hold: int)

  /**
   Every reading judged since the router was last out of touch with no episode
   open. A tick judges the reading still in force again.
   */
  ghost function History(events: seq<Event>, floor: real): seq<Judged> {
    if events == [] then []
    else
      var front := events[..|events| - 1];
      HistoryAfter(History(front, floor), IsOpen(front, floor), events[|events| - 1])
  }

  ghost function HistoryAfter(past: seq<Judged>, open: bool, e: Event): seq<Judged> {
    match e
    case Reading(at, v, hold) => past + [Judged(at, v, if hold < 0 then 0 else hold)]
    case Ticked(at, hold) =>
      if past == [] then [] else past + [Judged(at, past[|past| - 1].v, if hold < 0 then 0 else hold)]
    case Interrupted => if open then past else []
  }

  /** The unbroken stretch of latest readings at or above the floor, and the one below it. */
  ghost function Above(history: seq<Judged>, floor: real): seq<Judged>
  {
    if history == [] || history[|history| - 1].v < floor then []
    else Above(history[..|history| - 1], floor) + [history[|history| - 1]]
  }

  ghost function Below(history: seq<Judged>, floor: real): seq<Judged>
  {
    if history == [] || history[|history| - 1].v >= floor then []
    else Below(history[..|history| - 1], floor) + [history[|history| - 1]]
  }

  ghost function Start(stretch: seq<Judged>): int {
    if stretch == [] then 0 else stretch[0].at
  }

  /** A stretch has lasted: it began at least the hold time before its last reading. */
  ghost predicate Lasted(stretch: seq<Judged>) {
    && stretch != []
    && stretch[|stretch| - 1].at - stretch[0].at >= stretch[|stretch| - 1].hold
  }

  /** The clock never shows 0, which the code keeps for "none". */
  ghost predicate Clocked(events: seq<Event>) {
    forall i :: 0 <= i < |events| && !events[i].Interrupted? ==> events[i].at > 0
  }

  lemma {:induction false} ClockedFront(events: seq<Event>)
    requires events != [] && Clocked(events)
    ensures Clocked(events[..|events| - 1])
    ensures !events[|events| - 1].Interrupted? ==> events[|events| - 1].at > 0
  {
  }

  /** The last event, in terms of what came before it. */
  lemma {:induction false} LastStep(events: seq<Event>, floor: real)
    requires events != []
    ensures var front, last := events[..|events| - 1], events[|events| - 1];
            && Said(events, floor) == Step(After(front, floor), last, floor)
            && After(events, floor) == Said(events, floor).state
            && History(events, floor) == HistoryAfter(History(front, floor), IsOpen(front, floor), last)
  {
  }

  // ---- The state is the history, abridged -----------------------------------

  /** The marks the code keeps, in terms of the history, whether an episode is open and what it last reported. */
  ghost predicate Tracks(s: State, history: seq<Judged>, open: bool, reported: real, floor: real) {
    && (s.seen <==> history != [])
    && (s.seen ==> s.lastV == history[|history| - 1].v)
    && (s.fired <==> open)
    && (forall i :: 0 <= i < |history| ==> history[i].at > 0)
    && s.runStart == Start(Above(history, floor))
    && (open ==> s.belowSince == Start(Below(history, floor)) && s.level == reported)
    && IsTail(s.samples, Above(history, floor))
  }

  /** The samples kept are the tail of the stretch they belong to, its latest reading included. */
  ghost predicate IsTail(samples: seq<Timed>, stretch: seq<Judged>) {
    && |samples| <= |stretch|
    && (samples == [] ==> stretch == [])
    && (forall i :: 0 <= i < |samples| ==>
          samples[i] == Timed(stretch[|stretch| - |samples| + i].at, stretch[|stretch| - |samples| + i].v))
  }

  lemma {:induction false} StretchesGrow(history: seq<Judged>, j: Judged, floor: real)
    ensures Above(history + [j], floor) == if j.v >= floor then Above(history, floor) + [j] else []
    ensures Below(history + [j], floor) == if j.v >= floor then [] else Below(history, floor) + [j]
  {
    assert (history + [j])[..|history|] == history;
  }

  /** The mark 0 means there is no stretch. */
  lemma {:induction false} StartMeansStretch(history: seq<Judged>, floor: real)
    requires forall i :: 0 <= i < |history| ==> history[i].at > 0
    ensures Start(Above(history, floor)) == 0 <==> Above(history, floor) == []
    ensures Start(Below(history, floor)) == 0 <==> Below(history, floor) == []
  {
    if history != [] {
      StartMeansStretch(history[..|history| - 1], floor);
    }
  }

  lemma {:induction false} TailGrows(samples: seq<Timed>, stretch: seq<Judged>, j: Judged)
    requires IsTail(samples, stretch)
    ensures IsTail(samples + [Timed(j.at, j.v)], stretch + [j])
  {
  }

  lemma {:induction false} TailCut(samples: seq<Timed>, stretch: seq<Judged>, d: nat)
    requires IsTail(samples, stretch) && d < |samples|
    ensures IsTail(samples[d..], stretch)
  {
  }

  /** With no samples left over from before, those of the run are all there are. */
  lemma {:induction false} SamplesOfRun(s: State, at: int, v: real)
    requires s.runStart == 0 ==> s.samples == []
    ensures WithSample(s, at, v) == s.samples + [Timed(at, v)]
  {
  }

  /** What is left in the window is a tail of the run with one reading more. */
  lemma {:induction false} WindowIsTail(samples: seq<Timed>, stretch: seq<Judged>, j: Judged, limit: int)
    requires IsTail(samples, stretch)
    ensures IsTail(InWindow(samples + [Timed(j.at, j.v)], limit), stretch + [j])
  {
    var kept := samples + [Timed(j.at, j.v)];
    TailGrows(samples, stretch, j);
    TailCut(kept, stretch + [j], InForceAt(kept, limit));
  }

  /** Judging a run changes neither its samples nor its start. */
  lemma {:induction false} VerdictKeepsRun(s: State, at: int, hold: int)
    requires s.samples != []
    ensures var next := RunVerdict(s, at, hold).state; next.samples == s.samples && next.runStart == s.runStart
  {
  }

  lemma {:induction false} StartGrows(stretch: seq<Judged>, j: Judged)
    ensures Start(stretch + [j]) == if stretch == [] then j.at else Start(stretch)
  {
  }

  /** One reading more: the run's start and its kept samples still match the stretch. */
  lemma {:induction false} RunGrows(s: State, stretch: seq<Judged>, j: Judged)
    requires s.runStart == Start(stretch) && (s.runStart == 0 <==> stretch == []) && IsTail(s.samples, stretch)
    ensures var next := ObserveAbove(s, j.at, j.v, j.hold).state;
            next.runStart == Start(stretch + [j]) && IsTail(next.samples, stretch + [j])
  {
    SamplesOfRun(s, j.at, j.v);
    WindowIsTail(s.samples, stretch, j, j.at - j.hold);
    VerdictKeepsRun(TakenIn(s, j.at, j.v, j.hold), j.at, j.hold);
    StartGrows(stretch, j);
  }

  /** The marks after one reading at or above the floor. */
  lemma {:induction false} MarksAbove(s: State, open: bool, reported: real, j: Judged)
    requires (s.fired <==> open) && (open ==> s.level == reported)
    ensures var o := ObserveAbove(s, j.at, j.v, j.hold);
            && o.state.seen && o.state.lastV == j.v && o.state.belowSince == 0
            && (o.state.fired <==> OpenAfter(open, o.verdict))
            && (o.state.fired ==> o.state.level == ReportedAfter(reported, o))
  {
    RunMarks(TakenIn(s, j.at, j.v, j.hold), open, reported, j.at, j.hold);
  }

  lemma {:induction false} RunMarks(s: State, open: bool, reported: real, at: int, hold: int)
    requires s.samples != [] && (s.fired <==> open) && (open ==> s.level == reported)
    ensures var o := RunVerdict(s, at, hold);
            && o.state.seen == s.seen && o.state.lastV == s.lastV && o.state.belowSince == s.belowSince
            && (o.state.fired <==> OpenAfter(open, o.verdict))
            && (o.state.fired ==> o.state.level == ReportedAfter(reported, o))
  {
  }

  lemma {:induction false} TracksAbove(next: State, history: seq<Judged>, open: bool, reported: real, floor: real,
                                       j: Judged)
    requires j.at > 0 && j.v >= floor && forall i :: 0 <= i < |history| ==> history[i].at > 0
    requires next.seen && next.lastV == j.v && next.belowSince == 0
    requires (next.fired <==> open) && (open ==> next.level == reported)
    requires next.runStart == Start(Above(history, floor) + [j]) && IsTail(next.samples, Above(history, floor) + [j])
    ensures Tracks(next, history + [j], open, reported, floor)
  {
    StretchesGrow(history, j, floor);
  }

  /** One reading judged keeps the marks in step. */
  lemma {:induction false} JudgeAbove(s: State, history: seq<Judged>, open: bool, reported: real, floor: real, j: Judged)
    requires Tracks(s, history, open, reported, floor) && j.at > 0 && j.v >= floor
    ensures var o := ObserveAbove(s, j.at, j.v, j.hold);
            Tracks(o.state, history + [j], OpenAfter(open, o.verdict), ReportedAfter(reported, o), floor)
  {
    StartMeansStretch(history, floor);
    RunGrows(s, Above(history, floor), j);
    MarksAbove(s, open, reported, j);
    var o := ObserveAbove(s, j.at, j.v, j.hold);
    TracksAbove(o.state, history, OpenAfter(open, o.verdict), ReportedAfter(reported, o), floor, j);
  }

  /** The marks after one reading under the floor. */
  lemma {:induction false} MarksBelow(s: State, open: bool, reported: real, below: seq<Judged>, j: Judged)
    requires (s.fired <==> open) && (open ==> s.level == reported && s.belowSince == Start(below))
    requires Start(below) == 0 <==> below == []
    ensures var o := ObserveBelow(s, j.at, j.v, j.hold);
            var still := OpenAfter(open, o.verdict);
            && o.state.seen && o.state.lastV == j.v && o.state.runStart == 0 && o.state.samples == []
            && (o.state.fired <==> still)
            && (still ==> o.state.level == ReportedAfter(reported, o) && o.state.belowSince == Start(below + [j]))
  {
    StartGrows(below, j);
  }

  lemma {:induction false} TracksBelow(next: State, history: seq<Judged>, open: bool, reported: real, floor: real,
                                       j: Judged)
    requires j.at > 0 && j.v < floor && forall i :: 0 <= i < |history| ==> history[i].at > 0
    requires next.seen && next.lastV == j.v && next.runStart == 0 && next.samples == []
    requires (next.fired <==> open)
    requires open ==> next.level == reported && next.belowSince == Start(Below(history, floor) + [j])
    ensures Tracks(next, history + [j], open, reported, floor)
  {
    StretchesGrow(history, j, floor);
  }

  lemma {:induction false} JudgeBelow(s: State, history: seq<Judged>, open: bool, reported: real, floor: real, j: Judged)
    requires Tracks(s, history, open, reported, floor) && j.at > 0 && j.v < floor
    ensures var o := ObserveBelow(s, j.at, j.v, j.hold);
            Tracks(o.state, history + [j], OpenAfter(open, o.verdict), ReportedAfter(reported, o), floor)
  {
    StartMeansStretch(history, floor);
    MarksBelow(s, open, reported, Below(history, floor), j);
    var o := ObserveBelow(s, j.at, j.v, j.hold);
    TracksBelow(o.state, history, OpenAfter(open, o.verdict), ReportedAfter(reported, o), floor, j);
  }

  lemma {:induction false} Judge(s: State, history: seq<Judged>, open: bool, reported: real, floor: real, at: int, v: real, hold: int)
    requires Tracks(s, history, open, reported, floor) && at > 0
    ensures var o := ObserveStep(s, at, v, floor, hold);
            Tracks(o.state, history + [Judged(at, v, NotNegative(hold))], OpenAfter(open, o.verdict),
                   ReportedAfter(reported, o), floor)
  {
    var j := Judged(at, v, NotNegative(hold));
    if v >= floor {
      JudgeAbove(s, history, open, reported, floor, j);
    } else {
      JudgeBelow(s, history, open, reported, floor, j);
    }
  }

  /** One event keeps the marks in step. */
  lemma {:induction false} StepTracks(s: State, past: seq<Judged>, open: bool, reported: real, floor: real, e: Event)
    requires Tracks(s, past, open, reported, floor) && (!e.Interrupted? ==> e.at > 0)
    ensures var o := Step(s, e, floor);
            Tracks(o.state, HistoryAfter(past, open, e), OpenAfter(open, o.verdict), ReportedAfter(reported, o), floor)
  {
    match e
    case Reading(at, v, hold) => Judge(s, past, open, reported, floor, at, v, hold);
    case Ticked(at, hold) =>
      if s.seen {
        Judge(s, past, open, reported, floor, at, s.lastV, hold);
      }
    case Interrupted =>
  }

  lemma {:induction false} StateTracksHistory(events: seq<Event>, floor: real)
    requires Clocked(events)
    ensures Tracks(After(events, floor), History(events, floor), IsOpen(events, floor), Reported(events, floor), floor)
  {
    if events != [] {
      var front := events[..|events| - 1];
      ClockedFront(events);
      StateTracksHistory(front, floor);
      StepTracks(After(front, floor), History(front, floor), IsOpen(front, floor), Reported(front, floor), floor,
                 events[|events| - 1]);
    }
  }

  // ---- What is said ---------------------------------------------------------

  /** The last event judged a reading. */
  ghost predicate Judges(events: seq<Event>, floor: real) {
    events != [] && |History(events, floor)| == |History(events[..|events| - 1], floor)| + 1
  }

  /**
   Every verdict is the one the history calls for. A breach is said exactly
   when no episode is open and the readings have been at or above the floor for
   the hold time; a recovery exactly when one is open and they have been under
   it for the hold time; an escalation only inside an open episode, under the
   same condition as a breach, and then exactly when the held level rose.
   */
  lemma {:induction false} VerdictsAreDue(events: seq<Event>, floor: real)
    requires events != [] && Clocked(events)
    ensures var front := events[..|events| - 1];
            var history := History(events, floor);
            var said := Said(events, floor);
            && (said.verdict.Breach? <==>
                  Judges(events, floor) && !IsOpen(front, floor) && Lasted(Above(history, floor)))
            && (said.verdict.Recovered? <==>
                  Judges(events, floor) && IsOpen(front, floor) && Lasted(Below(history, floor)))
            && (said.verdict.Escalate? ==>
                  Judges(events, floor) && IsOpen(front, floor) && Lasted(Above(history, floor))
                  && said.level > Reported(front, floor))
            && (said.verdict.Breach? || said.verdict.Escalate? ==> said.level >= floor)
  {
    var front := events[..|events| - 1];
    ClockedFront(events);
    StateTracksHistory(front, floor);
    StepIsDue(After(front, floor), History(front, floor), IsOpen(front, floor), Reported(front, floor), floor,
              events[|events| - 1]);
  }

  /** What one event is answered with. */
  lemma {:induction false} StepIsDue(s: State, past: seq<Judged>, open: bool, reported: real, floor: real, e: Event)
    requires Tracks(s, past, open, reported, floor) && (!e.Interrupted? ==> e.at > 0)
    ensures var now := HistoryAfter(past, open, e);
            var o := Step(s, e, floor);
            if |now| == |past| + 1 then IsDue(o, Above(now, floor), Below(now, floor), open, reported, floor)
            else o.verdict.Quiet?
  {
    match e
    case Reading(at, v, hold) => JudgedVerdict(s, past, open, reported, floor, at, v, hold);
    case Ticked(at, hold) =>
      if s.seen {
        JudgedVerdict(s, past, open, reported, floor, at, s.lastV, hold);
      }
    case Interrupted =>
  }

  lemma {:induction false} LowestIsLowest(samples: seq<Timed>, floor: real)
    requires samples != [] && forall i :: 0 <= i < |samples| ==> samples[i].v >= floor
    ensures Lowest(samples) >= floor
  {
    if |samples| > 1 {
      LowestIsLowest(samples[..|samples| - 1], floor);
    }
  }

  lemma {:induction false} AboveIsAbove(history: seq<Judged>, floor: real)
    ensures forall i :: 0 <= i < |Above(history, floor)| ==> Above(history, floor)[i].v >= floor
  {
    if history != [] {
      AboveIsAbove(history[..|history| - 1], floor);
    }
  }

  /** The verdicts the history calls for, after one more reading. */
  ghost predicate IsDue(o: Outcome, above: seq<Judged>, below: seq<Judged>, open: bool, reported: real, floor: real) {
    && (o.verdict.Breach? <==> !open && Lasted(above))
    && (o.verdict.Recovered? <==> open && Lasted(below))
    && (o.verdict.Escalate? ==> open && Lasted(above) && o.level > reported)
    && (o.verdict.Breach? || o.verdict.Escalate? ==> o.level >= floor)
  }

  /** Whatever is kept of a stretch at or above the floor holds a level at or above it. */
  lemma {:induction false} KeptAreHigh(samples: seq<Timed>, stretch: seq<Judged>, floor: real)
    requires samples != [] && IsTail(samples, stretch)
    requires forall i :: 0 <= i < |stretch| ==> stretch[i].v >= floor
    ensures Lowest(samples) >= floor
  {
    LowestIsLowest(samples, floor);
  }

  /** The verdict on a run, from when it began and what it kept. */
  lemma {:induction false} RunIsDue(s: State, above: seq<Judged>, floor: real, at: int, hold: int)
    requires s.samples != [] && Lowest(s.samples) >= floor && (Lasted(above) <==> at - s.runStart >= hold)
    ensures IsDue(RunVerdict(s, at, hold), above, [], s.fired, s.level, floor)
  {
  }

  lemma {:induction false} LastedWhen(stretch: seq<Judged>, j: Judged)
    ensures Lasted(stretch + [j]) <==> j.at - Start(stretch + [j]) >= j.hold
  {
    assert (stretch + [j])[|stretch|] == j;
  }

  lemma {:induction false} AboveIsDue(s: State, stretch: seq<Judged>, floor: real, j: Judged)
    requires s.runStart == Start(stretch) && (s.runStart == 0 <==> stretch == []) && j.at > 0
    requires IsTail(s.samples, stretch)
    requires forall i :: 0 <= i < |stretch + [j]| ==> (stretch + [j])[i].v >= floor
    ensures IsDue(ObserveAbove(s, j.at, j.v, j.hold), stretch + [j], [], s.fired, s.level, floor)
  {
    SamplesOfRun(s, j.at, j.v);
    WindowIsTail(s.samples, stretch, j, j.at - j.hold);
    var next := TakenIn(s, j.at, j.v, j.hold);
    KeptAreHigh(next.samples, stretch + [j], floor);
    StartGrows(stretch, j);
    LastedWhen(stretch, j);
    RunIsDue(next, stretch + [j], floor, j.at, j.hold);
  }

  lemma {:induction false} BelowIsDue(s: State, stretch: seq<Judged>, floor: real, j: Judged)
    requires s.fired ==> s.belowSince == Start(stretch) && (s.belowSince == 0 <==> stretch == [])
    requires j.at > 0
    ensures IsDue(ObserveBelow(s, j.at, j.v, j.hold), [], stretch + [j], s.fired, s.level, floor)
  {
    var last := (stretch + [j])[|stretch|];
    assert last == j;
  }

  lemma {:induction false} JudgedAbove(s: State, history: seq<Judged>, floor: real, j: Judged)
    requires j.at > 0 && j.v >= floor && forall i :: 0 <= i < |history| ==> history[i].at > 0
    requires s.runStart == Start(Above(history, floor)) && IsTail(s.samples, Above(history, floor))
    ensures IsDue(ObserveAbove(s, j.at, j.v, j.hold), Above(history + [j], floor), Below(history + [j], floor),
                  s.fired, s.level, floor)
  {
    StretchesGrow(history, j, floor);
    StartMeansStretch(history, floor);
    AboveIsAbove(history + [j], floor);
    AboveIsDue(s, Above(history, floor), floor, j);
  }

  lemma {:induction false} JudgedBelow(s: State, history: seq<Judged>, floor: real, j: Judged)
    requires j.at > 0 && j.v < floor && forall i :: 0 <= i < |history| ==> history[i].at > 0
    requires s.fired ==> s.belowSince == Start(Below(history, floor))
    ensures IsDue(ObserveBelow(s, j.at, j.v, j.hold), Above(history + [j], floor), Below(history + [j], floor),
                  s.fired, s.level, floor)
  {
    StretchesGrow(history, j, floor);
    StartMeansStretch(history, floor);
    BelowIsDue(s, Below(history, floor), floor, j);
  }

  lemma {:induction false} JudgedVerdict(s: State, history: seq<Judged>, open: bool, reported: real, floor: real,
                                         at: int, v: real, hold: int)
    requires Tracks(s, history, open, reported, floor) && at > 0
    ensures var now := history + [Judged(at, v, NotNegative(hold))];
            IsDue(ObserveStep(s, at, v, floor, hold), Above(now, floor), Below(now, floor), open, reported, floor)
  {
    if v >= floor {
      JudgedAbove(s, history, floor, Judged(at, v, NotNegative(hold)));
    } else {
      JudgedBelow(s, history, floor, Judged(at, v, NotNegative(hold)));
    }
  }
}
