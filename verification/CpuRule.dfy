/**
 The CPU rule: a sustained run whose verdicts open and close one alert, among
 whatever other alerts the same memory holds.
 */
module CpuRule {
  import opened Wrappers
  import opened Sustained
  import opened SustainedHistory
  import opened AlertMemory
  import AlertLog

  const FLOOR_CPU: real := 70.0
  const HIGH := "High" + [' '] + "CPU"
  const HIGH_CPU := "high" + ['_'] + "cpu"

  function High(): Fired {
    Fired(false, HIGH, "", "", false, false)
  }

  function Normal(): Fired {
    Fired(true, "CPU Normal", HIGH_CPU, "", false, false)
  }

  datatype Rule = Rule(run: State, memory: Memory)

  datatype Ruled = Ruled(rule: Rule, out: seq<Fired>)

  /** What a verdict does to the memory, and what is announced; an escalation is announced and not stored. */
  function FireStep(m: Memory, router: string, verdict: Verdict): Emitted {
    match verdict
    case Breach => EmitStep(m, router, High())
    case Escalate => Emitted(m, [High()])
    case Recovered => EmitStep(m, router, Normal())
    case Quiet => Emitted(m, [])
  }

  function RuleStep(r: Rule, router: string, e: Event): Ruled {
    var o := Step(r.run, e, FLOOR_CPU);
    var fired := FireStep(r.memory, router, o.verdict);
    Ruled(Rule(o.state, fired.memory), fired.out)
  }

  class CpuEvaluator {
    const run: Run
    const store: MemStore

    constructor (store: MemStore)
      ensures this.store == store && fresh(run) && run.View() == FRESH
    {
      this.store := store;
      run := new Run();
    }

    ghost function View(): Rule
      reads run, store
    {
      Rule(run.View(), store.View())
    }

    method CpuFired(router: string, verdict: Verdict) returns (out: seq<Fired>)
      modifies store
      ensures Emitted(store.View(), out) == FireStep(old(store.View()), router, verdict)
    {
      out := [];
      match verdict
      case Breach => out := Emit(store, router, High());
      case Escalate => out := [High()];
      case Recovered => out := Emit(store, router, Normal());
      case Quiet =>
    }

    /** A payload may carry no CPU load, and then nothing is judged. */
    method CpuReading(router: string, load: Option<real>, now: int, hold: int) returns (out: seq<Fired>)
      modifies run, store
      ensures load.None? ==> View() == old(View()) && out == []
      ensures load.Some? ==> Ruled(View(), out) == RuleStep(old(View()), router, Reading(now, load.value, hold))
    {
      if load.None? {
        return [];
      }
      var verdict, held := run.Observe(now, load.value, FLOOR_CPU, hold);
      out := CpuFired(router, verdict);
    }

    /** The clock judges the reading in force again; a router out of touch is not judged. */
    method Tick(router: string, alertsEnabled: bool, connected: bool, now: int, hold: int) returns (out: seq<Fired>)
      modifies run, store
      ensures router == "" || !alertsEnabled ==> View() == old(View()) && out == []
      ensures router != "" && alertsEnabled ==>
                Ruled(View(), out) == RuleStep(old(View()), router, if connected then Ticked(now, hold) else Interrupted)
    {
      out := [];
      if router == "" || !alertsEnabled {
        return;
      }
      if !connected {
        run.Interrupt();
        return;
      }
      if run.seen {
        var verdict, held := run.Tick(now, FLOOR_CPU, hold);
        out := CpuFired(router, verdict);
      }
    }
  }

  // ---- The alert and the episode --------------------------------------------

  /** The rule's own events, among any other alerts raised or withdrawn. */
  datatype Happening = Cpu(event: Event) | Other(command: AlertLog.Command)

  function MemoryAfter(m: Memory, c: AlertLog.Command): Memory {
    match c
    case Raise(router, fired) => EmitStep(m, router, fired).memory
    case Withdraw(router, alertType, subject) => Forget(m, MemKey(router, alertType, subject))
  }

  ghost function CpuKey(router: string): string {
    MemKey(router, HIGH_CPU, "")
  }

  /** A command that is about some other alert. */
  ghost predicate IsElsewhere(c: AlertLog.Command, key: string) {
    match c
    case Raise(router, fired) => OpenKey(router, fired) != key && CloseKey(router, fired) != key
    case Withdraw(router, alertType, subject) => MemKey(router, alertType, subject) != key
  }

  function RuleAfter(router: string, happenings: seq<Happening>): Rule {
    if happenings == [] then Rule(FRESH, EMPTY)
    else
      var r := RuleAfter(router, happenings[..|happenings| - 1]);
      match happenings[|happenings| - 1]
      case Cpu(e) => RuleStep(r, router, e).rule
      case Other(c) => r.(memory := MemoryAfter(r.memory, c))
  }

  /** The rule's own events. */
  ghost function CpuEvents(happenings: seq<Happening>): seq<Event> {
    if happenings == [] then []
    else
      var rest := CpuEvents(happenings[..|happenings| - 1]);
      var last := happenings[|happenings| - 1];
      if last.Cpu? then rest + [last.event] else rest
  }

  lemma HighIsStored()
    ensures StoredType(HIGH) == HIGH_CPU
  {
    assert IsWord("High") && IsWord("CPU");
    assert LowerAll("High") == "high" && LowerAll("CPU") == "cpu";
    TwoWordsStored("High", "CPU");
  }

  /** The mark the run keeps is whether an episode is open, whatever the clock shows. */
  lemma {:induction false} FiredIsOpen(events: seq<Event>, floor: real)
    ensures After(events, floor).fired <==> IsOpen(events, floor)
  {
    if events != [] {
      FiredIsOpen(events[..|events| - 1], floor);
      StepFires(After(events[..|events| - 1], floor), events[|events| - 1], floor);
    }
  }

  lemma RunFires(s: State, at: int, hold: int)
    requires s.samples != []
    ensures var o := RunVerdict(s, at, hold);
            && (o.state.fired <==> OpenAfter(s.fired, o.verdict)) && !o.verdict.Recovered?
            && (o.verdict.Breach? ==> !s.fired) && (o.verdict.Escalate? ==> s.fired)
  {
  }

  lemma ObserveFires(s: State, at: int, v: real, floor: real, hold: int)
    ensures var o := ObserveStep(s, at, v, floor, hold);
            && (o.state.fired <==> OpenAfter(s.fired, o.verdict))
            && (o.verdict.Breach? ==> !s.fired) && (o.verdict.Recovered? ==> s.fired)
            && (o.verdict.Escalate? ==> s.fired)
  {
    if v >= floor {
      RunFires(TakenIn(s, at, v, NotNegative(hold)), at, NotNegative(hold));
    }
  }

  /** A breach is said only with no episode open, and a recovery only with one open. */
  lemma StepFires(s: State, e: Event, floor: real)
    ensures var o := Step(s, e, floor);
            && (o.state.fired <==> OpenAfter(s.fired, o.verdict))
            && (o.verdict.Breach? ==> !s.fired) && (o.verdict.Recovered? ==> s.fired)
            && (o.verdict.Escalate? ==> s.fired)
  {
    match e
    case Reading(at, v, hold) => ObserveFires(s, at, v, floor, hold);
    case Ticked(at, hold) =>
      if s.seen {
        ObserveFires(s, at, s.lastV, floor, hold);
      }
    case Interrupted =>
  }

  /** The alert is open exactly when the mark is set, step by step; and every verdict is announced. */
  lemma RuleKeepsKey(r: Rule, router: string, e: Event)
    requires CpuKey(router) in r.memory.open <==> r.run.fired
    ensures var next := RuleStep(r, router, e);
            var verdict := Step(r.run, e, FLOOR_CPU).verdict;
            && (CpuKey(router) in next.rule.memory.open <==> next.rule.run.fired)
            && next.out == if verdict.Quiet? then [] else if verdict.Recovered? then [Normal()] else [High()]
  {
    HighIsStored();
    StepFires(r.run, e, FLOOR_CPU);
    assert OpenKey(router, High()) == CpuKey(router) == CloseKey(router, Normal());
  }

  lemma ElsewhereKeepsKey(m: Memory, c: AlertLog.Command, key: string)
    requires IsElsewhere(c, key)
    ensures key in MemoryAfter(m, c).open <==> key in m.open
  {
  }

  /**
   From a fresh evaluator and an empty memory, over any readings, ticks and
   interruptions, and any other alerts in between: the CPU alert is open exactly
   when an episode is, as the history of readings alone defines it.
   */
  lemma {:induction false} AlertFollowsEpisode(router: string, happenings: seq<Happening>)
    requires forall i :: 0 <= i < |happenings| && happenings[i].Other? ==>
               IsElsewhere(happenings[i].command, CpuKey(router))
    ensures var r := RuleAfter(router, happenings);
            && r.run == After(CpuEvents(happenings), FLOOR_CPU)
            && (CpuKey(router) in r.memory.open <==> IsOpen(CpuEvents(happenings), FLOOR_CPU))
  {
    FiredIsOpen(CpuEvents(happenings), FLOOR_CPU);
    if happenings != [] {
      var front := happenings[..|happenings| - 1];
      AlertFollowsEpisode(router, front);
      FiredIsOpen(CpuEvents(front), FLOOR_CPU);
      var r := RuleAfter(router, front);
      match happenings[|happenings| - 1]
      case Cpu(e) =>
        RuleKeepsKey(r, router, e);
        var events := CpuEvents(happenings);
        assert events[..|events| - 1] == CpuEvents(front);
      case Other(c) =>
        ElsewhereKeepsKey(r.memory, c, CpuKey(router));
    }
  }
}
