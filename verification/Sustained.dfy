/**
 One reading's run past its floor, measured in elapsed time.

 The object keeps a pruned list of samples and a few marks. What it says is
 judged against the whole history of readings instead: which verdict is due,
 and what level was held, are defined on the history alone.
 */
module Sustained {

  datatype Timed = Timed(at: int, v: real)

  datatype Verdict = Quiet | Breach | Escalate | Recovered

  datatype State = State(runStart: int, samples: seq<Timed>, fired: bool, level: real,
                         belowSince: int, lastV: real, seen: bool)

  const FRESH := State(0, [], false, 0.0, 0, 0.0, false)

  datatype Outcome = Outcome(state: State, verdict: Verdict, level: real)

  function NotNegative(hold: int): int {
    if hold < 0 then 0 else hold
  }

  /** The last sample at or before `limit`, the very first one counting for any limit. */
  function InForceAt(samples: seq<Timed>, limit: int): (i: nat)
    ensures samples != [] ==> i < |samples|
    ensures samples == [] ==> i == 0
  {
    if |samples| <= 1 then 0
    else if samples[|samples| - 1].at <= limit then |samples| - 1
    else InForceAt(samples[..|samples| - 1], limit)
  }

  function Lowest(samples: seq<Timed>): real
    requires samples != []
  {
    var last := samples[|samples| - 1].v;
    if |samples| == 1 then last
    else
      var rest := Lowest(samples[..|samples| - 1]);
      if last < rest then last else rest
  }

  // ---- One reading ----------------------------------------------------------

  /** The samples of the run with one more, which is the first if there is no run. */
  function WithSample(s: State, at: int, v: real): (r: seq<Timed>)
    ensures r != []
  {
    (if s.runStart == 0 then [] else s.samples) + [Timed(at, v)]
  }

  /** From the sample in force at `limit` on. */
  function InWindow(samples: seq<Timed>, limit: int): (r: seq<Timed>)
    requires samples != []
    ensures r != [] && |r| <= |samples|
  {
    samples[InForceAt(samples, limit)..]
  }

  /** A sample is added to the run, and those no window can reach any more are dropped. */
  function TakenIn(s: State, at: int, v: real, hold: int): State {
    s.(lastV := v, seen := true, belowSince := 0,
       runStart := if s.runStart == 0 then at else s.runStart, samples := InWindow(WithSample(s, at, v), at - hold))
  }

  function RunVerdict(s: State, at: int, hold: int): Outcome
    requires s.samples != []
  {
    if at - s.runStart < hold then Outcome(s, Quiet, 0.0)
    else
      var level := Lowest(s.samples);
      if !s.fired then Outcome(s.(fired := true, level := level), Breach, level)
      else if level > s.level then Outcome(s.(level := level), Escalate, level)
      else Outcome(s, Quiet, 0.0)
  }

  function ObserveAbove(s: State, at: int, v: real, hold: int): Outcome {
    RunVerdict(TakenIn(s, at, v, hold), at, hold)
  }

  function ObserveBelow(s: State, at: int, v: real, hold: int): Outcome {
    var next := s.(lastV := v, seen := true, runStart := 0, samples := []);
    if !s.fired then Outcome(next, Quiet, 0.0)
    else
      var since := if s.belowSince == 0 then at else s.belowSince;
      if at - since < hold then Outcome(next.(belowSince := since), Quiet, 0.0)
      else Outcome(FRESH.(lastV := v, seen := true), Recovered, 0.0)
  }

  function ObserveStep(s: State, at: int, v: real, floor: real, hold: int): Outcome {
    if v >= floor then ObserveAbove(s, at, v, NotNegative(hold))
    else ObserveBelow(s, at, v, NotNegative(hold))
  }

  /** Scanning for the last sample that was in force when the window opened. */
  method FindCut(samples: seq<Timed>, limit: int) returns (cut: nat)
    requires samples != []
    ensures cut == InForceAt(samples, limit)
  {
    cut := 0;
    for i := 1 to |samples|
      invariant cut == InForceAt(samples[..i], limit)
    {
      assert samples[..i + 1][..i] == samples[..i];
      if samples[i].at <= limit {
        cut := i;
      }
    }
    assert samples[..|samples|] == samples;
  }

  method FindLowest(samples: seq<Timed>) returns (lowest: real)
    requires samples != []
    ensures lowest == Lowest(samples)
  {
    lowest := samples[0].v;
    for i := 1 to |samples|
      invariant lowest == Lowest(samples[..i])
    {
      assert samples[..i + 1][..i] == samples[..i];
      if samples[i].v < lowest {
        lowest := samples[i].v;
      }
    }
    assert samples[..|samples|] == samples;
  }

  class Run {
    var runStart: int
    var samples: seq<Timed>
    var fired: bool
    var level: real
    var belowSince: int
    var lastV: real
    var seen: bool

    constructor ()
      ensures View() == FRESH
    {
      runStart, samples, fired, level, belowSince, lastV, seen := 0, [], false, 0.0, 0, 0.0, false;
    }

    ghost function View(): State
      reads this
    {
      State(runStart, samples, fired, level, belowSince, lastV, seen)
    }

    method Observe(at: int, v: real, floor: real, holdMs: int) returns (verdict: Verdict, held: real)
      modifies this
      ensures Outcome(View(), verdict, held) == ObserveStep(old(View()), at, v, floor, holdMs)
    {
      var hold := holdMs;
      if hold < 0 {
        hold := 0;
      }
      if v >= floor {
        verdict, held := PastFloor(at, v, hold);
      } else {
        verdict, held := UnderFloor(at, v, hold);
      }
    }

    /** A run is begun if there is none, and the sample is added. */
    method AddSample(at: int, v: real)
      modifies this`runStart, this`samples
      ensures samples == WithSample(old(View()), at, v)
      ensures runStart == if old(runStart) == 0 then at else old(runStart)
    {
      if runStart == 0 {
        runStart, samples := at, [];
      }
      samples := samples + [Timed(at, v)];
    }

    /** Samples before the one in force at `limit` are dropped. */
    method DropBefore(limit: int)
      requires samples != []
      modifies this`samples
      ensures samples == InWindow(old(samples), limit)
    {
      var cut := FindCut(samples, limit);
      samples := samples[cut..];
    }

    method TakeIn(at: int, v: real, hold: int)
      modifies this
      ensures View() == TakenIn(old(View()), at, v, hold)
    {
      AddSample(at, v);
      DropBefore(at - hold);
      lastV, seen := v, true;
      belowSince := 0;
    }

    method JudgeRun(at: int, hold: int) returns (verdict: Verdict, held: real)
      requires samples != []
      modifies this
      ensures Outcome(View(), verdict, held) == RunVerdict(old(View()), at, hold)
    {
      if at - runStart < hold {
        return Quiet, 0.0;
      }
      held := FindLowest(samples);
      if !fired {
        fired, level := true, held;
        return Breach, held;
      }
      if held > level {
        level := held;
        return Escalate, held;
      }
      return Quiet, 0.0;
    }

    /** The half of `Observe` for a reading at or above the floor. */
    method PastFloor(at: int, v: real, hold: int) returns (verdict: Verdict, held: real)
      modifies this
      ensures Outcome(View(), verdict, held) == ObserveAbove(old(View()), at, v, hold)
    {
      TakeIn(at, v, hold);
      assert View().samples != [];
      verdict, held := JudgeRun(at, hold);
    }

    /** The half for a reading under it: the run is over, and so is any rise it was building. */
    method UnderFloor(at: int, v: real, hold: int) returns (verdict: Verdict, held: real)
      modifies this
      ensures Outcome(View(), verdict, held) == ObserveBelow(old(View()), at, v, hold)
    {
      lastV, seen := v, true;
      runStart, samples := 0, [];
      if !fired {
        return Quiet, 0.0;
      }
      if belowSince == 0 {
        belowSince := at;
      }
      if at - belowSince < hold {
        return Quiet, 0.0;
      }
      runStart, samples, fired, level, belowSince, lastV, seen := 0, [], false, 0.0, 0, v, true;
      return Recovered, 0.0;
    }

    method Tick(at: int, floor: real, holdMs: int) returns (verdict: Verdict, held: real)
      modifies this
      ensures Outcome(View(), verdict, held) == TickStep(old(View()), at, floor, holdMs)
    {
      if !seen {
        return Quiet, 0.0;
      }
      verdict, held := Observe(at, lastV, floor, holdMs);
    }

    method Interrupt()
      modifies this
      ensures View() == InterruptStep(old(View()))
    {
      if !fired {
        runStart, samples, fired, level, belowSince, lastV, seen := 0, [], false, 0.0, 0, 0.0, false;
      }
    }
  }

  function TickStep(s: State, at: int, floor: real, hold: int): Outcome {
    if s.seen then ObserveStep(s, at, s.lastV, floor, hold) else Outcome(s, Quiet, 0.0)
  }

  function InterruptStep(s: State): State {
    if s.fired then s else FRESH
  }
}
