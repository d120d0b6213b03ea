/**
 The level a sustained run reports is the level that was held.

 The object prunes its samples for good, so if the hold time is lengthened the
 longer window may reach past what is left. That never shows: whenever samples
 have been dropped, the episode has already reported a level at least as high
 as anything the rest of them could still hold.
 */
module SustainedLevel {
  import opened Sustained
  import opened SustainedHistory

  ghost function TimedOf(stretch: seq<Judged>): (r: seq<Timed>)
    ensures |r| == |stretch|
  {
    if stretch == [] then []
    else TimedOf(stretch[..|stretch| - 1]) + [Timed(stretch[|stretch| - 1].at, stretch[|stretch| - 1].v)]
  }

  /** The lowest reading in force at any time since `limit`, over the whole stretch. */
  ghost function Held(stretch: seq<Judged>, limit: int): real
    requires stretch != []
  {
    Lowest(InWindow(TimedOf(stretch), limit))
  }

  /** What the last reading of a stretch held. */
  ghost function HeldNow(stretch: seq<Judged>): real
    requires stretch != []
  {
    var last := stretch[|stretch| - 1];
    Held(stretch, last.at - last.hold)
  }

  /** A reading was in force at some time since `limit`: none after it had been taken by then. */
  ghost predicate IsInForce(stretch: seq<Judged>, i: nat, limit: int) {
    i < |stretch| && forall j :: i < j < |stretch| ==> stretch[j].at > limit
  }

  lemma {:induction false} InForceFrom(samples: seq<Timed>, limit: int)
    requires samples != []
    ensures var cut := InForceAt(samples, limit);
            && (forall i :: cut < i < |samples| ==> samples[i].at > limit)
            && (cut > 0 ==> samples[cut].at <= limit)
  {
    if |samples| > 1 && samples[|samples| - 1].at > limit {
      InForceFrom(samples[..|samples| - 1], limit);
    }
  }

  lemma {:induction false} LowestIs(samples: seq<Timed>)
    requires samples != []
    ensures forall i :: 0 <= i < |samples| ==> Lowest(samples) <= samples[i].v
    ensures exists i :: 0 <= i < |samples| && Lowest(samples) == samples[i].v
  {
    if |samples| > 1 {
      var front := samples[..|samples| - 1];
      LowestIs(front);
      var i :| 0 <= i < |front| && Lowest(front) == front[i].v;
      assert samples[i] == front[i] && samples[|samples| - 1].v == samples[|samples| - 1].v;
    } else {
      assert Lowest(samples) == samples[0].v;
    }
  }

  /** The lowest sample from the one in force on, over all samples. */
  lemma LowestInForce(samples: seq<Timed>, limit: int) returns (k: nat)
    requires samples != []
    ensures k < |samples| && Lowest(InWindow(samples, limit)) == samples[k].v
    ensures forall j :: k < j < |samples| ==> samples[j].at > limit
    ensures forall i :: 0 <= i < |samples| && (forall j :: i < j < |samples| ==> samples[j].at > limit) ==>
              Lowest(InWindow(samples, limit)) <= samples[i].v
  {
    var cut := InForceAt(samples, limit);
    var tail := samples[cut..];
    InForceFrom(samples, limit);
    LowestIs(tail);
    var m :| 0 <= m < |tail| && Lowest(tail) == tail[m].v;
    k := cut + m;
    forall i | 0 <= i < |samples| && (forall j :: i < j < |samples| ==> samples[j].at > limit)
      ensures Lowest(tail) <= samples[i].v
    {
      assert i >= cut && tail[i - cut] == samples[i];
    }
  }

  /** What is held is the least of the readings that were in force within the last one's hold time. */
  lemma HeldIsLeast(stretch: seq<Judged>)
    requires stretch != []
    ensures var limit := stretch[|stretch| - 1].at - stretch[|stretch| - 1].hold;
            && (forall i :: 0 <= i < |stretch| && IsInForce(stretch, i, limit) ==> HeldNow(stretch) <= stretch[i].v)
            && (exists i :: 0 <= i < |stretch| && IsInForce(stretch, i, limit) && HeldNow(stretch) == stretch[i].v)
  {
    var limit := stretch[|stretch| - 1].at - stretch[|stretch| - 1].hold;
    var full := TimedOf(stretch);
    forall i | 0 <= i < |stretch|
      ensures full[i] == Timed(stretch[i].at, stretch[i].v)
    {
      TimedAt(stretch, i);
    }
    var k := LowestInForce(full, limit);
    assert IsInForce(stretch, k, limit);
  }

  // ---- Pruned samples against all of them -----------------------------------

  /** A tail answers for the whole as long as the reading in force is in it. */
  lemma {:induction false} InForceInTail(full: seq<Timed>, c: nat, limit: int)
    requires c < |full|
    ensures InForceAt(full, limit) >= c ==> InForceAt(full[c..], limit) == InForceAt(full, limit) - c
    ensures InForceAt(full, limit) < c ==> InForceAt(full[c..], limit) == 0
  {
    if c < |full| - 1 {
      if full[|full| - 1].at > limit {
        InForceInTail(full[..|full| - 1], c, limit);
        assert full[c..][..|full| - c - 1] == full[..|full| - 1][c..];
      }
    }
  }

  /** No reading is in force before the first: none of the others is early enough. */
  lemma {:induction false} NoneInForce(full: seq<Timed>, limit: int)
    requires full != [] && forall i :: 0 <= i < |full| ==> full[i].at > limit
    ensures InForceAt(full, limit) == 0
  {
    if |full| > 1 {
      NoneInForce(full[..|full| - 1], limit);
    }
  }

  lemma {:induction false} LongerIsLower(full: seq<Timed>, i: nat, c: nat)
    requires i <= c < |full|
    ensures Lowest(full[i..]) <= Lowest(full[c..])
    decreases c - i
  {
    if i < c {
      LongerIsLower(full, i + 1, c);
      LowestPrepended(full, i);
    }
  }

  lemma {:induction false} LowestPrepended(full: seq<Timed>, i: nat)
    requires i + 1 < |full|
    ensures Lowest(full[i..]) <= Lowest(full[i + 1..])
  {
    if i + 2 < |full| {
      LowestPrepended(full[..|full| - 1], i);
      assert full[i..][..|full| - i - 1] == full[..|full| - 1][i..];
      assert full[i + 1..][..|full| - i - 2] == full[..|full| - 1][i + 1..];
    }
  }

  // ---- The invariant --------------------------------------------------------

  ghost predicate IsSuffix(samples: seq<Timed>, full: seq<Timed>) {
    && |samples| <= |full|
    && (forall i :: 0 <= i < |samples| ==> samples[i] == full[|full| - |samples| + i])
  }

  /** The samples kept are a tail; if any were dropped, their level has been reported. */
  ghost predicate PrunedOf(s: State, full: seq<Timed>) {
    && IsSuffix(s.samples, full)
    && (full != [] ==> s.samples != [])
    && (0 < |s.samples| < |full| ==> s.fired && s.level >= Lowest(s.samples))
  }

  ghost predicate Pruned(s: State, stretch: seq<Judged>) {
    PrunedOf(s, TimedOf(stretch))
  }

  /** The readings of a stretch are no earlier than its first. */
  ghost predicate InOrder(stretch: seq<Judged>) {
    forall i :: 0 <= i < |stretch| ==> stretch[i].at >= stretch[0].at
  }

  lemma {:induction false} TimedAt(stretch: seq<Judged>, i: nat)
    requires i < |stretch|
    ensures TimedOf(stretch)[i] == Timed(stretch[i].at, stretch[i].v)
  {
    if i < |stretch| - 1 {
      TimedAt(stretch[..|stretch| - 1], i);
    }
  }

  lemma {:induction false} TimedGrows(stretch: seq<Judged>, j: Judged)
    ensures TimedOf(stretch + [j]) == TimedOf(stretch) + [Timed(j.at, j.v)]
  {
    assert (stretch + [j])[..|stretch|] == stretch;
  }

  /** One more sample: still a tail of the whole. */
  lemma {:induction false} TailWithOneMore(samples: seq<Timed>, full: seq<Timed>, x: Timed)
    requires IsSuffix(samples, full)
    ensures IsSuffix(samples + [x], full + [x])
  {
  }

  /** The lowest of a tail, from the reading in force on, against the lowest of the whole. */
  lemma {:induction false} LowestOfTail(full: seq<Timed>, c: nat, limit: int)
    requires c < |full|
    ensures var tail, i := full[c..], InForceAt(full, limit);
            && (i >= c ==> InWindow(tail, limit) == InWindow(full, limit))
            && (i < c ==> InWindow(tail, limit) == tail && Lowest(InWindow(full, limit)) <= Lowest(tail))
  {
    var tail, i := full[c..], InForceAt(full, limit);
    InForceInTail(full, c, limit);
    if i < c {
      assert tail[0..] == tail;
      LongerIsLower(full, i, c);
    } else {
      assert tail[i - c..] == full[i..];
    }
  }

  /** The same of samples kept that are such a tail. */
  lemma {:induction false} LowestInTail(full: seq<Timed>, kept: seq<Timed>, c: nat, limit: int)
    requires c < |full| && kept == full[c..]
    ensures var lowest, held := Lowest(InWindow(kept, limit)), Lowest(InWindow(full, limit));
            lowest == held || (c > 0 && held <= lowest == Lowest(kept))
  {
    LowestOfTail(full, c, limit);
  }

  lemma {:induction false} HeldWithOneMore(stretch: seq<Judged>, j: Judged)
    ensures HeldNow(stretch + [j]) == Lowest(InWindow(TimedOf(stretch) + [Timed(j.at, j.v)], j.at - j.hold))
  {
    assert (stretch + [j])[|stretch|] == j;
    TimedGrows(stretch, j);
  }

  lemma {:induction false} SuffixIsSlice(samples: seq<Timed>, full: seq<Timed>)
    requires IsSuffix(samples, full)
    ensures samples == full[|full| - |samples|..]
  {
  }

  /** The lowest sample kept is the level held, unless the episode has already reported more than either. */
  lemma {:induction false} LowestKeptOf(s: State, full: seq<Timed>, x: Timed, limit: int)
    requires PrunedOf(s, full)
    ensures var lowest, held := Lowest(InWindow(s.samples + [x], limit)), Lowest(InWindow(full + [x], limit));
            lowest == held || (s.fired && held <= lowest <= s.level)
  {
    var c := |full| - |s.samples|;
    TailWithOneMore(s.samples, full, x);
    SuffixIsSlice(s.samples + [x], full + [x]);
    LowestInTail(full + [x], s.samples + [x], c, limit);
    if 0 < c {
      LowestOfMore(s.samples, x);
    }
  }

  lemma {:induction false} LowestKept(s: State, stretch: seq<Judged>, j: Judged)
    requires Pruned(s, stretch)
    ensures var lowest := Lowest(InWindow(s.samples + [Timed(j.at, j.v)], j.at - j.hold));
            || lowest == HeldNow(stretch + [j])
            || (s.fired && HeldNow(stretch + [j]) <= lowest <= s.level)
  {
    HeldWithOneMore(stretch, j);
    LowestKeptOf(s, TimedOf(stretch), Timed(j.at, j.v), j.at - j.hold);
  }

  /** If every sample is past `limit`, the first of any tail is in force there. */
  lemma {:induction false} NoneCut(samples: seq<Timed>, full: seq<Timed>, x: Timed, more: seq<Timed>, limit: int)
    requires IsSuffix(samples, full) && more == full + [x]
    requires forall i :: 0 <= i < |more| ==> more[i].at > limit
    ensures InForceAt(samples + [x], limit) == 0
  {
    TailWithOneMore(samples, full, x);
    NoneInForce(samples + [x], limit);
  }

  /** Samples go only once the run has lasted the hold time. */
  lemma {:induction false} CutOnlyWhenLasted(s: State, stretch: seq<Judged>, j: Judged)
    requires Pruned(s, stretch) && InOrder(stretch + [j]) && !Lasted(stretch + [j])
    ensures InForceAt(s.samples + [Timed(j.at, j.v)], j.at - j.hold) == 0
  {
    TimedGrows(stretch, j);
    AllPastLimit(stretch, j);
    NoneCut(s.samples, TimedOf(stretch), Timed(j.at, j.v), TimedOf(stretch + [j]), j.at - j.hold);
  }

  /** Before the hold time has passed since the run began, every sample is inside the window. */
  lemma {:induction false} AllPastLimit(stretch: seq<Judged>, j: Judged)
    requires InOrder(stretch + [j]) && !Lasted(stretch + [j])
    ensures var full := TimedOf(stretch + [j]); forall i :: 0 <= i < |full| ==> full[i].at > j.at - j.hold
  {
    var more := stretch + [j];
    assert more[|stretch|] == j;
    forall i | 0 <= i < |more|
      ensures TimedOf(more)[i].at > j.at - j.hold
    {
      TimedAt(more, i);
    }
  }

  lemma {:induction false} LowestOfMore(samples: seq<Timed>, x: Timed)
    requires samples != []
    ensures Lowest(samples + [x]) <= Lowest(samples)
  {
    assert (samples + [x])[..|samples|] == samples;
  }

  /** What one reading at or above the floor makes of the samples and the level. */
  ghost predicate TookIn(s: State, next: State, j: Judged) {
    && next.samples == InWindow(s.samples + [Timed(j.at, j.v)], j.at - j.hold)
    && (j.at - next.runStart < j.hold ==> next.fired == s.fired && next.level == s.level)
    && (j.at - next.runStart >= j.hold ==> next.fired && next.level >= Lowest(next.samples))
    && next.runStart == if s.runStart == 0 then j.at else s.runStart
  }

  lemma {:induction false} RunLevel(s: State, at: int, hold: int)
    requires s.samples != []
    ensures var next := RunVerdict(s, at, hold).state;
            && (at - s.runStart < hold ==> next.fired == s.fired && next.level == s.level)
            && (at - s.runStart >= hold ==> next.fired && next.level >= Lowest(s.samples))
  {
  }

  lemma {:induction false} ReadingIsTaken(s: State, j: Judged)
    requires s.runStart == 0 ==> s.samples == []
    ensures TookIn(s, ObserveAbove(s, j.at, j.v, j.hold).state, j)
  {
    SamplesOfRun(s, j.at, j.v);
    VerdictKeepsRun(TakenIn(s, j.at, j.v, j.hold), j.at, j.hold);
    RunLevel(TakenIn(s, j.at, j.v, j.hold), j.at, j.hold);
  }

  /** Cut again, a tail is still a tail, and its level is still known. */
  lemma {:induction false} CutStaysPruned(next: State, full: seq<Timed>, kept: seq<Timed>, cut: nat)
    requires IsSuffix(kept, full) && cut < |kept|
    requires next.samples == kept[cut..]
    requires (cut == 0 && |kept| == |full|) || (next.fired && next.level >= Lowest(next.samples))
    ensures PrunedOf(next, full)
  {
  }

  /** Before the hold time has passed nothing is cut, so what was reported still covers what was dropped. */
  lemma {:induction false} StillCovered(s: State, stretch: seq<Judged>, j: Judged)
    requires Pruned(s, stretch) && InOrder(stretch + [j]) && !Lasted(stretch + [j])
    ensures var kept := s.samples + [Timed(j.at, j.v)];
            && InForceAt(kept, j.at - j.hold) == 0
            && (|s.samples| < |stretch| ==> s.fired && s.level >= Lowest(kept))
  {
    CutOnlyWhenLasted(s, stretch, j);
    if s.samples != [] {
      LowestOfMore(s.samples, Timed(j.at, j.v));
    }
  }

  lemma {:induction false} PrunedLate(s: State, next: State, full: seq<Timed>, x: Timed, cut: nat, more: seq<Timed>)
    requires PrunedOf(s, full) && cut <= |s.samples| && next.samples == (s.samples + [x])[cut..] && more == full + [x]
    requires next.fired && next.level >= Lowest(next.samples)
    ensures PrunedOf(next, more)
  {
    TailWithOneMore(s.samples, full, x);
    CutStaysPruned(next, more, s.samples + [x], cut);
  }

  lemma {:induction false} WholeWindow(samples: seq<Timed>, limit: int)
    requires samples != [] && InForceAt(samples, limit) == 0
    ensures InWindow(samples, limit) == samples
  {
  }

  lemma {:induction false} PrunedEarly(s: State, next: State, full: seq<Timed>, x: Timed, more: seq<Timed>)
    requires PrunedOf(s, full) && more == full + [x]
    requires next.samples == s.samples + [x] && next.fired == s.fired && next.level == s.level
    requires |s.samples| < |full| ==> s.fired && s.level >= Lowest(s.samples + [x])
    ensures PrunedOf(next, more)
  {
    TailWithOneMore(s.samples, full, x);
  }

  /** Nothing cut: the reading is added to what was kept. */
  lemma {:induction false} TookInWhole(s: State, next: State, j: Judged)
    requires TookIn(s, next, j) && j.at - next.runStart < j.hold
    requires InForceAt(s.samples + [Timed(j.at, j.v)], j.at - j.hold) == 0
    ensures next.samples == s.samples + [Timed(j.at, j.v)] && next.fired == s.fired && next.level == s.level
  {
    WholeWindow(s.samples + [Timed(j.at, j.v)], j.at - j.hold);
  }

  lemma {:induction false} StaysPrunedLate(s: State, next: State, stretch: seq<Judged>, j: Judged, cut: nat)
    requires Pruned(s, stretch) && cut <= |s.samples| && next.samples == (s.samples + [Timed(j.at, j.v)])[cut..]
    requires next.fired && next.level >= Lowest(next.samples)
    ensures Pruned(next, stretch + [j])
  {
    TimedGrows(stretch, j);
    PrunedLate(s, next, TimedOf(stretch), Timed(j.at, j.v), cut, TimedOf(stretch + [j]));
  }

  lemma {:induction false} StaysPrunedEarly(s: State, next: State, stretch: seq<Judged>, j: Judged)
    requires Pruned(s, stretch)
    requires next.samples == s.samples + [Timed(j.at, j.v)] && next.fired == s.fired && next.level == s.level
    requires |s.samples| < |stretch| ==> s.fired && s.level >= Lowest(s.samples + [Timed(j.at, j.v)])
    ensures Pruned(next, stretch + [j])
  {
    TimedGrows(stretch, j);
    PrunedEarly(s, next, TimedOf(stretch), Timed(j.at, j.v), TimedOf(stretch + [j]));
  }

  lemma {:induction false} StaysPruned(s: State, next: State, stretch: seq<Judged>, j: Judged)
    requires Pruned(s, stretch) && s.runStart == Start(stretch) && (stretch == [] <==> s.runStart == 0)
    requires InOrder(stretch + [j]) && TookIn(s, next, j)
    ensures Pruned(next, stretch + [j])
  {
    StartGrows(stretch, j);
    LastedWhen(stretch, j);
    if Lasted(stretch + [j]) {
      StaysPrunedLate(s, next, stretch, j, InForceAt(s.samples + [Timed(j.at, j.v)], j.at - j.hold));
    } else {
      StillCovered(s, stretch, j);
      TookInWhole(s, next, j);
      StaysPrunedEarly(s, next, stretch, j);
    }
  }

  /** What is said of a run, given how its lowest sample compares with a level. */
  lemma {:induction false} SaidOfRun(s: State, at: int, hold: int, held: real)
    requires s.samples != [] && var lowest := Lowest(s.samples); lowest == held || (s.fired && held <= lowest <= s.level)
    ensures var o := RunVerdict(s, at, hold);
            && (o.verdict.Breach? || o.verdict.Escalate? ==> o.level == held)
            && (o.verdict.Escalate? <==> s.fired && at - s.runStart >= hold && held > s.level)
  {
  }

  lemma {:induction false} SaidOfLevel(s: State, stretch: seq<Judged>, j: Judged, held: real)
    requires s.runStart == Start(stretch) && (stretch == [] <==> s.runStart == 0) && (stretch == [] ==> s.samples == [])
    requires var lowest := Lowest(InWindow(s.samples + [Timed(j.at, j.v)], j.at - j.hold));
             lowest == held || (s.fired && held <= lowest <= s.level)
    ensures var o := ObserveAbove(s, j.at, j.v, j.hold);
            && (o.verdict.Breach? || o.verdict.Escalate? ==> o.level == held)
            && (o.verdict.Escalate? <==> s.fired && Lasted(stretch + [j]) && held > s.level)
  {
    SamplesOfRun(s, j.at, j.v);
    StartGrows(stretch, j);
    LastedWhen(stretch, j);
    SaidOfRun(TakenIn(s, j.at, j.v, j.hold), j.at, j.hold, held);
  }

  // ---- Over any sequence of events ------------------------------------------

  ghost predicate TimesInOrder(events: seq<Event>) {
    forall i, j :: 0 <= i < j < |events| && !events[i].Interrupted? && !events[j].Interrupted? ==>
      events[i].at <= events[j].at
  }

  ghost predicate Ascending(history: seq<Judged>) {
    forall i, j :: 0 <= i < j < |history| ==> history[i].at <= history[j].at
  }

  /** The history is in the order of the clock. */
  lemma {:induction false} HistoryAscends(events: seq<Event>, floor: real, now: int)
    requires TimesInOrder(events) && forall i :: 0 <= i < |events| && !events[i].Interrupted? ==> events[i].at <= now
    ensures Ascending(History(events, floor))
    ensures forall i :: 0 <= i < |History(events, floor)| ==> History(events, floor)[i].at <= now
  {
    if events != [] {
      var last := events[|events| - 1];
      HistoryAscends(events[..|events| - 1], floor, if last.Interrupted? then now else last.at);
    }
  }

  lemma {:induction false} AboveAscends(history: seq<Judged>, floor: real)
    requires Ascending(history)
    ensures Ascending(Above(history, floor))
    ensures Above(history, floor) != [] ==>
              Above(history, floor)[|Above(history, floor)| - 1] == history[|history| - 1]
  {
    if history != [] {
      AboveAscends(history[..|history| - 1], floor);
    }
  }

  ghost predicate LevelAsHeld(o: Outcome, stretch: seq<Judged>, open: bool, reported: real) {
    && Pruned(o.state, stretch)
    && (o.verdict.Breach? || o.verdict.Escalate? ==> stretch != [] && o.level == HeldNow(stretch))
    && (o.verdict.Escalate? <==> open && Lasted(stretch) && HeldNow(stretch) > reported)
  }

  lemma {:induction false} StretchInOrder(history: seq<Judged>, floor: real)
    requires Ascending(history)
    ensures InOrder(Above(history, floor))
  {
    AboveAscends(history, floor);
  }

  /** Judging one reading, in terms of the history: what is said, and that the samples stay in step. */
  lemma {:induction false} JudgeLevelAbove(s: State, history: seq<Judged>, floor: real, j: Judged, o: Outcome,
                                           stretch: seq<Judged>, open: bool, reported: real)
    requires s.runStart == Start(Above(history, floor)) && Pruned(s, Above(history, floor))
    requires forall i :: 0 <= i < |history| ==> history[i].at > 0
    requires Ascending(history + [j]) && j.at > 0 && j.v >= floor
    requires (s.fired <==> open) && (open ==> s.level == reported)
    requires o == ObserveAbove(s, j.at, j.v, j.hold) && stretch == Above(history + [j], floor)
    ensures LevelAsHeld(o, stretch, open, reported)
  {
    StretchesGrow(history, j, floor);
    StartMeansStretch(history, floor);
    StretchInOrder(history + [j], floor);
    RunLevelAsHeld(s, Above(history, floor), j, o);
  }

  lemma {:induction false} RunLevelAsHeld(s: State, before: seq<Judged>, j: Judged, o: Outcome)
    requires Pruned(s, before) && s.runStart == Start(before) && (before == [] <==> s.runStart == 0)
    requires InOrder(before + [j]) && o == ObserveAbove(s, j.at, j.v, j.hold)
    ensures LevelAsHeld(o, before + [j], s.fired, s.level)
  {
    ReadingIsTaken(s, j);
    StaysPruned(s, o.state, before, j);
    LowestKept(s, before, j);
    SaidOfLevel(s, before, j, HeldNow(before + [j]));
  }

  lemma {:induction false} JudgeLevel(s: State, history: seq<Judged>, reported: real, floor: real, j: Judged, o: Outcome,
                                      stretch: seq<Judged>, open: bool)
    requires Tracks(s, history, open, reported, floor) && Pruned(s, Above(history, floor)) && j.at > 0
    requires Ascending(history + [j]) && stretch == Above(history + [j], floor)
    requires o == if j.v >= floor then ObserveAbove(s, j.at, j.v, j.hold) else ObserveBelow(s, j.at, j.v, j.hold)
    ensures LevelAsHeld(o, stretch, open, reported)
  {
    if j.v >= floor {
      JudgeLevelAbove(s, history, floor, j, o, stretch, open, reported);
    } else {
      StretchesGrow(history, j, floor);
      BelowSaysNoLevel(s, j);
      QuietLevel(o, stretch, open, reported);
    }
  }

  lemma {:induction false} BelowSaysNoLevel(s: State, j: Judged)
    ensures var o := ObserveBelow(s, j.at, j.v, j.hold);
            o.state.samples == [] && !o.verdict.Breach? && !o.verdict.Escalate?
  {
  }

  /** No level is reported, and none could be. */
  lemma {:induction false} QuietLevel(o: Outcome, stretch: seq<Judged>, open: bool, reported: real)
    requires Pruned(o.state, stretch) && !o.verdict.Breach? && !o.verdict.Escalate? && (stretch == [] || !open)
    ensures LevelAsHeld(o, stretch, open, reported)
  {
  }

  lemma {:induction false} StateIsPruned(events: seq<Event>, floor: real)
    requires Clocked(events) && TimesInOrder(events)
    ensures Pruned(After(events, floor), Above(History(events, floor), floor))
  {
    if events != [] {
      var front := events[..|events| - 1];
      StateIsPruned(front, floor);
      LastEvent(events, floor);
    }
  }

  /** The last event of a sequence, whose samples were in step before it. */
  lemma {:induction false} LastEvent(events: seq<Event>, floor: real)
    requires events != [] && Clocked(events) && TimesInOrder(events)
    requires Pruned(After(events[..|events| - 1], floor), Above(History(events[..|events| - 1], floor), floor))
    ensures LevelAsHeld(Said(events, floor), Above(History(events, floor), floor),
                        JudgesOpen(events, floor), Reported(events[..|events| - 1], floor))
  {
    var front, last := events[..|events| - 1], events[|events| - 1];
    ClockedFront(events);
    StateTracksHistory(front, floor);
    LastStep(events, floor);
    AscendsToLast(events, floor);
    StepLevel(After(front, floor), History(front, floor), IsOpen(front, floor), Reported(front, floor), floor, last,
              History(events, floor), JudgesOpen(events, floor), Said(events, floor), Above(History(events, floor), floor));
  }

  /** The last event judged a reading inside an open episode. */
  ghost predicate JudgesOpen(events: seq<Event>, floor: real)
    requires events != []
  {
    Judges(events, floor) && IsOpen(events[..|events| - 1], floor)
  }

  lemma {:induction false} AscendsToLast(events: seq<Event>, floor: real)
    requires events != [] && TimesInOrder(events)
    ensures !events[|events| - 1].Interrupted? ==> Ascending(History(events, floor))
  {
    var last := events[|events| - 1];
    if !last.Interrupted? {
      HistoryAscends(events, floor, last.at);
    }
  }

  /** A tick with no reading in force, or an interruption, judges nothing. */
  lemma {:induction false} NothingJudged(s: State, past: seq<Judged>, open: bool, reported: real, floor: real, e: Event,
                                         o: Outcome, stretch: seq<Judged>)
    requires Tracks(s, past, open, reported, floor) && Pruned(s, Above(past, floor))
    requires e.Interrupted? || (e.Ticked? && !s.seen)
    requires o == Step(s, e, floor) && stretch == Above(HistoryAfter(past, open, e), floor)
    ensures LevelAsHeld(o, stretch, false, reported)
  {
    if !open {
      assert stretch == [] || stretch == Above(past, floor);
    }
    QuietLevel(o, stretch, false, reported);
  }

  /** The reading an event judges, and the outcome it has. */
  lemma {:induction false} StepJudges(s: State, past: seq<Judged>, open: bool, floor: real, e: Event, v: real)
    requires (s.seen <==> past != []) && (s.seen ==> s.lastV == past[|past| - 1].v)
    requires (e.Reading? && v == e.v) || (e.Ticked? && s.seen && v == s.lastV)
    ensures var j := Judged(e.at, v, NotNegative(e.hold));
            && HistoryAfter(past, open, e) == past + [j]
            && Step(s, e, floor) ==
               if j.v >= floor then ObserveAbove(s, j.at, j.v, j.hold) else ObserveBelow(s, j.at, j.v, j.hold)
  {
  }

  /** What one event says of the level, and that the samples stay in step. */
  lemma {:induction false} StepLevel(s: State, past: seq<Judged>, open: bool, reported: real, floor: real, e: Event,
                                     now: seq<Judged>, judged: bool, o: Outcome, stretch: seq<Judged>)
    requires Tracks(s, past, open, reported, floor) && Pruned(s, Above(past, floor))
    requires now == HistoryAfter(past, open, e) && (judged <==> |now| == |past| + 1 && open)
    requires !e.Interrupted? ==> e.at > 0 && Ascending(now)
    requires o == Step(s, e, floor) && stretch == Above(now, floor)
    ensures LevelAsHeld(o, stretch, judged, reported)
  {
    if e.Reading? || (e.Ticked? && s.seen) {
      var v := if e.Reading? then e.v else s.lastV;
      StepJudges(s, past, open, floor, e, v);
      JudgeLevel(s, past, reported, floor, Judged(e.at, v, NotNegative(e.hold)), o, stretch, judged);
    } else {
      NothingJudged(s, past, open, reported, floor, e, o, stretch);
    }
  }

  /**
   Over every sequence of events on a clock that does not run back, whatever
   the hold times: a reported level is the lowest reading in force over the
   hold time, taken over the whole run and not the pruned samples; and an
   escalation is said exactly when that level rose inside an open episode.
   */
  lemma {:induction false} LevelsAreHeld(events: seq<Event>, floor: real)
    requires events != [] && Clocked(events) && TimesInOrder(events)
    ensures var said := Said(events, floor);
            var front := events[..|events| - 1];
            var stretch := Above(History(events, floor), floor);
            && (said.verdict.Breach? || said.verdict.Escalate? ==> stretch != [] && said.level == HeldNow(stretch))
            && (said.verdict.Escalate? <==>
                  Judges(events, floor) && IsOpen(front, floor) && Lasted(stretch)
                  && HeldNow(stretch) > Reported(front, floor))
  {
    StateIsPruned(events[..|events| - 1], floor);
    LastEvent(events, floor);
  }

  // ---- The order of verdicts ------------------------------------------------

  ghost function SaidAt(events: seq<Event>, floor: real, i: nat): Outcome
    requires i < |events|
  {
    Said(events[..i + 1], floor)
  }

  /** Only a breach opens an episode, and the other verdicts need one open. */
  lemma {:induction false} VerdictsFitEpisodes(events: seq<Event>, floor: real, i: nat)
    requires Clocked(events) && i < |events|
    ensures var said := SaidAt(events, floor, i);
            && (said.verdict.Breach? ==> !IsOpen(events[..i], floor) && IsOpen(events[..i + 1], floor))
            && (said.verdict.Recovered? ==> IsOpen(events[..i], floor) && !IsOpen(events[..i + 1], floor))
            && (said.verdict.Escalate? ==>
                  IsOpen(events[..i], floor) && IsOpen(events[..i + 1], floor)
                  && said.level > Reported(events[..i], floor))
            && (said.verdict.Breach? || said.verdict.Escalate? ==> Reported(events[..i + 1], floor) == said.level)
            && (said.verdict.Quiet? ==>
                  (IsOpen(events[..i + 1], floor) <==> IsOpen(events[..i], floor))
                  && Reported(events[..i + 1], floor) == Reported(events[..i], floor))
  {
    VerdictsAreDue(events[..i + 1], floor);
    assert events[..i + 1][..i] == events[..i];
  }

  /** An episode stays open until a recovery, and what it reported is only ever exceeded. */
  lemma {:induction false} EpisodeGoesOn(events: seq<Event>, floor: real, i: nat, j: nat)
    requires Clocked(events) && i <= j <= |events| && IsOpen(events[..i], floor)
    requires forall k :: i <= k < j ==> !SaidAt(events, floor, k).verdict.Recovered?
    ensures IsOpen(events[..j], floor)
    ensures Reported(events[..i], floor) <= Reported(events[..j], floor)
  {
    if i < j {
      EpisodeGoesOn(events, floor, i, j - 1);
      VerdictsFitEpisodes(events, floor, j - 1);
      assert !SaidAt(events, floor, j - 1).verdict.Recovered?;
    }
  }

  lemma {:induction false} NoEpisodeUntil(events: seq<Event>, floor: real, i: nat, j: nat)
    requires Clocked(events) && i <= j <= |events| && !IsOpen(events[..i], floor)
    requires forall k :: i <= k < j ==> !SaidAt(events, floor, k).verdict.Breach?
    ensures !IsOpen(events[..j], floor)
  {
    if i < j {
      NoEpisodeUntil(events, floor, i, j - 1);
      VerdictsFitEpisodes(events, floor, j - 1);
      assert !SaidAt(events, floor, j - 1).verdict.Breach?;
    }
  }

  /** Breaches and recoveries alternate: between two breaches there is a recovery, */
  lemma {:induction false} BreachesAlternate(events: seq<Event>, floor: real, i: nat, j: nat)
    requires Clocked(events) && i < j < |events|
    requires SaidAt(events, floor, i).verdict.Breach? && SaidAt(events, floor, j).verdict.Breach?
    ensures exists k :: i < k < j && SaidAt(events, floor, k).verdict.Recovered?
  {
    VerdictsFitEpisodes(events, floor, i);
    VerdictsFitEpisodes(events, floor, j);
    if forall k :: i + 1 <= k < j ==> !SaidAt(events, floor, k).verdict.Recovered? {
      EpisodeGoesOn(events, floor, i + 1, j);
    }
  }

  /** between two recoveries there is a breach, */
  lemma {:induction false} RecoveriesAlternate(events: seq<Event>, floor: real, i: nat, j: nat)
    requires Clocked(events) && i < j < |events|
    requires SaidAt(events, floor, i).verdict.Recovered? && SaidAt(events, floor, j).verdict.Recovered?
    ensures exists k :: i < k < j && SaidAt(events, floor, k).verdict.Breach?
  {
    VerdictsFitEpisodes(events, floor, i);
    VerdictsFitEpisodes(events, floor, j);
    if forall k :: i + 1 <= k < j ==> !SaidAt(events, floor, k).verdict.Breach? {
      NoEpisodeUntil(events, floor, i + 1, j);
    }
  }

  /** and a breach comes before any recovery or escalation. */
  lemma {:induction false} BreachComesFirst(events: seq<Event>, floor: real, j: nat)
    requires Clocked(events) && j < |events|
    requires SaidAt(events, floor, j).verdict.Recovered? || SaidAt(events, floor, j).verdict.Escalate?
    ensures exists k :: 0 <= k < j && SaidAt(events, floor, k).verdict.Breach?
  {
    VerdictsFitEpisodes(events, floor, j);
    if forall k :: 0 <= k < j ==> !SaidAt(events, floor, k).verdict.Breach? {
      NoEpisodeUntil(events, floor, 0, j);
    }
  }

  /** Inside one episode every escalation exceeds everything reported before it. */
  lemma {:induction false} LevelsRise(events: seq<Event>, floor: real, i: nat, j: nat)
    requires Clocked(events) && i < j < |events|
    requires SaidAt(events, floor, i).verdict.Breach? || SaidAt(events, floor, i).verdict.Escalate?
    requires SaidAt(events, floor, j).verdict.Escalate?
    requires forall k :: i < k < j ==> !SaidAt(events, floor, k).verdict.Recovered?
    ensures SaidAt(events, floor, i).level < SaidAt(events, floor, j).level
  {
    VerdictsFitEpisodes(events, floor, i);
    VerdictsFitEpisodes(events, floor, j);
    EpisodeGoesOn(events, floor, i + 1, j);
  }
}
