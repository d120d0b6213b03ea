/**
 The automatic revert: arming it, taking it away, proving that a login still
 gets through, and waiting for it when none does.
 */
module Revert {
  import opened Wrappers
  import opened Router
  import opened Deploy

  class DeadMan {
    const name: string
    const armedAt: int
    var settled: bool

    constructor (name: string, armedAt: int)
      ensures this.name == name && this.armedAt == armedAt && !settled
    {
      this.name, this.armedAt, settled := name, armedAt, false;
    }
  }

  /** The scheduler was found, had not run, and was removed. */
  ghost predicate IsDisarmed(trace: seq<Event>, name: string, i: nat) {
    && i + 1 < |trace|
    && trace[i].FindScheduler? && trace[i].name == name
    && trace[i].rows.Some? && |trace[i].rows.value| > 0 && !trace[i].rows.value[0].hasRun
    && trace[i + 1] == RemoveScheduler(trace[i].rows.value[0].id, true)
  }

  /** A login was answered by a router that booted no earlier than a little before the revert was due. */
  ghost predicate HasReverted(trace: seq<Event>, armedAt: int, i: nat) {
    && i + 1 < |trace|
    && trace[i].Login? && trace[i].identity.Some?
    && trace[i + 1].ReadClock?
    && trace[i + 1].now - trace[i].identity.value.uptime >= armedAt + DEAD_MAN_AFTER - BOOT_SLACK
  }

  /** The revert armed at `armed` was taken away in time. */
  ghost predicate WasDisarmed(trace: seq<Event>, armed: nat) {
    armed < |trace| && trace[armed].AddScheduler? && DisarmedSince(trace, armed + 1, trace[armed].name)
  }

  /** The revert of this name was taken away in time, at `from` or later. */
  ghost predicate DisarmedSince(trace: seq<Event>, from: nat, name: string) {
    exists i: nat :: i >= from && IsDisarmed(trace, name, i)
  }

  /** Looking for a revert is what disarming it begins with. */
  ghost predicate NoFinds(trace: seq<Event>, from: nat, to: nat)
    requires to <= |trace|
  {
    forall i :: from <= i < to ==> !trace[i].FindScheduler?
  }

  /** It is known from the exchanges in which something was looked for. */
  lemma DisarmedLater(trace: seq<Event>, from: nat, to: nat, name: string)
    requires from <= to <= |trace| && NoFinds(trace, from, to)
    ensures DisarmedSince(trace, from, name) <==> DisarmedSince(trace, to, name)
  {
  }

  /** It has fired, as far as the router's own uptime shows. */
  ghost predicate WasReverted(trace: seq<Event>, armed: nat) {
    && armed + 1 < |trace| && trace[armed + 1].ReadClock?
    && var at := trace[armed + 1].now; exists i: nat :: i > armed && HasReverted(trace, at, i)
  }

  method Arm(env: Env) returns (dm: Option<DeadMan>, ghost armed: nat)
    modifies env
    ensures old(env.trace) <= env.trace && HarmlessFrom(env.trace, |old(env.trace)|)
    ensures dm.Some? ==>
              && fresh(dm.value) && !dm.value.settled
              && |old(env.trace)| + 3 == armed && |env.trace| == armed + 2
              && ArmedAt(env.trace, armed, dm.value.name, dm.value.armedAt)
    ensures forall i :: |old(env.trace)| <= i < |env.trace| && env.trace[i].AddScheduler? && env.trace[i].ok ==>
              dm.Some? && i == armed
    ensures NoSets(env.trace, |old(env.trace)|, |env.trace|)
    ensures dm.None? ==> ArmRefuses(env.trace, "dead-man")
  {
    armed := |env.trace| + 3;
    var name: Option<string> := Answer();
    env.Exchange(MintRevert(name));
    if name.None? {
      return None, armed;
    }
    var ok: bool := Answer();
    env.Exchange(SaveRevert(name.value, ok));
    if !ok {
      return None, armed;
    }
    ok := Answer();
    env.Exchange(AwaitRevert(name.value, ok));
    if !ok {
      return None, armed;
    }
    ok := Answer();
    env.Exchange(AddScheduler(name.value, ok));
    if !ok {
      return None, armed;
    }
    var now := env.Now();
    var d := new DeadMan(name.value, now);
    dm := Some(d);
  }

  /** A removal right after a lookup by name, of the scheduler found, which had not run. */
  ghost predicate IsDisarmAttempt(trace: seq<Event>, name: string, i: nat) {
    && 0 < i < |trace|
    && trace[i - 1].FindScheduler? && trace[i - 1].name == name
    && trace[i - 1].rows.Some? && |trace[i - 1].rows.value| > 0 && !trace[i - 1].rows.value[0].hasRun
    && trace[i].RemoveScheduler? && trace[i].id == trace[i - 1].rows.value[0].id
  }

  /** Takes the revert away, unless it has fired or will not go. */
  method Disarm(env: Env, d: DeadMan) returns (ok: bool)
    modifies env, d`settled
    ensures old(env.trace) < env.trace && |env.trace| <= |old(env.trace)| + 2
    ensures env.trace[|old(env.trace)|].FindScheduler? && env.trace[|old(env.trace)|].name == d.name
    ensures ok <==> IsDisarmed(env.trace, d.name, |old(env.trace)|)
    ensures d.settled == (ok || old(d.settled))
    ensures forall i :: |old(env.trace)| < i < |env.trace| ==>
              env.trace[i].RemoveScheduler? && IsDisarmAttempt(env.trace, d.name, i)
    ensures env.clock >= old(env.clock)
  {
    var rows: Option<seq<Row>> := Answer();
    env.Exchange(FindScheduler(d.name, rows));
    if rows.None? || |rows.value| == 0 || rows.value[0].hasRun {
      return false;
    }
    ok := Answer();
    env.Exchange(RemoveScheduler(rows.value[0].id, ok));
    if !ok {
      return false;
    }
    d.settled := true;
  }

  predicate IsQuiet(e: Event) {
    e.Login? || e.ReadClock? || e.Sleep?
  }

  /** A login reached the planned router before a look at the clock showed the window that begins at `from` was up. */
  ghost predicate GotThrough(trace: seq<Event>, from: nat, want: Identity, window: int) {
    && from < |trace| && trace[from].ReadClock?
    && exists l :: from < l < |trace| && IsLoginTo(trace[l], want) && InWindow(trace, from, l, window)
  }

  ghost predicate InWindow(trace: seq<Event>, from: nat, to: nat, window: int)
    requires from < to <= |trace| && trace[from].ReadClock?
  {
    forall k :: from < k < to && trace[k].ReadClock? ==> trace[k].now < trace[from].now + window
  }

  /** The window was up with no login to the planned router in it. */
  ghost predicate ShutOut(trace: seq<Event>, from: nat, want: Identity, window: int) {
    && from < |trace| && trace[from].ReadClock?
    && exists k :: from < k < |trace| && trace[k].ReadClock? && trace[k].now >= trace[from].now + window
                   && (forall l :: from < l < k ==> !IsLoginTo(trace[l], want))
  }

  ghost predicate IsInOrOut(trace: seq<Event>, from: nat, want: Identity, window: int) {
    GotThrough(trace, from, want, window) <==> !ShutOut(trace, from, want, window)
  }

  lemma NeverBoth(trace: seq<Event>, from: nat, want: Identity, window: int)
    ensures !(GotThrough(trace, from, want, window) && ShutOut(trace, from, want, window))
  {
    if !ShutOut(trace, from, want, window) {
      return;
    }
    var k :| from < k < |trace| && trace[k].ReadClock? && trace[k].now >= trace[from].now + window
             && (forall l :: from < l < k ==> !IsLoginTo(trace[l], want));
    forall l | from < l < |trace| && IsLoginTo(trace[l], want)
      ensures !InWindow(trace, from, l, window)
    {
      assert l > k;
    }
  }

  /** Whatever comes after, being let in or shut out stays so. */
  lemma LetInOrOut(trace: seq<Event>, more: seq<Event>, from: nat, want: Identity, window: int)
    requires trace <= more && IsInOrOut(trace, from, want, window)
    ensures IsInOrOut(more, from, want, window)
    ensures GotThrough(more, from, want, window) <==> GotThrough(trace, from, want, window)
  {
    assert forall k :: 0 <= k < |trace| ==> more[k] == trace[k];
    if GotThrough(trace, from, want, window) {
      var l :| from < l < |trace| && IsLoginTo(trace[l], want) && InWindow(trace, from, l, window);
      assert IsLoginTo(more[l], want) && InWindow(more, from, l, window);
    } else {
      var k :| from < k < |trace| && trace[k].ReadClock? && trace[k].now >= trace[from].now + window
               && (forall l :: from < l < k ==> !IsLoginTo(trace[l], want));
      assert more[k].ReadClock? && (forall l :: from < l < k ==> !IsLoginTo(more[l], want));
    }
    NeverBoth(more, from, want, window);
  }

  /** New logins until one reaches the planned router or the window closes. */
  method FreshLogin(env: Env, want: Identity, window: int) returns (ok: bool)
    modifies env
    ensures old(env.trace) < env.trace
    ensures forall i :: |old(env.trace)| <= i < |env.trace| ==> IsQuiet(env.trace[i])
    ensures ok <==> GotThrough(env.trace, |old(env.trace)|, want, window)
    ensures !ok <==> ShutOut(env.trace, |old(env.trace)|, want, window)
    ensures !ok ==> env.clock >= old(env.clock) + window
    ensures env.clock >= old(env.clock)
  {
    var now := env.Now();
    var deadline := now + window;
    while true
      invariant old(env.trace) < env.trace && env.clock >= old(env.clock)
      invariant forall i :: |old(env.trace)| <= i < |env.trace| ==> IsQuiet(env.trace[i])
      invariant forall i :: |old(env.trace)| <= i < |env.trace| ==> !IsLoginTo(env.trace[i], want)
      invariant deadline >= old(env.clock) + window
      invariant env.trace[|old(env.trace)|].ReadClock? && deadline == env.trace[|old(env.trace)|].now + window
      invariant InWindow(env.trace, |old(env.trace)|, |env.trace|, window)
      decreases deadline - env.clock
    {
      var id: Option<Identity> := Answer();
      ghost var at := |env.trace|;
      env.Exchange(Login(id));
      if id.Some? && SameRouter(id.value, want) {
        assert IsLoginTo(env.trace[at], want) && InWindow(env.trace, |old(env.trace)|, at, window);
        NeverBoth(env.trace, |old(env.trace)|, want, window);
        return true;
      }
      now := env.Now();
      if now >= deadline {
        assert env.trace[|env.trace| - 1] == ReadClock(now);
        NeverBoth(env.trace, |old(env.trace)|, want, window);
        return false;
      }
      env.Wait(3_000);
    }
  }

  ghost predicate IsLoginTo(e: Event, want: Identity) {
    e.Login? && e.identity.Some? && IsPlanned(e.identity.value, want)
  }

  /** No login since `from` showed that the revert has fired. */
  ghost predicate NotReverted(trace: seq<Event>, from: nat, armedAt: int) {
    forall i: nat :: from <= i ==> !HasReverted(trace, armedAt, i)
  }

  lemma NotRevertedYet(trace: seq<Event>, more: seq<Event>, from: nat, armedAt: int)
    requires trace <= more && trace != [] && NotReverted(trace, from, armedAt)
    requires !(trace[|trace| - 1].Login? && trace[|trace| - 1].identity.Some?)
    requires NotReverted(more, |trace|, armedAt)
    ensures NotReverted(more, from, armedAt)
  {
    forall i: nat | from <= i
      ensures !HasReverted(more, armedAt, i)
    {
      if i + 1 < |trace| {
        assert more[i] == trace[i] && more[i + 1] == trace[i + 1];
        assert !HasReverted(trace, armedAt, i);
      } else if i < |trace| {
        assert more[i] == trace[i];
      }
    }
  }

  /** Some login since `from` was answered. */
  ghost predicate IsAnswered(trace: seq<Event>, from: nat) {
    exists i :: from <= i < |trace| && trace[i].Login? && trace[i].identity.Some?
  }

  lemma AnsweredSoFar(trace: seq<Event>, more: seq<Event>, from: nat)
    requires from <= |trace| && trace <= more
    ensures IsAnswered(more, from) <==> IsAnswered(trace, from) || IsAnswered(more, |trace|)
  {
    assert forall i :: 0 <= i < |trace| ==> more[i] == trace[i];
    if IsAnswered(trace, from) {
      var i :| from <= i < |trace| && trace[i].Login? && trace[i].identity.Some?;
      assert more[i].Login? && more[i].identity.Some?;
    }
  }

  /** One more login while waiting for the revert, and whether the router has booted since it was due. */
  method AskAgain(env: Env, armedAt: int) returns (answered: bool, reverted: bool, ghost at: nat)
    modifies env
    ensures old(env.trace) < env.trace && env.clock >= old(env.clock) + 5_000
    ensures forall i :: |old(env.trace)| <= i < |env.trace| ==> IsQuiet(env.trace[i])
    ensures at == |old(env.trace)| + 1 && (reverted <==> HasReverted(env.trace, armedAt, at))
    ensures answered <==> IsAnswered(env.trace, |old(env.trace)|)
    ensures !reverted ==> NotReverted(env.trace, |old(env.trace)|, armedAt)
    ensures var last := env.trace[|env.trace| - 1]; !(last.Login? && last.identity.Some?)
  {
    var due := armedAt + DEAD_MAN_AFTER;
    env.Wait(5_000);
    var id: Option<Identity> := Answer();
    at := |env.trace|;
    env.Exchange(Login(id));
    if id.None? {
      return false, false, at;
    }
    answered := true;
    var now := env.Now();
    assert env.trace[at].Login? && env.trace[at].identity.Some?;
    reverted := now - id.value.uptime >= due - BOOT_SLACK;
  }

  /** What is said of a router that did not let this program in, or would not give up its revert. */
  ghost predicate IsLockedOut(out: Outcome, out0: Outcome, armed: bool) {
    && out.backup == out0.backup && out.part == out0.part
    && (out.reverted ==> armed && out.state.Failed? && out.code == "reverted" && out.holds.HoldsNone?)
    && (!out.reverted ==>
          && out.state.Unknown? && (out.code == "locked-out" || (armed && out.code == "not-reverted"))
          && out.holds == if armed || out0.holds.HoldsAll? then HoldsUnknown else out0.holds)
  }

  /** The ending when no login gets through: wait for the revert, and claim it only on evidence. */
  method LockedOut(env: Env, dm: Option<DeadMan>, out0: Outcome) returns (out: Outcome, ghost seenAt: nat)
    requires dm.Some? ==> !dm.value.settled
    modifies env, if dm.Some? then {dm.value} else {}
    ensures old(env.trace) <= env.trace
    ensures forall i :: |old(env.trace)| <= i < |env.trace| ==> IsQuiet(env.trace[i])
    ensures IsLockedOut(out, out0, dm.Some?)
    ensures dm.Some? ==> dm.value.settled == out.reverted
    ensures out.reverted ==> |old(env.trace)| <= seenAt && HasReverted(env.trace, dm.value.armedAt, seenAt)
    ensures dm.Some? && !out.reverted ==> env.clock >= dm.value.armedAt + COME_BACK_WINDOW
    ensures dm.Some? && !out.reverted ==> NotReverted(env.trace, |old(env.trace)|, dm.value.armedAt)
    ensures out.code == if out.reverted then "reverted"
                        else if dm.Some? && IsAnswered(env.trace, |old(env.trace)|) then "not-reverted"
                        else "locked-out"
  {
    seenAt := 0;
    out := out0.(reverted := false);
    if dm.None? {
      out := out.(state := Unknown, code := "locked-out");
      if out.holds.HoldsAll? {
        out := out.(holds := HoldsUnknown);
      }
      return;
    }
    var d := dm.value;
    var answered := false;
    var deadline := d.armedAt + COME_BACK_WINDOW;
    var now := env.Now();
    while now < deadline
      invariant old(env.trace) <= env.trace && !d.settled && now <= env.clock
      invariant forall i :: |old(env.trace)| <= i < |env.trace| ==> IsQuiet(env.trace[i])
      invariant |old(env.trace)| < |env.trace| && env.trace[|env.trace| - 1].ReadClock?
      invariant NotReverted(env.trace, |old(env.trace)|, d.armedAt)
      invariant answered <==> IsAnswered(env.trace, |old(env.trace)|)
      decreases deadline - now
    {
      ghost var before := env.trace;
      var reply, reverted;
      reply, reverted, seenAt := AskAgain(env, d.armedAt);
      if reply {
        answered := true;
      }
      if reverted {
        d.settled := true;
        out := out.(state := Failed, code := "reverted", holds := HoldsNone, reverted := true);
        return;
      }
      NotRevertedYet(before, env.trace, |old(env.trace)|, d.armedAt);
      AnsweredSoFar(before, env.trace, |old(env.trace)|);
      before := env.trace;
      now := env.Now();
      NotRevertedYet(before, env.trace, |old(env.trace)|, d.armedAt);
      AnsweredSoFar(before, env.trace, |old(env.trace)|);
    }
    out := out.(state := Unknown, holds := HoldsUnknown, code := if answered then "not-reverted" else "locked-out");
  }
}
