/**
 The VPN rule: a tunnel that was connected and is not any more has an open
 alert, and it closes when the tunnel connects again. The rule sees only the
 previous state of each name, and forgets names when it holds too many.
 */
module VpnRule {
  import opened AlertMemory

  const ACTIVE := "active"

  /** The alert's display name, and the stored form that opens and resolves it. */
  const DOWN := "VPN" + [' '] + "Disconnected"
  const DISCONNECTED := "vpn" + ['_'] + "disconnected"

  /** How many names are held before the absent ones are dropped. */
  const STATE_MAX: nat := 500

  datatype Tunnel = Tunnel(name: string, state: string)

  function Down(name: string): Fired {
    Fired(false, DOWN, "", name, false, false)
  }

  function Up(name: string): Fired {
    Fired(true, "VPN Connected", DISCONNECTED, name, false, false)
  }

  datatype Rule = Rule(prev: map<string, string>, memory: Memory)

  datatype Ruled = Ruled(rule: Rule, out: seq<Fired>)

  /** One tunnel of a reading. */
  function TunnelStep(r: Rule, router: string, t: Tunnel): Ruled {
    var wasConn := t.name in r.prev && r.prev[t.name] == ACTIVE;
    var isConn := t.state == ACTIVE;
    if t.name in r.prev && wasConn != isConn then
      var e := EmitStep(r.memory, router, if isConn then Up(t.name) else Down(t.name));
      Ruled(Rule(r.prev[t.name := t.state], e.memory), e.out)
    else Ruled(Rule(r.prev[t.name := t.state], r.memory), [])
  }

  function TunnelSteps(r: Rule, router: string, tunnels: seq<Tunnel>): Ruled {
    if tunnels == [] then Ruled(r, [])
    else
      var before := TunnelSteps(r, router, tunnels[..|tunnels| - 1]);
      var last := TunnelStep(before.rule, router, tunnels[|tunnels| - 1]);
      Ruled(last.rule, before.out + last.out)
  }

  function Live(tunnels: seq<Tunnel>): set<string> {
    set t | t in tunnels :: t.name
  }

  /** Past the bound, only the names of the current reading are kept. */
  function CapMap<V>(m: map<string, V>, live: set<string>): map<string, V> {
    if |m| <= STATE_MAX then m else map k | k in m && k in live :: m[k]
  }

  /** One reading: every tunnel in turn, then the bound. */
  function ReadingStep(r: Rule, router: string, tunnels: seq<Tunnel>): Ruled {
    var all := TunnelSteps(r, router, tunnels);
    all.(rule := all.rule.(prev := CapMap(all.rule.prev, Live(tunnels))))
  }

  class Evaluator {
    var store: MemStore
    var prevState: map<string, string>

    constructor (store: MemStore)
      ensures this.store == store && prevState == map[]
    {
      this.store, prevState := store, map[];
    }

    ghost function View(): Rule
      reads this, store
    {
      Rule(prevState, store.View())
    }

    method VpnUpdate(routerId: string, alertsEnabled: bool, tunnels: seq<Tunnel>) returns (out: seq<Fired>)
      modifies this`prevState, store
      ensures routerId == "" || !alertsEnabled ==> View() == old(View()) && out == []
      ensures routerId != "" && alertsEnabled ==>
                Ruled(View(), out) == ReadingStep(old(View()), routerId, tunnels)
    {
      out := [];
      if routerId == "" || !alertsEnabled {
        return;
      }
      var live: set<string> := {};
      for i := 0 to |tunnels|
        invariant store == old(store)
        invariant Ruled(View(), out) == TunnelSteps(old(View()), routerId, tunnels[..i])
        invariant live == Live(tunnels[..i])
      {
        var t := tunnels[i];
        assert tunnels[..i + 1][..i] == tunnels[..i];
        assert Live(tunnels[..i + 1]) == Live(tunnels[..i]) + {t.name} by {
          assert tunnels[..i + 1] == tunnels[..i] + [t];
        }
        var more := Judge(routerId, t);
        out := out + more;
        live := live + {t.name};
      }
      assert tunnels[..|tunnels|] == tunnels;
      prevState := CapMap(prevState, live);
    }

    /** The body of the loop over one reading's tunnels. */
    method Judge(routerId: string, t: Tunnel) returns (out: seq<Fired>)
      modifies this`prevState, store
      ensures Ruled(View(), out) == TunnelStep(old(View()), routerId, t)
    {
      out := [];
      var seen := t.name in prevState;
      var wasConn := seen && prevState[t.name] == ACTIVE;
      var isConn := t.state == ACTIVE;
      if seen && wasConn != isConn {
        if !isConn {
          out := Emit(store, routerId, Down(t.name));
        } else {
          out := Emit(store, routerId, Up(t.name));
        }
      }
      prevState := prevState[t.name := t.state];
    }
  }

  // ---- The history of one tunnel --------------------------------------------

  /** The states a name has been seen in, oldest first. */
  ghost function StatesOf(tunnels: seq<Tunnel>, name: string): seq<string> {
    if tunnels == [] then []
    else
      var rest := StatesOf(tunnels[..|tunnels| - 1], name);
      if tunnels[|tunnels| - 1].name == name then rest + [tunnels[|tunnels| - 1].state] else rest
  }

  /** It is not connected now, and it was before. */
  ghost predicate WentDown(states: seq<string>) {
    states != [] && states[|states| - 1] != ACTIVE && ACTIVE in states
  }

  ghost function AlertKey(router: string, name: string): string {
    MemKey(router, DISCONNECTED, name)
  }

  /** What the rule holds about a name it has not forgotten. */
  ghost predicate Knows(r: Rule, router: string, name: string, states: seq<string>) {
    && (name in r.prev <==> states != [])
    && (states != [] ==> r.prev[name] == states[|states| - 1])
    && (AlertKey(router, name) in r.memory.open <==> WentDown(states))
  }

  lemma KeysDiffer(router: string, a: string, b: string)
    requires AlertKey(router, a) == AlertKey(router, b)
    ensures a == b
  {
    var p := router + "\0" + DISCONNECTED + "\0";
    assert AlertKey(router, a) == p + a && AlertKey(router, b) == p + b;
    assert a == (p + a)[|p|..] && b == (p + b)[|p|..];
  }

  lemma VpnLowered()
    ensures IsWord("VPN") && LowerAll("VPN") == "vpn"
  {
  }

  /** Of a capitalised second word only the capital is changed. */
  lemma {:induction false} CapitalisedStored(a: string, b: string, c: char, rest: string)
    requires IsWord(a) && IsWord(b) && b == [c] + rest
    requires forall i :: 0 <= i < |rest| ==> Lower(rest[i]) == rest[i]
    ensures StoredType(a + [' '] + b) == LowerAll(a) + ['_'] + ([Lower(c)] + rest)
  {
    TwoWordsStored(a, b);
    assert LowerAll(b) == [Lower(c)] + rest;
  }

  lemma DownIsStored()
    ensures StoredType(DOWN) == DISCONNECTED
  {
    VpnLowered();
    assert "Disconnected" == ['D'] + "isconnected" && "disconnected" == ['d'] + "isconnected";
    CapitalisedStored("VPN", "Disconnected", 'D', "isconnected");
  }

  /** One tunnel judged: what is known of its own name is brought up to date, and of others stays. */
  lemma TunnelKnows(r: Rule, router: string, t: Tunnel, name: string, states: seq<string>)
    requires Knows(r, router, name, states)
    ensures Knows(TunnelStep(r, router, t).rule, router, name, if t.name == name then states + [t.state] else states)
  {
    DownIsStored();
    if t.name != name && AlertKey(router, t.name) == AlertKey(router, name) {
      KeysDiffer(router, t.name, name);
    }
    assert OpenKey(router, Down(t.name)) == AlertKey(router, t.name);
    assert CloseKey(router, Up(t.name)) == AlertKey(router, t.name);
  }

  lemma {:induction false} TunnelsKnow(r: Rule, router: string, tunnels: seq<Tunnel>, name: string, past: seq<Tunnel>)
    requires Knows(r, router, name, StatesOf(past, name))
    ensures Knows(TunnelSteps(r, router, tunnels).rule, router, name, StatesOf(past + tunnels, name))
  {
    if tunnels == [] {
      assert past + tunnels == past;
    } else {
      var front := tunnels[..|tunnels| - 1];
      TunnelsKnow(r, router, front, name, past);
      assert (past + tunnels)[..|past + tunnels| - 1] == past + front;
      TunnelKnows(TunnelSteps(r, router, front).rule, router, tunnels[|tunnels| - 1], name,
                  StatesOf(past + front, name));
    }
  }

  // ---- Any run of readings --------------------------------------------------

  function RunReadings(router: string, readings: seq<seq<Tunnel>>): Rule {
    if readings == [] then Rule(map[], EMPTY)
    else ReadingStep(RunReadings(router, readings[..|readings| - 1]), router, readings[|readings| - 1]).rule
  }

  ghost function Flatten(readings: seq<seq<Tunnel>>): seq<Tunnel> {
    if readings == [] then [] else Flatten(readings[..|readings| - 1]) + readings[|readings| - 1]
  }

  /** The names held just before the bound is applied to the last reading. */
  ghost function HeldBeforeCap(router: string, readings: seq<seq<Tunnel>>): map<string, string>
    requires readings != []
  {
    TunnelSteps(RunReadings(router, readings[..|readings| - 1]), router, readings[|readings| - 1]).rule.prev
  }

  /** Some reading found too many names held, this one among them, and did not carry it. */
  ghost predicate Forgotten(router: string, readings: seq<seq<Tunnel>>, name: string) {
    readings != []
    && (Forgotten(router, readings[..|readings| - 1], name)
        || (|HeldBeforeCap(router, readings)| > STATE_MAX
            && name in HeldBeforeCap(router, readings) && name !in Live(readings[|readings| - 1])))
  }

  /**
   Over any run of readings, from a fresh evaluator and an empty memory: the
   disconnected alert of a name that was never forgotten is open exactly when
   the name is not connected now and was before.
   */
  lemma {:induction false} AlertFollowsTunnel(router: string, readings: seq<seq<Tunnel>>, name: string)
    requires !Forgotten(router, readings, name)
    ensures Knows(RunReadings(router, readings), router, name, StatesOf(Flatten(readings), name))
  {
    if readings != [] {
      var front := readings[..|readings| - 1];
      AlertFollowsTunnel(router, front, name);
      TunnelsKnow(RunReadings(router, front), router, readings[|readings| - 1], name, Flatten(front));
    }
  }

  // ---- What is announced ----------------------------------------------------

  /** A name is announced as it goes down and as it comes back, and at no other time. */
  ghost function Announce(before: seq<string>, after: seq<string>, name: string): seq<Fired> {
    if !WentDown(before) && WentDown(after) then [Down(name)]
    else if WentDown(before) && !WentDown(after) then [Up(name)]
    else []
  }

  /** What the tunnels of one reading announce, one after the other. */
  ghost function Announced(past: seq<Tunnel>, tunnels: seq<Tunnel>): seq<Fired> {
    if tunnels == [] then []
    else
      var front, name := tunnels[..|tunnels| - 1], tunnels[|tunnels| - 1].name;
      Announced(past, front) + Announce(StatesOf(past + front, name), StatesOf(past + tunnels, name), name)
  }

  /** One tunnel judged announces what became of its own name, if that was known. */
  lemma TunnelAnnounces(r: Rule, router: string, t: Tunnel, states: seq<string>)
    requires Knows(r, router, t.name, states)
    ensures TunnelStep(r, router, t).out == Announce(states, states + [t.state], t.name)
  {
    DownIsStored();
    assert OpenKey(router, Down(t.name)) == AlertKey(router, t.name);
    assert CloseKey(router, Up(t.name)) == AlertKey(router, t.name);
    assert forall i :: 0 <= i < |states| ==> (states + [t.state])[i] == states[i];
  }

  lemma StatesGrow(past: seq<Tunnel>, tunnels: seq<Tunnel>, name: string)
    requires tunnels != []
    ensures var front, t := tunnels[..|tunnels| - 1], tunnels[|tunnels| - 1];
            StatesOf(past + tunnels, name) ==
              if t.name == name then StatesOf(past + front, name) + [t.state] else StatesOf(past + front, name)
  {
    assert (past + tunnels)[..|past + tunnels| - 1] == past + tunnels[..|tunnels| - 1];
  }

  lemma {:induction false} TunnelsAnnounce(r: Rule, router: string, tunnels: seq<Tunnel>, past: seq<Tunnel>)
    requires forall t :: t in tunnels ==> Knows(r, router, t.name, StatesOf(past, t.name))
    ensures TunnelSteps(r, router, tunnels).out == Announced(past, tunnels)
  {
    if tunnels != [] {
      var front, t := tunnels[..|tunnels| - 1], tunnels[|tunnels| - 1];
      TunnelsAnnounce(r, router, front, past);
      TunnelsKnow(r, router, front, t.name, past);
      TunnelAnnounces(TunnelSteps(r, router, front).rule, router, t, StatesOf(past + front, t.name));
      StatesGrow(past, tunnels, t.name);
    }
  }

  /**
   Over any run of readings, what the last one announces when none of its
   names was forgotten before: in the order of its tunnels, every name that
   went down and every name that came back.
   */
  lemma LastReadingAnnounces(router: string, readings: seq<seq<Tunnel>>)
    requires readings != []
    requires forall t :: t in readings[|readings| - 1] ==> !Forgotten(router, readings[..|readings| - 1], t.name)
    ensures var front, last := readings[..|readings| - 1], readings[|readings| - 1];
            ReadingStep(RunReadings(router, front), router, last).out == Announced(Flatten(front), last)
  {
    var front, last := readings[..|readings| - 1], readings[|readings| - 1];
    forall t | t in last
      ensures Knows(RunReadings(router, front), router, t.name, StatesOf(Flatten(front), t.name))
    {
      AlertFollowsTunnel(router, front, t.name);
    }
    TunnelsAnnounce(RunReadings(router, front), router, last, Flatten(front));
  }

  /** The announcements about one name. */
  ghost function About(fired: seq<Fired>, name: string): seq<Fired> {
    if fired == [] then []
    else
      var last := fired[|fired| - 1];
      About(fired[..|fired| - 1], name) + if last.subject == name then [last] else []
  }

  lemma AboutOneMore(fired: seq<Fired>, more: seq<Fired>, name: string)
    requires |more| <= 1
    ensures About(fired + more, name) == About(fired, name) + if more != [] && more[0].subject == name then more else []
  {
    if more == [] {
      assert fired + more == fired;
    } else {
      assert (fired + more)[..|fired|] == fired;
    }
  }

  lemma SaysOwn(r: Rule, router: string, t: Tunnel)
    ensures var out := TunnelStep(r, router, t).out; |out| <= 1 && (out != [] ==> out[0].subject == t.name)
  {
  }

  lemma {:induction false} AboutGrows(r: Rule, router: string, tunnels: seq<Tunnel>, name: string)
    requires tunnels != []
    ensures var front, t := tunnels[..|tunnels| - 1], tunnels[|tunnels| - 1];
            var before := TunnelSteps(r, router, front);
            About(TunnelSteps(r, router, tunnels).out, name) ==
              About(before.out, name) + if t.name == name then TunnelStep(before.rule, router, t).out else []
  {
    var before := TunnelSteps(r, router, tunnels[..|tunnels| - 1]);
    var t := tunnels[|tunnels| - 1];
    var last := TunnelStep(before.rule, router, t);
    SaysOwn(before.rule, router, t);
    AboutOneMore(before.out, last.out, name);
  }

  ghost predicate IsCarried(tunnels: seq<Tunnel>, name: string) {
    exists i :: 0 <= i < |tunnels| && tunnels[i].name == name
  }

  ghost predicate IsCarriedOnce(tunnels: seq<Tunnel>, name: string) {
    exists i :: 0 <= i < |tunnels| && tunnels[i].name == name
                && forall j :: 0 <= j < |tunnels| && tunnels[j].name == name ==> j == i
  }

  lemma {:induction false} NotCarried(r: Rule, router: string, tunnels: seq<Tunnel>, name: string, past: seq<Tunnel>)
    requires !IsCarried(tunnels, name)
    ensures About(TunnelSteps(r, router, tunnels).out, name) == [] && StatesOf(past + tunnels, name) == StatesOf(past, name)
  {
    if tunnels == [] {
      assert past + tunnels == past;
    } else {
      var front, t := tunnels[..|tunnels| - 1], tunnels[|tunnels| - 1];
      NotCarried(r, router, front, name, past);
      AboutGrows(r, router, tunnels, name);
      StatesGrow(past, tunnels, name);
    }
  }

  lemma {:induction false} CarriedOnce(r: Rule, router: string, tunnels: seq<Tunnel>, name: string, past: seq<Tunnel>)
    requires Knows(r, router, name, StatesOf(past, name)) && IsCarriedOnce(tunnels, name)
    ensures About(TunnelSteps(r, router, tunnels).out, name)
            == Announce(StatesOf(past, name), StatesOf(past + tunnels, name), name)
  {
    var front, t := tunnels[..|tunnels| - 1], tunnels[|tunnels| - 1];
    var i :| 0 <= i < |tunnels| && tunnels[i].name == name
             && forall j :: 0 <= j < |tunnels| && tunnels[j].name == name ==> j == i;
    AboutGrows(r, router, tunnels, name);
    StatesGrow(past, tunnels, name);
    if t.name == name {
      NotCarried(r, router, front, name, past);
      TunnelsKnow(r, router, front, name, past);
      TunnelAnnounces(TunnelSteps(r, router, front).rule, router, t, StatesOf(past, name));
    } else {
      assert front[i].name == name;
      CarriedOnce(r, router, front, name, past);
    }
  }

  /**
   What the last reading says about a name it carries once, whatever became of
   the others: that it went down exactly when it did, that it came back exactly
   when it did, and otherwise nothing.
   */
  lemma NameIsAnnounced(router: string, readings: seq<seq<Tunnel>>, name: string)
    requires readings != [] && IsCarriedOnce(readings[|readings| - 1], name)
    requires !Forgotten(router, readings[..|readings| - 1], name)
    ensures var front, last := readings[..|readings| - 1], readings[|readings| - 1];
            About(ReadingStep(RunReadings(router, front), router, last).out, name)
            == Announce(StatesOf(Flatten(front), name), StatesOf(Flatten(readings), name), name)
  {
    var front, last := readings[..|readings| - 1], readings[|readings| - 1];
    AlertFollowsTunnel(router, front, name);
    CarriedOnce(RunReadings(router, front), router, last, name, Flatten(front));
  }

  /** Nothing is forgotten while no more than the bound of names are held. */
  lemma {:induction false} NothingForgotten(router: string, readings: seq<seq<Tunnel>>, name: string)
    requires forall i :: 0 < i <= |readings| ==> |HeldBeforeCap(router, readings[..i])| <= STATE_MAX
    ensures !Forgotten(router, readings, name)
  {
    if readings != [] {
      var front := readings[..|readings| - 1];
      assert readings[..|readings|] == readings;
      forall i | 0 < i <= |front|
        ensures |HeldBeforeCap(router, front[..i])| <= STATE_MAX
      {
        assert front[..i] == readings[..i];
      }
      NothingForgotten(router, front, name);
    }
  }

  /**
   What forgetting comes to, a result in its own right: the bound drops names
   only past `STATE_MAX`, only absent ones, and all of those; the rest keep
   their state.
   */
  lemma CapDropsOnlyAbsent<V>(m: map<string, V>, live: set<string>, name: string)
    ensures name in m && name !in CapMap(m, live) <==> name in m && |m| > STATE_MAX && name !in live
    ensures name in CapMap(m, live) ==> name in m && CapMap(m, live)[name] == m[name]
  {
  }
}
