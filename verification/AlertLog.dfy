/** What any sequence of emitted and withdrawn alerts looks like, alert by alert. */
module AlertLog {
  import opened AlertMemory

  datatype Command =
    | Raise(router: string, fired: Fired)
    | Withdraw(router: string, alertType: string, subject: string)

  datatype Entry = Opened(key: string) | Closed(key: string)

  function EntryOf(router: string, f: Fired): Entry {
    if f.up then Closed(CloseKey(router, f)) else Opened(OpenKey(router, f))
  }

  function Entries(router: string, out: seq<Fired>): seq<Entry> {
    if out == [] then [] else Entries(router, out[..|out| - 1]) + [EntryOf(router, out[|out| - 1])]
  }

  datatype Ledger = Ledger(memory: Memory, log: seq<Entry>)

  /** One command: what it does to the memory, and what it adds to the log. */
  function Perform(l: Ledger, c: Command): Ledger {
    match c
    case Raise(router, fired) =>
      var e := EmitStep(l.memory, router, fired);
      Ledger(e.memory, l.log + Entries(router, e.out))
    case Withdraw(router, alertType, subject) =>
      var k := MemKey(router, alertType, subject);
      Ledger(Forget(l.memory, k), l.log + if k in l.memory.open then [Closed(k)] else [])
  }

  function PerformAll(commands: seq<Command>): Ledger {
    if commands == [] then Ledger(EMPTY, [])
    else Perform(PerformAll(commands[..|commands| - 1]), commands[|commands| - 1])
  }

  // ---- What a log should be -------------------------------------------------

  /** The latest entry for a key opened it. */
  ghost predicate StandsOpen(log: seq<Entry>, key: string) {
    log != []
    && (if log[|log| - 1].key == key then log[|log| - 1].Opened? else StandsOpen(log[..|log| - 1], key))
  }

  /** Every open finds its key closed and every close finds it open: they alternate, an open first. */
  ghost predicate Alternates(log: seq<Entry>) {
    forall i :: 0 <= i < |log| ==> (log[i].Opened? <==> !StandsOpen(log[..i], log[i].key))
  }

  function Opens(log: seq<Entry>): nat {
    if log == [] then 0 else Opens(log[..|log| - 1]) + if log[|log| - 1].Opened? then 1 else 0
  }

  function Closes(log: seq<Entry>): nat {
    if log == [] then 0 else Closes(log[..|log| - 1]) + if log[|log| - 1].Closed? then 1 else 0
  }

  /** Ids count down from -1 and are never used twice. */
  ghost predicate DistinctIds(m: Memory) {
    && m.next <= 0
    && (forall k :: k in m.open ==> m.next <= m.open[k] < 0)
    && (forall k, k' :: k in m.open && k' in m.open && k != k' ==> m.open[k] != m.open[k'])
  }

  ghost predicate Balanced(l: Ledger) {
    && Alternates(l.log)
    && (forall k :: k in l.memory.open <==> StandsOpen(l.log, k))
    && Opens(l.log) - Closes(l.log) == |l.memory.open|
    && DistinctIds(l.memory)
  }

  /** A longer log says the same of its earlier entries. */
  lemma {:induction false} LogGrows(log: seq<Entry>, e: Entry)
    requires Alternates(log) && (e.Opened? <==> !StandsOpen(log, e.key))
    ensures Alternates(log + [e])
    ensures Opens(log + [e]) - Closes(log + [e]) == Opens(log) - Closes(log) + if e.Opened? then 1 else -1
    ensures forall k :: StandsOpen(log + [e], k) <==> if k == e.key then e.Opened? else StandsOpen(log, k)
  {
    var more := log + [e];
    assert more[..|log|] == log;
    forall i | 0 <= i < |log|
      ensures more[..i] == log[..i]
    {
    }
  }

  lemma FreshId(m: Memory, key: string)
    requires DistinctIds(m) && key !in m.open
    ensures DistinctIds(Remember(m, key)) && |Remember(m, key).open| == |m.open| + 1
  {
  }

  lemma {:induction false} OpenOne(l: Ledger, key: string)
    requires Balanced(l) && key !in l.memory.open
    ensures Balanced(Ledger(Remember(l.memory, key), l.log + [Opened(key)]))
  {
    LogGrows(l.log, Opened(key));
    FreshId(l.memory, key);
  }

  lemma OneLess(open: map<string, int>, key: string)
    requires key in open
    ensures |open - {key}| == |open| - 1
  {
    assert open == (open - {key})[key := open[key]];
  }

  lemma {:induction false} CloseOne(l: Ledger, key: string)
    requires Balanced(l) && key in l.memory.open
    ensures Balanced(Ledger(Forget(l.memory, key), l.log + [Closed(key)]))
  {
    LogGrows(l.log, Closed(key));
    OneLess(l.memory.open, key);
  }

  /** Nothing to close: neither the memory nor the log changes. */
  lemma NothingOpen(l: Ledger, key: string)
    requires key !in l.memory.open
    ensures Ledger(Forget(l.memory, key), l.log + []) == l
  {
    assert l.memory.open - {key} == l.memory.open;
    assert l.log + [] == l.log;
  }

  lemma OneEntry(router: string, f: Fired)
    ensures Entries(router, [f]) == [EntryOf(router, f)]
  {
    assert [f][..0] == [];
  }

  lemma CloseBalances(l: Ledger, router: string, f: Fired)
    requires Balanced(l) && f.up
    ensures Balanced(Perform(l, Raise(router, f)))
  {
    var k := CloseKey(router, f);
    if k in l.memory.open {
      CloseOne(l, k);
      OneEntry(router, f);
    } else {
      NothingOpen(l, k);
    }
  }

  lemma OpenBalances(l: Ledger, router: string, f: Fired)
    requires Balanced(l) && !f.up && (OpenKey(router, f) in l.memory.open ==> !f.supersede)
    ensures Balanced(Perform(l, Raise(router, f)))
  {
    if OpenKey(router, f) in l.memory.open {
      assert l.log + [] == l.log;
    } else {
      OpenOne(l, OpenKey(router, f));
      OneEntry(router, f);
    }
  }

  lemma TwoEntries(router: string, f: Fired, g: Fired)
    ensures Entries(router, [f, g]) == [EntryOf(router, f), EntryOf(router, g)]
  {
    assert [f, g][..1] == [f];
    OneEntry(router, f);
  }

  /** Closing a key and opening it again. */
  lemma {:induction false} CloseThenOpen(l: Ledger, key: string)
    requires Balanced(l) && key in l.memory.open
    ensures Balanced(Ledger(Remember(Forget(l.memory, key), key), l.log + [Closed(key), Opened(key)]))
  {
    CloseOne(l, key);
    var closed := Ledger(Forget(l.memory, key), l.log + [Closed(key)]);
    OpenOne(closed, key);
    assert l.log + [Closed(key), Opened(key)] == closed.log + [Opened(key)];
  }

  /** Replacing an open alert logs a close and an open of the same key. */
  lemma {:induction false} SupersedeBalances(l: Ledger, router: string, f: Fired)
    requires Balanced(l) && !f.up && OpenKey(router, f) in l.memory.open && f.supersede
    ensures Balanced(Perform(l, Raise(router, f)))
  {
    CloseThenOpen(l, OpenKey(router, f));
    TwoEntries(router, Superseded(f), f);
  }

  lemma EmitBalances(l: Ledger, router: string, f: Fired)
    requires Balanced(l)
    ensures Balanced(Perform(l, Raise(router, f)))
  {
    if f.up {
      CloseBalances(l, router, f);
    } else if OpenKey(router, f) in l.memory.open && f.supersede {
      SupersedeBalances(l, router, f);
    } else {
      OpenBalances(l, router, f);
    }
  }

  /**
   After any sequence of alerts and withdrawals, of any routers: opens and
   closes alternate for every key, a superseding alert included; a key is in
   memory exactly when it was last opened; opens less closes is the number of
   open keys; and their ids are negative and all different.
   */
  lemma {:induction false} LedgerBalances(commands: seq<Command>)
    ensures Balanced(PerformAll(commands))
  {
    if commands != [] {
      var l := PerformAll(commands[..|commands| - 1]);
      LedgerBalances(commands[..|commands| - 1]);
      match commands[|commands| - 1] {
        case Raise(router, fired) =>
          EmitBalances(l, router, fired);
        case Withdraw(router, alertType, subject) =>
          var k := MemKey(router, alertType, subject);
          if k in l.memory.open {
            CloseOne(l, k);
          } else {
            NothingOpen(l, k);
          }
      }
    }
  }
}
