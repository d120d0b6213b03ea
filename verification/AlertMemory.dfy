/**
 The alert memory of a router whose report data is not kept, and the gate every
 rule's alert goes through: opened once, closed only if it was open.
 */
module AlertMemory {

  /** The three fields an alert is known by, joined with a byte none of them holds. */
  function MemKey(router: string, alertType: string, subject: string): string {
    router + "\0" + alertType + "\0" + subject
  }

  lemma {:induction false} FirstNul(a: string, b: string, s: string, t: string)
    requires '\0' !in a && '\0' !in b && a + "\0" + s == b + "\0" + t
    ensures a == b && s == t
  {
    NulComesAfter(a, b, s, t);
    NulComesAfter(b, a, t, s);
    assert a == (a + "\0" + s)[..|a|] == (b + "\0" + t)[..|b|] == b;
    assert s == (a + "\0" + s)[|a| + 1..] == (b + "\0" + t)[|b| + 1..] == t;
  }

  lemma NulComesAfter(a: string, b: string, s: string, t: string)
    requires '\0' !in b && a + "\0" + s == b + "\0" + t
    ensures |a| >= |b|
  {
    var x := a + "\0" + s;
    assert x[|a|] == '\0';
    assert forall i :: 0 <= i < |b| ==> x[i] == b[i];
  }

  /** Two alerts share a key only when they are the same router's, type's and subject's. */
  lemma KeysAreDistinct(r: string, t: string, s: string, r': string, t': string, s': string)
    requires '\0' !in r && '\0' !in r' && '\0' !in t && '\0' !in t'
    ensures MemKey(r, t, s) == MemKey(r', t', s') <==> r == r' && t == t' && s == s'
  {
    if MemKey(r, t, s) == MemKey(r', t', s') {
      assert MemKey(r, t, s) == r + "\0" + (t + "\0" + s);
      assert MemKey(r', t', s') == r' + "\0" + (t' + "\0" + s');
      FirstNul(r, r', t + "\0" + s, t' + "\0" + s');
      FirstNul(t, t', s, s');
    }
  }

  // ---- The store ------------------------------------------------------------

  datatype Memory = Memory(open: map<string, int>, next: int)

  const EMPTY := Memory(map[], 0)

  function Forget(m: Memory, key: string): Memory {
    m.(open := m.open - {key})
  }

  function Remember(m: Memory, key: string): Memory {
    Memory(m.open[key := m.next - 1], m.next - 1)
  }

  class MemStore {
    var open: map<string, int>
    var next: int

    constructor ()
      ensures View() == EMPTY
    {
      open, next := map[], 0;
    }

    ghost function View(): Memory
      reads this
    {
      Memory(open, next)
    }

    method HasOpen(router: string, alertType: string, subject: string) returns (ok: bool)
      ensures ok <==> MemKey(router, alertType, subject) in View().open
    {
      ok := MemKey(router, alertType, subject) in open;
    }

    /** Closes an open condition and gives its id, or nothing when nothing was open. */
    method Resolve(router: string, alertType: string, subject: string) returns (ids: seq<int>)
      modifies this
      ensures var k := MemKey(router, alertType, subject);
              && View() == Forget(old(View()), k)
              && ids == if k in old(open) then [old(open)[k]] else []
    {
      var k := MemKey(router, alertType, subject);
      if k !in open {
        assert open - {k} == open;
        return [];
      }
      ids := [open[k]];
      open := open - {k};
    }

    /** Opens a condition, under an id below every one before it. */
    method Record(router: string, alertType: string, subject: string) returns (id: int)
      modifies this
      ensures View() == Remember(old(View()), MemKey(router, alertType, subject))
      ensures id == old(next) - 1
    {
      next := next - 1;
      id := next;
      open := open[MemKey(router, alertType, subject) := id];
    }
  }

  // ---- The stored form of an alert's name -----------------------------------

  predicate IsBlank(c: char) {
    c == ' ' || c == '\t' || c == '\n'
  }

  function Lower(c: char): char {
    if 'A' <= c <= 'Z' then c - 'A' + 'a' else c
  }

  /** Lower case, with each inner stretch of blanks turned into one underscore. */
  function StoredFrom(s: string, space: bool, started: bool): string {
    if s == [] then []
    else if IsBlank(s[0]) then StoredFrom(s[1..], true, started)
    else
      var tail := [Lower(s[0])] + StoredFrom(s[1..], false, true);
      if space && started then ['_'] + tail else tail
  }

  function StoredType(display: string): string {
    StoredFrom(display, false, false)
  }

  method ComputeStoredType(display: string) returns (out: string)
    ensures out == StoredType(display)
  {
    out := [];
    var space := false;
    for i := 0 to |display|
      invariant out + StoredFrom(display[i..], space, |out| > 0) == StoredType(display)
    {
      var ch := display[i];
      assert display[i..][1..] == display[i + 1..];
      if IsBlank(ch) {
        space := true;
      } else {
        var rest := StoredFrom(display[i + 1..], false, true);
        if space && |out| > 0 {
          assert out + (['_'] + ([Lower(ch)] + rest)) == out + ['_'] + [Lower(ch)] + rest;
          out := out + ['_'];
        } else {
          assert out + ([Lower(ch)] + rest) == out + [Lower(ch)] + rest;
        }
        space := false;
        out := out + [Lower(ch)];
      }
    }
  }

  predicate IsStored(s: string) {
    forall i :: 0 <= i < |s| ==> !IsBlank(s[i]) && !('A' <= s[i] <= 'Z')
  }

  lemma {:induction false} StoredFromIsStored(s: string, space: bool, started: bool)
    ensures IsStored(StoredFrom(s, space, started))
  {
    if s != [] {
      if IsBlank(s[0]) {
        StoredFromIsStored(s[1..], true, started);
      } else {
        StoredFromIsStored(s[1..], false, true);
      }
    }
  }

  lemma {:induction false} StoredFromFixes(s: string, started: bool)
    requires IsStored(s)
    ensures StoredFrom(s, false, started) == s
  {
    if s != [] {
      StoredFromFixes(s[1..], true);
      assert [s[0]] + s[1..] == s;
    }
  }

  /** A stored name is its own stored name: a rule may resolve by either form. */
  lemma StoredTypeIsStable(display: string)
    ensures IsStored(StoredType(display))
    ensures StoredType(StoredType(display)) == StoredType(display)
  {
    StoredFromIsStored(display, false, false);
    StoredFromFixes(StoredType(display), false);
  }

  function LowerAll(s: string): (r: string)
    ensures |r| == |s| && forall i :: 0 <= i < |s| ==> r[i] == Lower(s[i])
  {
    if s == [] then [] else [Lower(s[0])] + LowerAll(s[1..])
  }

  predicate IsWord(s: string) {
    s != [] && forall i :: 0 <= i < |s| ==> !IsBlank(s[i])
  }

  lemma {:induction false} WordStored(w: string, rest: string, started: bool)
    requires IsWord(w)
    ensures StoredFrom(w + rest, false, started) == LowerAll(w) + StoredFrom(rest, false, true)
  {
    assert (w + rest)[1..] == w[1..] + rest;
    if |w| > 1 {
      WordStored(w[1..], rest, true);
    } else {
      assert w[1..] + rest == rest;
    }
  }

  lemma SpacedWordStored(b: string)
    requires IsWord(b)
    ensures StoredFrom([' '] + b, false, true) == ['_'] + LowerAll(b)
  {
    assert ([' '] + b)[1..] == b;
    assert b + [] == b;
    WordStored(b, [], true);
  }

  lemma ConcatAssociates(a: string, b: string, c: string)
    ensures a + (b + c) == a + b + c
  {
  }

  /** Two words are stored in lower case with an underscore between them. */
  lemma {:induction false} TwoWordsStored(a: string, b: string)
    requires IsWord(a) && IsWord(b)
    ensures StoredType(a + [' '] + b) == LowerAll(a) + ['_'] + LowerAll(b)
  {
    ConcatAssociates(a, [' '], b);
    WordStored(a, [' '] + b, false);
    SpacedWordStored(b);
    ConcatAssociates(LowerAll(a), ['_'], LowerAll(b));
  }

  // ---- emit -----------------------------------------------------------------

  datatype Fired = Fired(up: bool, alertType: string, resolveType: string, subject: string,
                         supersede: bool, silent: bool)

  function OpenKey(router: string, f: Fired): string {
    MemKey(router, StoredType(f.alertType), f.subject)
  }

  function CloseKey(router: string, f: Fired): string {
    MemKey(router, if f.resolveType == "" then StoredType(f.alertType) else f.resolveType, f.subject)
  }

  /** The resolution that goes out for the alert a superseding one replaces. */
  function Superseded(f: Fired): Fired {
    Fired(true, f.alertType, StoredType(f.alertType), f.subject, false, true)
  }

  datatype Emitted = Emitted(memory: Memory, out: seq<Fired>)

  function EmitStep(m: Memory, router: string, f: Fired): Emitted {
    if f.up then
      var k := CloseKey(router, f);
      Emitted(Forget(m, k), if k in m.open then [f] else [])
    else
      var k := OpenKey(router, f);
      if k !in m.open then Emitted(Remember(m, k), [f])
      else if !f.supersede then Emitted(m, [])
      else Emitted(Remember(Forget(m, k), k), [Superseded(f), f])
  }

  method Emit(store: MemStore, router: string, f: Fired) returns (out: seq<Fired>)
    modifies store
    ensures Emitted(store.View(), out) == EmitStep(old(store.View()), router, f)
  {
    var stored := ComputeStoredType(f.alertType);
    if f.up {
      var resolve := f.resolveType;
      if resolve == "" {
        resolve := stored;
      }
      var ids := store.Resolve(router, resolve, f.subject);
      if |ids| == 0 {
        return [];
      }
      return [f];
    }
    var open := store.HasOpen(router, stored, f.subject);
    if open {
      if !f.supersede {
        return [];
      }
      var stale := store.Resolve(router, stored, f.subject);
      if |stale| > 0 {
        var _ := store.Record(router, stored, f.subject);
        return [Fired(true, f.alertType, stored, f.subject, false, true), f];
      }
    }
    var _ := store.Record(router, stored, f.subject);
    return [f];
  }

  /** Closing an alert without a message, when the feature that raised it is gone. */
  method WithdrawFrom(store: MemStore, router: string, alertType: string, subject: string)
    modifies store
    ensures store.View() == Forget(old(store.View()), MemKey(router, alertType, subject))
  {
    var open := store.HasOpen(router, alertType, subject);
    if !open {
      assert store.open - {MemKey(router, alertType, subject)} == store.open;
      return;
    }
    var _ := store.Resolve(router, alertType, subject);
  }
}
