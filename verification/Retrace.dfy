/**
 The walk back through the saved rounds of a search, from the far corner to the
 origin, into an edit script.
 */
module Retrace {
  import opened EditScript
  import opened Myers

  function Reversed<T>(s: seq<T>): (r: seq<T>)
    ensures |r| == |s|
  {
    if s == [] then [] else [s[|s| - 1]] + Reversed(s[..|s| - 1])
  }

  lemma {:induction false} ReversedAt<T>(s: seq<T>, i: nat)
    requires i < |s|
    ensures Reversed(s)[i] == s[|s| - 1 - i]
  {
    if i > 0 {
      ReversedAt(s[..|s| - 1], i - 1);
    }
  }

  /** The steps walked back so far, read forwards, take the rest of `a` to the rest of `b`. */
  ghost predicate Covers<T>(back: seq<Op<T>>, a: seq<T>, b: seq<T>, x: int, y: int, cost: nat) {
    && 0 <= x <= |a| && 0 <= y <= |b|
    && Transforms(Reversed(back), a[x..], b[y..])
    && Cost(Reversed(back)) == cost
  }

  lemma CoversOneMore<T>(back: seq<Op<T>>, op: Op<T>, a: seq<T>, b: seq<T>, x: int, y: int, cost: nat)
    requires Covers(back, a, b, x, y, cost)
    ensures op.Keep? && x > 0 && y > 0 && op.text == a[x - 1] == b[y - 1] ==>
              Covers(back + [op], a, b, x - 1, y - 1, cost)
    ensures op.Remove? && x > 0 && op.text == a[x - 1] ==> Covers(back + [op], a, b, x - 1, y, cost + 1)
    ensures op.Insert? && y > 0 && op.text == b[y - 1] ==> Covers(back + [op], a, b, x, y - 1, cost + 1)
  {
    assert (back + [op])[..|back|] == back;
    SidesOfConcat([op], Reversed(back));
    assert OldSide([op]) == if op.Insert? then [] else [op.text] by {
      assert [op][..0] == [];
    }
    assert NewSide([op]) == if op.Remove? then [] else [op.text] by {
      assert [op][..0] == [];
    }
    assert Cost([op]) == if op.Keep? then 0 else 1;
    if x > 0 {
      assert [a[x - 1]] + a[x..] == a[x - 1..];
    }
    if y > 0 {
      assert [b[y - 1]] + b[y..] == b[y - 1..];
    }
  }

  /** Walking back along the run that round `d` followed, to where it stepped in. */
  method RetraceRun<T(==)>(a: seq<T>, b: seq<T>, x0: int, y0: int, prevX: int, prevY: int,
                           back0: seq<Op<T>>, ghost cost: nat, ghost entry: nat)
    returns (x: int, y: int, back: seq<Op<T>>)
    requires Covers(back0, a, b, x0, y0, cost)
    requires entry - x0 + y0 >= 0 && Snake(a, b, entry, entry - x0 + y0) == x0
    requires (entry == prevX && entry - x0 + y0 > prevY) || (entry > prevX && entry - x0 + y0 == prevY)
    ensures Covers(back, a, b, x, y, cost)
    ensures x == entry && y == entry - x0 + y0
  {
    x, y, back := x0, y0, back0;
    while x > prevX && y > prevY
      invariant entry <= x <= x0 && y - x == y0 - x0
      invariant Covers(back, a, b, x, y, cost)
    {
      SnakeMatches(a, b, entry, entry - x0 + y0, x - 1);
      CoversOneMore(back, Keep(a[x - 1]), a, b, x, y, cost);
      x := x - 1;
      y := y - 1;
      back := back + [Keep(a[x])];
    }
  }

  /** Walking back over a round's one edit. */
  method RetraceEdit<T(==)>(a: seq<T>, b: seq<T>, x0: int, y0: int, prevX: int, back0: seq<Op<T>>, ghost cost: nat)
    returns (x: int, y: int, back: seq<Op<T>>)
    requires Covers(back0, a, b, x0, y0, cost)
    requires if x0 > prevX then x0 > 0 else y0 > 0
    ensures Covers(back, a, b, x, y, cost + 1)
    ensures if x0 > prevX then x == x0 - 1 && y == y0 else x == x0 && y == y0 - 1
  {
    x, y, back := x0, y0, back0;
    if x > prevX {
      CoversOneMore(back, Remove(a[x - 1]), a, b, x, y, cost);
      x := x - 1;
      back := back + [Remove(a[x])];
    } else {
      CoversOneMore(back, Insert(b[y - 1]), a, b, x, y, cost);
      y := y - 1;
      back := back + [Insert(b[y])];
    }
  }

  /** The run the first round followed from the origin. */
  method RetraceStart<T(==)>(a: seq<T>, b: seq<T>, x0: int, y0: int, back0: seq<Op<T>>, ghost cost: nat)
    returns (back: seq<Op<T>>)
    requires x0 == y0 == Snake(a, b, 0, 0) && Covers(back0, a, b, x0, y0, cost)
    ensures Covers(back, a, b, 0, 0, cost)
  {
    var x, y := x0, y0;
    back := back0;
    while x > 0 && y > 0
      invariant 0 <= x == y <= x0
      invariant Covers(back, a, b, x, y, cost)
    {
      SnakeMatches(a, b, 0, 0, x - 1);
      CoversOneMore(back, Keep(a[x - 1]), a, b, x, y, cost);
      x := x - 1;
      y := y - 1;
      back := back + [Keep(a[x])];
    }
  }

  /** One round walked back: along its run, then over its one edit, to where the round before it got. */
  method RetraceRound<T(==)>(a: seq<T>, b: seq<T>, v: Frontier, d: int, x0: int, y0: int,
                             back0: seq<Op<T>>, ghost cost: nat, ghost i0: nat)
    returns (x: int, y: int, back: seq<Op<T>>, ghost i: nat)
    requires d > 0 && Holds(v, a, b, d - 1, d) && IsReachedBy(a, b, d, i0, x0, y0)
    requires Covers(back0, a, b, x0, y0, cost)
    ensures IsReachedBy(a, b, d - 1, i, x, y)
    ensures Covers(back, a, b, x, y, cost + 1)
  {
    var k := x0 - y0;
    var down := k == -d || (k != d && At(v, k - 1) < At(v, k + 1));
    SavedEntry(v, a, b, d, k, i0);
    var prevK := k - 1;
    if down {
      prevK := k + 1;
    }
    i := if down then i0 else i0 - 1;
    var prevX := At(v, prevK);
    var prevY := prevX - prevK;
    x, y, back := RetraceRun(a, b, x0, y0, prevX, prevY, back0, cost, Entry(a, b, d, i0));
    x, y, back := RetraceEdit(a, b, x, y, prevX, back, cost);
  }

  /** Reversing a list by swapping from both ends. */
  method Reverse<T>(s: seq<T>) returns (r: seq<T>)
    ensures r == Reversed(s)
  {
    r := s;
    var i, j := 0, |s| - 1;
    while i < j
      invariant 0 <= i <= j + 2 && i + j == |s| - 1
      invariant |r| == |s|
      invariant forall t :: 0 <= t < |s| && (t < i || t > j) ==> r[t] == s[|s| - 1 - t]
      invariant forall t :: i <= t <= j ==> r[t] == s[t]
    {
      r := r[i := r[j]][j := r[i]];
      i, j := i + 1, j - 1;
    }
    forall t | 0 <= t < |s|
      ensures r[t] == Reversed(s)[t]
    {
      ReversedAt(s, t);
    }
  }

  /** Every round walked back in turn, from the far corner to where the first one got. */
  method RetraceRounds<T(==)>(trace: seq<Frontier>, a: seq<T>, b: seq<T>, ghost corner: nat)
    returns (x: int, y: int, back: seq<Op<T>>)
    requires ValidTrace(trace, a, b, corner)
    ensures x == y == Furthest(a, b, 0, 0) && Covers(back, a, b, x, y, |trace| - 1)
  {
    x, y, back := |a|, |b|, [];
    var d := |trace| - 1;
    ghost var i: nat := corner;
    NothingCovered(a, b);
    while d > 0
      invariant 0 <= d <= |trace| - 1 && IsReachedBy(a, b, d, i, x, y)
      invariant Covers(back, a, b, x, y, |trace| - 1 - d)
    {
      SavedBefore(trace, a, b, d);
      x, y, back, i := RetraceRound(a, b, trace[d], d, x, y, back, |trace| - 1 - d, i);
      d := d - 1;
    }
  }

  /** A point is where round `d` got on its i-th diagonal. */
  ghost predicate IsReachedBy<T>(a: seq<T>, b: seq<T>, d: nat, i: nat, x: int, y: int) {
    i <= d && x == Furthest(a, b, d, i) && x - y == 2 * i - d
  }

  lemma SavedBefore<T>(trace: seq<Frontier>, a: seq<T>, b: seq<T>, d: nat)
    requires SavedRounds(trace, a, b) && 0 < d < |trace|
    ensures Holds(trace[d], a, b, d - 1, d)
  {
  }

  lemma NothingCovered<T>(a: seq<T>, b: seq<T>)
    ensures Covers<T>([], a, b, |a|, |b|, 0)
  {
    assert a[|a|..] == [] && b[|b|..] == [];
  }

  lemma AllCovered<T>(back: seq<Op<T>>, a: seq<T>, b: seq<T>, cost: nat)
    requires Covers(back, a, b, 0, 0, cost)
    ensures Transforms(Reversed(back), a, b) && Cost(Reversed(back)) == cost
  {
    assert a[0..] == a && b[0..] == b;
  }

  /**
   The script behind a trace. Every index it takes is in range, its lines are
   exactly the two inputs, and it makes as many edits as the trace has rounds
   after its first: no script makes fewer.
   */
  method Backtrack<T(==)>(trace: seq<Frontier>, a: seq<T>, b: seq<T>, ghost corner: nat)
    returns (ops: seq<Op<T>>)
    requires ValidTrace(trace, a, b, corner)
    ensures Transforms(ops, a, b)
    ensures Cost(ops) == |trace| - 1
  {
    var x, y, back := RetraceRounds(trace, a, b, corner);
    back := RetraceStart(a, b, x, y, back, |trace| - 1);
    AllCovered(back, a, b, |trace| - 1);
    ops := Reverse(back);
  }
}
