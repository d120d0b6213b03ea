/**
 Myers' greedy shortest edit script over a sparse diagonal map.

 `Common` is the textbook dynamic program for the longest common subsequence of
 two prefixes, stretched past the edit grid: outside it nothing matches, so the
 greedy walk may leave the grid and the same definition still says what its
 endpoints cost. `Furthest` is the greedy recurrence itself. The loops are
 proved to compute `Furthest`, and `Furthest` is proved to be the furthest
 point the dynamic program allows.

 Round `d` ends on the diagonals -d, -d+2, .., d. The i-th of them is 2*i - d,
 and its neighbours in the round before are the (i-1)-th and the i-th.
 */
module Myers {
  import opened Wrappers
  import opened EditScript

  /** One saved round: a missing diagonal reads as 0. */
  type Frontier = map<int, int>

  function At(v: Frontier, k: int): int {
    if k in v then v[k] else 0
  }

  predicate Match<T(==)>(a: seq<T>, b: seq<T>, x: int, y: int) {
    0 <= x < |a| && 0 <= y < |b| && a[x] == b[y]
  }

  // ---- The distance, inside the grid and past it ----------------------------

  ghost function Max(x: nat, y: nat): nat {
    if x <= y then y else x
  }

  ghost function Common<T>(a: seq<T>, b: seq<T>, x: nat, y: nat): nat
    decreases x + y
  {
    if x == 0 || y == 0 then 0
    else if Match(a, b, x - 1, y - 1) then 1 + Common(a, b, x - 1, y - 1)
    else Max(Common(a, b, x - 1, y), Common(a, b, x, y - 1))
  }

  ghost function Dist<T>(a: seq<T>, b: seq<T>, x: nat, y: nat): int {
    x + y - 2 * Common(a, b, x, y)
  }

  lemma {:induction false} CommonBound<T>(a: seq<T>, b: seq<T>, x: nat, y: nat)
    ensures Common(a, b, x, y) <= x && Common(a, b, x, y) <= y
    decreases x + y
  {
    if x > 0 && y > 0 {
      CommonBound(a, b, x - 1, y - 1);
      CommonBound(a, b, x - 1, y);
      CommonBound(a, b, x, y - 1);
    }
  }

  /** One step right or down finds at most one more common line, so it changes the distance by one. */
  lemma {:induction false} CommonStep<T>(a: seq<T>, b: seq<T>, x: nat, y: nat)
    ensures Common(a, b, x, y) <= Common(a, b, x + 1, y) <= Common(a, b, x, y) + 1
    ensures Common(a, b, x, y) <= Common(a, b, x, y + 1) <= Common(a, b, x, y) + 1
    decreases x + y
  {
    if y > 0 {
      CommonStep(a, b, x, y - 1);
    }
    if x > 0 {
      CommonStep(a, b, x - 1, y);
    }
  }

  /** The distance never falls along a diagonal. */
  lemma {:induction false} DistDiagonal<T>(a: seq<T>, b: seq<T>, x: nat, y: nat, t: nat)
    ensures Dist(a, b, x, y) <= Dist(a, b, x + t, y + t)
  {
    if t > 0 {
      DistDiagonal(a, b, x, y, t - 1);
      CommonStep(a, b, x + t - 1, y + t - 1);
    }
  }

  /** Past the grid there is nothing more in common. */
  lemma {:induction false} CommonPastRight<T>(a: seq<T>, b: seq<T>, x: nat, y: nat)
    requires x >= |a|
    ensures Common(a, b, x, y) == Common(a, b, |a|, y)
    decreases x + y
  {
    if x > |a| && y > 0 {
      CommonPastRight(a, b, x - 1, y);
      CommonPastRight(a, b, x, y - 1);
      CommonStep(a, b, |a|, y - 1);
    }
  }

  lemma {:induction false} CommonPastBottom<T>(a: seq<T>, b: seq<T>, x: nat, y: nat)
    requires y >= |b|
    ensures Common(a, b, x, y) == Common(a, b, x, |b|)
    decreases x + y
  {
    if y > |b| && x > 0 {
      CommonPastBottom(a, b, x, y - 1);
      CommonPastBottom(a, b, x - 1, y);
      CommonStep(a, b, x - 1, |b|);
    }
  }

  // ---- The greedy recurrence ------------------------------------------------

  /** Where a diagonal run of agreeing lines ends. */
  ghost function Snake<T>(a: seq<T>, b: seq<T>, x: nat, y: nat): (r: nat)
    ensures r >= x
    decreases |a| - x
  {
    if Match(a, b, x, y) then Snake(a, b, x + 1, y + 1) else x
  }

  /** Where the step into the i-th diagonal of round `d` lands, before its run. */
  ghost function Entry<T>(a: seq<T>, b: seq<T>, d: nat, i: nat): (x: nat)
    requires d > 0 && i <= d
    ensures x >= 2 * i - d
    decreases d, 0
  {
    if i == 0 then Furthest(a, b, d - 1, i)
    else if i == d then Furthest(a, b, d - 1, i - 1) + 1
    else if Furthest(a, b, d - 1, i - 1) < Furthest(a, b, d - 1, i) then Furthest(a, b, d - 1, i)
    else Furthest(a, b, d - 1, i - 1) + 1
  }

  /** How far round `d` gets on its i-th diagonal. */
  ghost function Furthest<T>(a: seq<T>, b: seq<T>, d: nat, i: nat): (x: nat)
    requires i <= d
    ensures x >= 2 * i - d
    decreases d, 1
  {
    if d == 0 then Snake(a, b, 0, 0)
    else
      var x := Entry(a, b, d, i);
      Snake(a, b, x, x - (2 * i - d))
  }

  /** A run of agreeing lines costs nothing, and stops where the lines do not agree. */
  lemma {:induction false} SnakeIsFree<T>(a: seq<T>, b: seq<T>, x: nat, y: nat)
    ensures var r := Snake(a, b, x, y);
            Dist(a, b, r, r - x + y) == Dist(a, b, x, y) && !Match(a, b, r, r - x + y)
    decreases |a| - x
  {
    if Match(a, b, x, y) {
      SnakeIsFree(a, b, x + 1, y + 1);
    }
  }

  /** Every line of the run agrees. */
  lemma {:induction false} SnakeMatches<T>(a: seq<T>, b: seq<T>, x: nat, y: nat, i: nat)
    requires x <= i < Snake(a, b, x, y)
    ensures Match(a, b, i, i - x + y)
    decreases |a| - x
  {
    if x < i {
      SnakeMatches(a, b, x + 1, y + 1, i);
    }
  }

  /** A point past a frontier costs more than its round. */
  lemma BeyondFrontier<T>(a: seq<T>, b: seq<T>, d: nat, f: nat, k: int, x: nat)
    requires f >= k && d < Dist(a, b, f + 1, f + 1 - k)
    requires x > f
    ensures d < Dist(a, b, x, x - k)
  {
    DistDiagonal(a, b, f + 1, f + 1 - k, x - (f + 1));
  }

  /** The step into a diagonal clears both neighbours of the round before. */
  lemma EntryClears<T>(a: seq<T>, b: seq<T>, d: nat, i: nat)
    requires d > 0 && i <= d
    ensures i > 0 ==> Furthest(a, b, d - 1, i - 1) < Entry(a, b, d, i)
    ensures i < d ==> Furthest(a, b, d - 1, i) <= Entry(a, b, d, i)
  {
  }

  /** The two ways past the end of a run both cost at least `d`. */
  lemma {:induction false} DownCost<T>(a: seq<T>, b: seq<T>, d: nat, i: nat, x: nat)
    requires d > 0 && i <= d && x >= Entry(a, b, d, i)
    ensures Dist(a, b, x, x - (2 * i - d) + 1) >= d
    decreases d, 0
  {
    var k := 2 * i - d;
    if i > 0 {
      EntryClears(a, b, d, i);
      GreedyIsFurthest(a, b, d - 1, i - 1);
      BeyondFrontier(a, b, d - 1, Furthest(a, b, d - 1, i - 1), k - 1, x);
    } else {
      CommonBound(a, b, x, x - k + 1);
    }
  }

  lemma {:induction false} RightCost<T>(a: seq<T>, b: seq<T>, d: nat, i: nat, x: nat)
    requires d > 0 && i <= d && x >= Entry(a, b, d, i)
    ensures Dist(a, b, x + 1, x - (2 * i - d)) >= d
    decreases d, 0
  {
    var k := 2 * i - d;
    if i < d {
      EntryClears(a, b, d, i);
      GreedyIsFurthest(a, b, d - 1, i);
      BeyondFrontier(a, b, d - 1, Furthest(a, b, d - 1, i), k + 1, x + 1);
    } else {
      CommonBound(a, b, x + 1, x - k);
    }
  }

  /** A step into a diagonal comes from one of its neighbours. */
  ghost predicate ComesFrom<T>(a: seq<T>, b: seq<T>, d: nat, i: nat, e: nat)
    requires d > 0 && i <= d
  {
    || (i < d && e == Furthest(a, b, d - 1, i))
    || (i > 0 && e == Furthest(a, b, d - 1, i - 1) + 1)
  }

  /** One step more costs at most one more. */
  lemma StepCost<T>(a: seq<T>, b: seq<T>, x: nat, y: nat)
    ensures Dist(a, b, x, y + 1) <= Dist(a, b, x, y) + 1
    ensures Dist(a, b, x + 1, y) <= Dist(a, b, x, y) + 1
  {
    CommonStep(a, b, x, y);
  }

  lemma {:induction false} EntryCost<T>(a: seq<T>, b: seq<T>, d: nat, i: nat, e: nat)
    requires d > 0 && i <= d && e >= 2 * i - d && ComesFrom(a, b, d, i, e)
    ensures Dist(a, b, e, e - (2 * i - d)) <= d
    decreases d, 0
  {
    if i < d && e == Furthest(a, b, d - 1, i) {
      GreedyIsFurthest(a, b, d - 1, i);
      StepCost(a, b, e, e - (2 * i - d) - 1);
    } else {
      GreedyIsFurthest(a, b, d - 1, i - 1);
      StepCost(a, b, e - 1, e - (2 * i - d));
    }
  }

  /** Greedy is furthest: round `d` reaches exactly the points of cost at most `d`. */
  lemma {:induction false} GreedyIsFurthest<T>(a: seq<T>, b: seq<T>, d: nat, i: nat)
    requires i <= d
    ensures var x, k := Furthest(a, b, d, i), 2 * i - d;
            Dist(a, b, x, x - k) <= d < Dist(a, b, x + 1, x + 1 - k)
    decreases d, 1
  {
    var x := Furthest(a, b, d, i);
    if d == 0 {
      SnakeIsFree(a, b, 0, 0);
      CommonBound(a, b, x, x + 1);
      CommonBound(a, b, x + 1, x);
    } else {
      var e := Entry(a, b, d, i);
      EntryCost(a, b, d, i, e);
      SnakeIsFree(a, b, e, e - (2 * i - d));
      DownCost(a, b, d, i, x);
      RightCost(a, b, d, i, x);
    }
  }

  /** So a point of cost at most `d` is never past the round's frontier. */
  lemma WithinFrontier<T>(a: seq<T>, b: seq<T>, d: nat, i: nat, x: nat)
    requires i <= d && x >= 2 * i - d && Dist(a, b, x, x - (2 * i - d)) <= d
    ensures x <= Furthest(a, b, d, i)
  {
    var f := Furthest(a, b, d, i);
    GreedyIsFurthest(a, b, d, i);
    if x > f {
      BeyondFrontier(a, b, d, f, 2 * i - d, x);
    }
  }

  // ---- The edit distance is the distance of the whole lists -----------------

  /** No script is cheaper than the distance of the prefixes it connects. */
  lemma {:induction false} NoScriptIsCheaper<T>(script: seq<Op<T>>, a: seq<T>, b: seq<T>)
    requires OldSide(script) <= a && NewSide(script) <= b
    ensures Dist(a, b, |OldSide(script)|, |NewSide(script)|) <= Cost(script)
  {
    if script != [] {
      var front := script[..|script| - 1];
      var last := script[|script| - 1];
      NoScriptIsCheaper(front, a, b);
      var x, y := |OldSide(front)|, |NewSide(front)|;
      if last.Keep? {
        assert Match(a, b, x, y);
      } else {
        CommonStep(a, b, x, y);
      }
    }
  }

  lemma GrowKeep<T>(front: seq<Op<T>>, a: seq<T>, b: seq<T>, x: nat, y: nat)
    requires 0 < x <= |a| && 0 < y <= |b| && a[x - 1] == b[y - 1] && Transforms(front, a[..x - 1], b[..y - 1])
    ensures Transforms(front + [Keep(a[x - 1])], a[..x], b[..y]) && Cost(front + [Keep(a[x - 1])]) == Cost(front)
  {
    ScriptGrows(front, Keep(a[x - 1]));
  }

  lemma GrowRemove<T>(front: seq<Op<T>>, a: seq<T>, b: seq<T>, x: nat, y: nat)
    requires 0 < x <= |a| && y <= |b| && Transforms(front, a[..x - 1], b[..y])
    ensures Transforms(front + [Remove(a[x - 1])], a[..x], b[..y]) && Cost(front + [Remove(a[x - 1])]) == Cost(front) + 1
  {
    ScriptGrows(front, Remove(a[x - 1]));
  }

  lemma GrowInsert<T>(front: seq<Op<T>>, a: seq<T>, b: seq<T>, x: nat, y: nat)
    requires x <= |a| && 0 < y <= |b| && Transforms(front, a[..x], b[..y - 1])
    ensures Transforms(front + [Insert(b[y - 1])], a[..x], b[..y]) && Cost(front + [Insert(b[y - 1])]) == Cost(front) + 1
  {
    ScriptGrows(front, Insert(b[y - 1]));
  }

  /** Some script is as cheap as the distance. */
  lemma {:induction false} CheapestScript<T>(a: seq<T>, b: seq<T>, x: nat, y: nat) returns (script: seq<Op<T>>)
    requires x <= |a| && y <= |b|
    ensures Transforms(script, a[..x], b[..y])
    ensures Cost(script) == Dist(a, b, x, y)
    decreases x + y
  {
    if x == 0 && y == 0 {
      script := [];
    } else if x > 0 && y > 0 && Match(a, b, x - 1, y - 1) {
      var front := CheapestScript(a, b, x - 1, y - 1);
      GrowKeep(front, a, b, x, y);
      script := front + [Keep(a[x - 1])];
    } else if x > 0 && (y == 0 || Common(a, b, x, y) == Common(a, b, x - 1, y)) {
      var front := CheapestScript(a, b, x - 1, y);
      GrowRemove(front, a, b, x, y);
      script := front + [Remove(a[x - 1])];
    } else {
      var front := CheapestScript(a, b, x, y - 1);
      GrowInsert(front, a, b, x, y);
      script := front + [Insert(b[y - 1])];
    }
  }

  lemma CheapestWhole<T>(a: seq<T>, b: seq<T>) returns (script: seq<Op<T>>)
    ensures Transforms(script, a, b) && Cost(script) == Dist(a, b, |a|, |b|)
  {
    script := CheapestScript(a, b, |a|, |b|);
    assert a[..|a|] == a && b[..|b|] == b;
  }

  lemma NoneIsCheaper<T>(script: seq<Op<T>>, a: seq<T>, b: seq<T>)
    requires Transforms(script, a, b)
    ensures Dist(a, b, |a|, |b|) <= Cost(script)
  {
    NoScriptIsCheaper(script, a, b);
  }

  lemma NonNegative<T>(a: seq<T>, b: seq<T>)
    ensures Dist(a, b, |a|, |b|) >= 0
  {
    CommonBound(a, b, |a|, |b|);
  }

  /** The dynamic program computes the edit distance. */
  lemma DistIsEditDistance<T(!new)>(a: seq<T>, b: seq<T>)
    ensures Dist(a, b, |a|, |b|) >= 0
    ensures IsEditDistance(a, b, Dist(a, b, |a|, |b|))
  {
    NonNegative(a, b);
    var d: nat := Dist(a, b, |a|, |b|);
    var cheapest := CheapestWhole(a, b);
    forall script | Transforms(script, a, b)
      ensures d <= Cost(script)
    {
      NoneIsCheaper(script, a, b);
    }
    assert Transforms(cheapest, a, b) && Cost(cheapest) == d;
  }

  // ---- shortestEdit ---------------------------------------------------------

  /** `v` holds where round `d` gets on its first `count` diagonals. */
  ghost predicate Holds<T>(v: Frontier, a: seq<T>, b: seq<T>, d: nat, count: nat)
    requires count <= d + 1
  {
    forall i: nat :: i < count ==> 2 * i - d in v && v[2 * i - d] == Furthest(a, b, d, i)
  }

  /** The saved rounds: the d-th copy, taken before round `d`, holds where round `d - 1` got. */
  ghost predicate SavedRounds<T>(trace: seq<Frontier>, a: seq<T>, b: seq<T>) {
    forall d :: 1 <= d < |trace| ==> Holds(trace[d], a, b, d - 1, d)
  }

  /** A trace whose last round stopped exactly on the far corner, no round earlier having done so. */
  ghost predicate ValidTrace<T>(trace: seq<Frontier>, a: seq<T>, b: seq<T>, i: nat) {
    && |trace| > 0
    && SavedRounds(trace, a, b)
    && i < |trace|
    && 2 * i - (|trace| - 1) == |a| - |b|
    && Furthest(a, b, |trace| - 1, i) == |a|
    && Dist(a, b, |a|, |b|) == |trace| - 1
  }

  /** The far corner's distance picks out one diagonal of that round. */
  lemma CornerDiagonal<T>(a: seq<T>, b: seq<T>) returns (i: nat)
    ensures 0 <= Dist(a, b, |a|, |b|) <= |a| + |b|
    ensures i <= Dist(a, b, |a|, |b|) && 2 * i - Dist(a, b, |a|, |b|) == |a| - |b|
  {
    CommonBound(a, b, |a|, |b|);
    i := |a| - Common(a, b, |a|, |b|);
  }

  /** Following a diagonal for as long as the lines agree. */
  method FollowDiagonal<T(==)>(a: seq<T>, b: seq<T>, x0: nat, y0: nat) returns (x: nat, y: nat)
    ensures x == Snake(a, b, x0, y0) && y - y0 == x - x0
  {
    x, y := x0, y0;
    while x < |a| && y < |b| && a[x] == b[y]
      invariant x >= x0 && y - y0 == x - x0
      invariant Snake(a, b, x, y) == Snake(a, b, x0, y0)
    {
      x := x + 1;
      y := y + 1;
    }
  }

  /** The move the code picks from a saved round is the one the recurrence makes. */
  lemma SavedEntry<T>(v: Frontier, a: seq<T>, b: seq<T>, d: int, k: int, i: nat)
    requires d > 0 && i <= d && k == 2 * i - d && Holds(v, a, b, d - 1, d)
    ensures var down := k == -d || (k != d && At(v, k - 1) < At(v, k + 1));
            && (down ==> i < d && At(v, k + 1) == Furthest(a, b, d - 1, i) == Entry(a, b, d, i))
            && (!down ==> i > 0 && At(v, k - 1) == Furthest(a, b, d - 1, i - 1) == Entry(a, b, d, i) - 1)
  {
    assert i < d ==> At(v, k + 1) == Furthest(a, b, d - 1, i);
    assert i > 0 ==> At(v, k - 1) == Furthest(a, b, d - 1, i - 1);
  }

  /** One diagonal of one round: step in from a neighbour, then follow the run. */
  method Advance<T(==)>(a: seq<T>, b: seq<T>, v: Frontier, d: int, k: int, ghost i: nat) returns (x: nat, y: nat)
    requires i <= d && k == 2 * i - d
    requires d == 0 ==> At(v, 1) == 0
    requires d > 0 ==> Holds(v, a, b, d - 1, d)
    ensures x == Furthest(a, b, d, i) && y == x - k
  {
    var down := k == -d || (k != d && At(v, k - 1) < At(v, k + 1));
    if d > 0 {
      SavedEntry(v, a, b, d, k, i);
    }
    var x0 := if down then At(v, k + 1) else At(v, k - 1) + 1;
    x, y := FollowDiagonal(a, b, x0, x0 - k);
  }

  /** The stopping test fires on the far corner and nowhere past it. */
  lemma StopsOnCorner<T>(a: seq<T>, b: seq<T>, d: nat, i: nat)
    requires i <= d <= Dist(a, b, |a|, |b|)
    requires Stops(a, b, d, i)
    ensures Furthest(a, b, d, i) == |a| && 2 * i - d == |a| - |b| && Dist(a, b, |a|, |b|) == d
  {
    var x := Furthest(a, b, d, i);
    GreedyIsFurthest(a, b, d, i);
    CommonPastRight(a, b, x, x - (2 * i - d));
    CommonPastBottom(a, b, |a|, x - (2 * i - d));
  }

  /** A round that ends without stopping did not reach the corner. */
  lemma CornerNotReached<T>(a: seq<T>, b: seq<T>, d: nat)
    requires Dist(a, b, |a|, |b|) >= d
    requires forall i: nat :: i <= d ==> !Stops(a, b, d, i)
    ensures Dist(a, b, |a|, |b|) > d
  {
    if Dist(a, b, |a|, |b|) == d {
      var i := CornerDiagonal(a, b);
      WithinFrontier(a, b, d, i, |a|);
      assert Stops(a, b, d, i);
    }
  }

  /** Setting a diagonal of round `d` leaves round `d - 1` readable: the two never share one. */
  lemma SetDiagonal<T>(v: Frontier, a: seq<T>, b: seq<T>, d: nat, i: nat, x: int)
    requires i <= d && x == Furthest(a, b, d, i)
    requires Holds(v, a, b, d, i)
    requires d > 0 ==> Holds(v, a, b, d - 1, d)
    ensures Holds(v[2 * i - d := x], a, b, d, i + 1)
    ensures d > 0 ==> Holds(v[2 * i - d := x], a, b, d - 1, d)
  {
  }

  /** Where round `d` stops, if it does. */
  ghost predicate Stops<T>(a: seq<T>, b: seq<T>, d: nat, i: nat)
    requires i <= d
  {
    Furthest(a, b, d, i) >= |a| && Furthest(a, b, d, i) - (2 * i - d) >= |b|
  }

  /** One round: every diagonal in turn, stopping on the first to pass the far corner. */
  method Round<T(==)>(a: seq<T>, b: seq<T>, v0: Frontier, d: int)
    returns (v: Frontier, stop: bool, ghost i: nat)
    requires d >= 0
    requires d == 0 ==> At(v0, 1) == 0
    requires d > 0 ==> Holds(v0, a, b, d - 1, d)
    ensures stop ==> i <= d && Stops(a, b, d, i)
    ensures !stop ==> Holds(v, a, b, d, d + 1) && forall j: nat :: j <= d ==> !Stops(a, b, d, j)
  {
    v := v0;
    var k := -d;
    i := 0;
    while k <= d
      invariant i <= d + 1 && k == 2 * i - d
      invariant d == 0 && i == 0 ==> At(v, 1) == 0
      invariant d > 0 ==> Holds(v, a, b, d - 1, d)
      invariant Holds(v, a, b, d, i)
      invariant forall j: nat :: j < i ==> !Stops(a, b, d, j)
    {
      var x, y := Advance(a, b, v, d, k, i);
      SetDiagonal(v, a, b, d, i, x);
      v := v[k := x];
      if x >= |a| && y >= |b| {
        return v, true, i;
      }
      k := k + 2;
      i := i + 1;
    }
    stop := false;
  }

  lemma SaveRound<T>(trace: seq<Frontier>, v: Frontier, a: seq<T>, b: seq<T>)
    requires SavedRounds(trace, a, b)
    requires trace != [] ==> Holds(v, a, b, |trace| - 1, |trace|)
    ensures SavedRounds(trace + [v], a, b)
  {
  }

  /**
   Myers' rounds. A trace comes back exactly when the two lists are within
   `maxEdits`, and it has one round more than their distance.
   */
  method ShortestEdit<T(==,!new)>(a: seq<T>, b: seq<T>, maxEdits: nat)
    returns (r: Option<seq<Frontier>>, ghost corner: nat)
    ensures r.Some? ==> ValidTrace(r.value, a, b, corner)
    ensures r.Some? ==> IsEditDistance(a, b, |r.value| - 1)
    ensures forall d: nat :: IsEditDistance(a, b, d) ==> (r.None? <==> d > maxEdits)
  {
    r, corner := Rounds(a, b, maxEdits);
    DistIsEditDistance(a, b);
    DistanceIsUnique(a, b);
  }

  method Rounds<T(==)>(a: seq<T>, b: seq<T>, maxEdits: nat) returns (r: Option<seq<Frontier>>, ghost corner: nat)
    ensures r.Some? ==> ValidTrace(r.value, a, b, corner)
    ensures r.None? <==> Dist(a, b, |a|, |b|) > maxEdits
  {
    corner := CornerDiagonal(a, b);
    var n, m := |a|, |b|;
    var max := maxEdits;
    if n + m < max {
      max := n + m;
    }
    var v: Frontier := map[1 := 0];
    var trace: seq<Frontier> := [];
    var d := 0;
    while d <= max
      invariant 0 <= d <= max + 1
      invariant |trace| == d && SavedRounds(trace, a, b)
      invariant d == 0 ==> At(v, 1) == 0
      invariant d > 0 ==> Holds(v, a, b, d - 1, d)
      invariant Dist(a, b, n, m) >= d
    {
      SaveRound(trace, v, a, b);
      trace := trace + [v];
      var stop;
      ghost var i;
      v, stop, i := Round(a, b, v, d);
      if stop {
        StopsOnCorner(a, b, d, i);
        return Some(trace), i;
      }
      CornerNotReached(a, b, d);
      d := d + 1;
    }
    return None, corner;
  }
}
