/**
 Edit scripts between two lists of lines, and the two independent measures the
 diff engine is judged against: the cheapest script, and the longest common
 subsequence.
 */
module EditScript {

  datatype Op<T> =
    | Keep(text: T)
    | Remove(text: T)
    | Insert(text: T)

  /** The lines a script reads: everything but its insertions. */
  function OldSide<T>(script: seq<Op<T>>): seq<T> {
    if script == [] then []
    else
      var rest := OldSide(script[..|script| - 1]);
      var last := script[|script| - 1];
      if last.Insert? then rest else rest + [last.text]
  }

  /** The lines a script writes: everything but its removals. */
  function NewSide<T>(script: seq<Op<T>>): seq<T> {
    if script == [] then []
    else
      var rest := NewSide(script[..|script| - 1]);
      var last := script[|script| - 1];
      if last.Remove? then rest else rest + [last.text]
  }

  /** How many insertions and removals a script makes. */
  function Cost<T>(script: seq<Op<T>>): nat {
    if script == [] then 0
    else
      Cost(script[..|script| - 1]) + if script[|script| - 1].Keep? then 0 else 1
  }

  ghost predicate Transforms<T>(script: seq<Op<T>>, a: seq<T>, b: seq<T>) {
    OldSide(script) == a && NewSide(script) == b
  }

  /** `d` is the fewest insertions plus removals that turn `a` into `b`. */
  ghost predicate IsEditDistance<T(!new)>(a: seq<T>, b: seq<T>, d: nat) {
    && (exists script :: Transforms(script, a, b) && Cost(script) == d)
    && (forall script :: Transforms(script, a, b) ==> d <= Cost(script))
  }

  lemma DistanceIsUnique<T(!new)>(a: seq<T>, b: seq<T>)
    ensures forall d: nat, e: nat :: IsEditDistance(a, b, d) && IsEditDistance(a, b, e) ==> d == e
  {
  }

  /** One more step at the end of a script. */
  lemma ScriptGrows<T>(front: seq<Op<T>>, op: Op<T>)
    ensures OldSide(front + [op]) == if op.Insert? then OldSide(front) else OldSide(front) + [op.text]
    ensures NewSide(front + [op]) == if op.Remove? then NewSide(front) else NewSide(front) + [op.text]
    ensures Cost(front + [op]) == Cost(front) + if op.Keep? then 0 else 1
  {
    assert (front + [op])[..|front|] == front;
  }

  lemma {:induction false} SidesOfConcat<T>(s: seq<Op<T>>, t: seq<Op<T>>)
    ensures OldSide(s + t) == OldSide(s) + OldSide(t)
    ensures NewSide(s + t) == NewSide(s) + NewSide(t)
    ensures Cost(s + t) == Cost(s) + Cost(t)
  {
    if t == [] {
      assert s + t == s;
    } else {
      var front := t[..|t| - 1];
      SidesOfConcat(s, front);
      assert (s + t)[..|s + t| - 1] == s + front;
      assert (s + t)[|s + t| - 1] == t[|t| - 1];
    }
  }

  // ---- Longest common subsequence -------------------------------------------

  /** `c` can be got from `a` by deleting lines. */
  ghost predicate IsSubsequence<T>(c: seq<T>, a: seq<T>) {
    c == []
    || (a != []
        && ((c[|c| - 1] == a[|a| - 1] && IsSubsequence(c[..|c| - 1], a[..|a| - 1]))
            || IsSubsequence(c, a[..|a| - 1])))
  }

  ghost predicate IsLongestCommon<T(!new)>(a: seq<T>, b: seq<T>, length: nat) {
    && (exists c :: IsSubsequence(c, a) && IsSubsequence(c, b) && |c| == length)
    && (forall c :: IsSubsequence(c, a) && IsSubsequence(c, b) ==> |c| <= length)
  }

  /** The lines a script leaves alone. */
  function Kept<T>(script: seq<Op<T>>): seq<T> {
    if script == [] then []
    else
      var rest := Kept(script[..|script| - 1]);
      var last := script[|script| - 1];
      if last.Keep? then rest + [last.text] else rest
  }

  /** What a script keeps is common to both sides, and its cost is everything it does not keep. */
  lemma {:induction false} KeptIsCommon<T>(script: seq<Op<T>>)
    ensures IsSubsequence(Kept(script), OldSide(script))
    ensures IsSubsequence(Kept(script), NewSide(script))
    ensures Cost(script) == |OldSide(script)| + |NewSide(script)| - 2 * |Kept(script)|
  {
    if script != [] {
      var front := script[..|script| - 1];
      KeptIsCommon(front);
      var last := script[|script| - 1];
      if last.Keep? {
        assert Kept(script)[..|Kept(script)| - 1] == Kept(front);
        assert OldSide(script)[..|OldSide(script)| - 1] == OldSide(front);
        assert NewSide(script)[..|NewSide(script)| - 1] == NewSide(front);
      } else if last.Remove? {
        assert OldSide(script)[..|OldSide(script)| - 1] == OldSide(front);
      } else {
        assert NewSide(script)[..|NewSide(script)| - 1] == NewSide(front);
      }
    }
  }

  /** Any common subsequence can be kept by some script. */
  lemma {:induction false} ScriptKeeping<T>(c: seq<T>, a: seq<T>, b: seq<T>) returns (script: seq<Op<T>>)
    requires IsSubsequence(c, a) && IsSubsequence(c, b)
    ensures Transforms(script, a, b)
    ensures Cost(script) == |a| + |b| - 2 * |c|
    decreases |a| + |b|
  {
    if a == [] && b == [] {
      script := [];
    } else if a != [] && IsSubsequence(c, a[..|a| - 1]) {
      var front := ScriptKeeping(c, a[..|a| - 1], b);
      script := front + [Remove(a[|a| - 1])];
      assert script[..|script| - 1] == front;
    } else if b != [] && IsSubsequence(c, b[..|b| - 1]) {
      var front := ScriptKeeping(c, a, b[..|b| - 1]);
      script := front + [Insert(b[|b| - 1])];
      assert script[..|script| - 1] == front;
    } else {
      var front := ScriptKeeping(c[..|c| - 1], a[..|a| - 1], b[..|b| - 1]);
      script := front + [Keep(a[|a| - 1])];
      assert script[..|script| - 1] == front;
    }
  }

  /** The cheapest script and the longest common subsequence are the same measure. */
  lemma DistanceIsLcs<T(!new)>(a: seq<T>, b: seq<T>, d: nat, length: nat)
    requires d + 2 * length == |a| + |b|
    ensures IsEditDistance(a, b, d) <==> IsLongestCommon(a, b, length)
  {
    if IsEditDistance(a, b, d) {
      var script :| Transforms(script, a, b) && Cost(script) == d;
      KeptIsCommon(script);
      assert IsSubsequence(Kept(script), a) && IsSubsequence(Kept(script), b) && |Kept(script)| == length;
      forall c | IsSubsequence(c, a) && IsSubsequence(c, b)
        ensures |c| <= length
      {
        var s := ScriptKeeping(c, a, b);
      }
    }
    if IsLongestCommon(a, b, length) {
      var c :| IsSubsequence(c, a) && IsSubsequence(c, b) && |c| == length;
      var s := ScriptKeeping(c, a, b);
      forall script | Transforms(script, a, b)
        ensures d <= Cost(script)
      {
        KeptIsCommon(script);
      }
    }
  }
}
