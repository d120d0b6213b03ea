/** Comparing two exports, end to end. */
module Diff {
  import opened Wrappers
  import opened EditScript
  import opened Myers
  import opened Retrace
  import opened Hunks
  import opened Patch
  import opened Normalize

  /** How different two exports may be before a line diff is not attempted. */
  const MAX_EDITS: nat := 4000

  /** Lines shown either side of a change. */
  const CONTEXT: nat := 3

  datatype DiffResult = DiffResult(changed: bool, added: Option<nat>, removed: Option<nat>,
                                   hunks: seq<Hunk<string>>, truncated: bool)

  ghost function Inserted<T>(ops: seq<Op<T>>): nat {
    if ops == [] then 0 else Inserted(ops[..|ops| - 1]) + if ops[|ops| - 1].Insert? then 1 else 0
  }

  ghost function Removed<T>(ops: seq<Op<T>>): nat {
    if ops == [] then 0 else Removed(ops[..|ops| - 1]) + if ops[|ops| - 1].Remove? then 1 else 0
  }

  /** The two counts make up the cost, and their difference is the difference in length. */
  lemma {:induction false} CountsBalance<T>(ops: seq<Op<T>>)
    ensures Inserted(ops) + Removed(ops) == Cost(ops)
    ensures |NewSide(ops)| - |OldSide(ops)| == Inserted(ops) - Removed(ops)
  {
    if ops != [] {
      CountsBalance(ops[..|ops| - 1]);
    }
  }

  lemma {:induction false} FreeScriptKeepsAll<T>(ops: seq<Op<T>>)
    requires Cost(ops) == 0
    ensures OldSide(ops) == NewSide(ops)
  {
    if ops != [] {
      FreeScriptKeepsAll(ops[..|ops| - 1]);
    }
  }

  method SameLines(a: seq<string>, b: seq<string>) returns (same: bool)
    ensures same <==> a == b
  {
    if |a| != |b| {
      return false;
    }
    for i := 0 to |a|
      invariant a[..i] == b[..i]
    {
      if a[i] != b[i] {
        return false;
      }
    }
    assert a[..|a|] == a && b[..|b|] == b;
    return true;
  }

  method CountEdits<T>(ops: seq<Op<T>>) returns (added: nat, removed: nat)
    ensures added == Inserted(ops) && removed == Removed(ops)
  {
    added, removed := 0, 0;
    for i := 0 to |ops|
      invariant added == Inserted(ops[..i]) && removed == Removed(ops[..i])
    {
      assert ops[..i + 1][..i] == ops[..i];
      match ops[i]
      case Insert(_) => added := added + 1;
      case Remove(_) => removed := removed + 1;
      case Keep(_) =>
    }
    assert ops[..|ops|] == ops;
  }

  /** The hunks draw the maximal shown runs of a cheapest script between the two lists. */
  ghost predicate Draws(hunks: seq<Hunk<string>>, a: seq<string>, b: seq<string>) {
    exists ops, spans ::
      && Transforms(ops, a, b) && IsEditDistance(a, b, Cost(ops))
      && IsRendering(ops, CONTEXT, hunks, spans)
  }

  /** Hunks that are a tidy patch both ways. */
  ghost predicate IsFullPatch(hunks: seq<Hunk<string>>, a: seq<string>, b: seq<string>) {
    && Draws(hunks, a, b) && AreTidy(hunks, CONTEXT)
    && Apply(a, hunks, 0) == Some(b)
    && Apply(b, InverseHunks(hunks), 0) == Some(a)
  }

  lemma DrawnDiff(ops: seq<Op<string>>, a: seq<string>, b: seq<string>, hunks: seq<Hunk<string>>, spans: seq<Span>)
    requires Transforms(ops, a, b) && IsEditDistance(a, b, Cost(ops)) && IsRendering(ops, CONTEXT, hunks, spans)
    ensures IsFullPatch(hunks, a, b)
  {
    PatchIsCorrect(ops, a, b, CONTEXT, hunks, spans);
    PatchIsReversible(ops, a, b, CONTEXT, hunks, spans);
    HunksAreTidy(ops, CONTEXT, hunks, spans);
  }

  /** A diff that was attempted counts the fewest edits and is a patch both ways; a truncated one shows nothing. */
  ghost predicate IsDiff(r: DiffResult, a: seq<string>, b: seq<string>) {
    if r.truncated then r.added.None? && r.removed.None? && r.hunks == []
    else
      && r.added.Some? && r.removed.Some?
      && IsEditDistance(a, b, r.added.value + r.removed.value)
      && |b| - |a| == r.added.value - r.removed.value
      && IsFullPatch(r.hunks, a, b)
  }

  lemma {:induction false} CountsFit<T(!new)>(ops: seq<Op<T>>, a: seq<T>, b: seq<T>)
    requires Transforms(ops, a, b) && IsEditDistance(a, b, Cost(ops)) && a != b
    ensures IsEditDistance(a, b, Inserted(ops) + Removed(ops))
    ensures |b| - |a| == Inserted(ops) - Removed(ops)
    ensures Inserted(ops) > 0 || Removed(ops) > 0
  {
    CountsBalance(ops);
    if Cost(ops) == 0 {
      FreeScriptKeepsAll(ops);
    }
  }

  method CountScript(ops: seq<Op<string>>, ghost a: seq<string>, ghost b: seq<string>) returns (added: nat, removed: nat)
    requires Transforms(ops, a, b) && IsEditDistance(a, b, Cost(ops)) && a != b
    ensures IsEditDistance(a, b, added + removed)
    ensures |b| - |a| == added - removed
    ensures added > 0 || removed > 0
  {
    added, removed := CountEdits(ops);
    CountsFit(ops, a, b);
  }

  method DrawScript(ops: seq<Op<string>>, ghost a: seq<string>, ghost b: seq<string>) returns (hunks: seq<Hunk<string>>)
    requires Transforms(ops, a, b) && IsEditDistance(a, b, Cost(ops))
    ensures IsFullPatch(hunks, a, b)
  {
    ghost var spans;
    hunks, spans := BuildHunks(ops, CONTEXT);
    DrawnDiff(ops, a, b, hunks, spans);
  }

  /** Two lists that differ. */
  method CompareDifferent(a: seq<string>, b: seq<string>) returns (r: DiffResult)
    requires a != b
    ensures r.changed
    ensures forall d: nat :: IsEditDistance(a, b, d) ==> (r.truncated <==> d > MAX_EDITS)
    ensures IsDiff(r, a, b)
  {
    var trace, corner := ShortestEdit(a, b, MAX_EDITS);
    if trace.None? {
      return DiffResult(true, None, None, [], true);
    }
    var ops := Backtrack(trace.value, a, b, corner);
    var added, removed := CountScript(ops, a, b);
    var hunks := DrawScript(ops, a, b);
    return DiffResult(added > 0 || removed > 0, Some(added), Some(removed), hunks, false);
  }

  /**
   A change is reported exactly when the normalised lines differ, truncated or
   not, and the diff is truncated exactly when they are more than `MAX_EDITS`
   apart.
   */
  method Compare(before: string, after: string) returns (r: DiffResult)
    ensures var a, b := NormalizeLines(before), NormalizeLines(after);
            && (r.changed <==> a != b)
            && (r.truncated <==> forall d: nat :: IsEditDistance(a, b, d) ==> d > MAX_EDITS)
            && IsDiff(r, a, b)
  {
    var a, b := NormalizeLines(before), NormalizeLines(after);
    DistIsEditDistance(a, b);
    var same := SameLines(a, b);
    if same {
      NothingToDraw(a);
      r := DiffResult(false, Some(0), Some(0), [], false);
    } else {
      r := CompareDifferent(a, b);
    }
  }

  /** What the search measures is also the length of a longest common subsequence. */
  lemma CommonIsLongest<T(!new)>(a: seq<T>, b: seq<T>)
    ensures IsLongestCommon(a, b, Common(a, b, |a|, |b|))
  {
    DistIsEditDistance(a, b);
    DistanceIsLcs(a, b, Dist(a, b, |a|, |b|), Common(a, b, |a|, |b|));
  }

  ghost function KeepAll<T>(a: seq<T>): (ops: seq<Op<T>>)
    ensures |ops| == |a| && forall i :: 0 <= i < |a| ==> ops[i] == Keep(a[i])
  {
    seq(|a|, i requires 0 <= i < |a| => Keep(a[i]))
  }

  lemma {:induction false} KeepAllKeeps<T>(a: seq<T>)
    ensures Transforms(KeepAll(a), a, a) && Cost(KeepAll(a)) == 0
  {
    if a != [] {
      KeepAllKeeps(a[..|a| - 1]);
      assert KeepAll(a)[..|a| - 1] == KeepAll(a[..|a| - 1]);
      assert a == a[..|a| - 1] + [a[|a| - 1]];
    }
  }

  /** Equal lists: distance zero, no hunks. */
  lemma NothingToDraw(a: seq<string>)
    ensures IsEditDistance(a, a, 0) && IsFullPatch([], a, a)
  {
    var ops := KeepAll(a);
    KeepAllKeeps(a);
    assert IsRendering(ops, CONTEXT, [], []) by {
      forall j | 0 <= j < |ops|
        ensures !Shown(ops, CONTEXT, j)
      {
        assert forall c :: !Changed(ops, c);
      }
    }
    assert Transforms(ops, a, a) && IsEditDistance(a, a, Cost(ops)) && IsRendering(ops, CONTEXT, [], []);
  }
}
