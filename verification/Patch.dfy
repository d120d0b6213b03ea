/**
 Hunks as a patch: what they say about the two files they were made from,
 that applying them to the old file gives the new one and undoing them gives
 the old one back, and how much context they carry.
 */
module Patch {
  import opened Wrappers
  import opened EditScript
  import opened Hunks

  function Ops<T>(lines: seq<DiffLine<T>>): (r: seq<Op<T>>)
    ensures |r| == |lines|
    ensures forall i :: 0 <= i < |lines| ==> r[i] == lines[i].op
  {
    seq(|lines|, i requires 0 <= i < |lines| => lines[i].op)
  }

  /**
   Applying hunks to a file from line `pos` on, as a patch tool does: each
   hunk's old side must be found at the line it names, and everything between
   hunks is copied. `None` when a hunk does not fit.
   */
  function Apply<T(==)>(file: seq<T>, hunks: seq<Hunk<T>>, pos: nat): Option<seq<T>>
    requires pos <= |file|
  {
    if hunks == [] then Some(file[pos..])
    else
      var h := hunks[0];
      if h.aStart < pos + 1 || h.aStart - 1 + h.aCount > |file| then None
      else if file[h.aStart - 1..h.aStart - 1 + h.aCount] != OldSide(Ops(h.lines)) then None
      else
        match Apply(file, hunks[1..], h.aStart - 1 + h.aCount)
        case None => None
        case Some(rest) => Some(file[pos..h.aStart - 1] + NewSide(Ops(h.lines)) + rest)
  }

  // ---- Each hunk agrees with both files -------------------------------------

  lemma HunkOps<T>(ops: seq<Op<T>>, s: nat, e: nat)
    requires s <= e <= |ops|
    ensures Ops(HunkOf(ops, s, e).lines) == ops[s..e]
  {
  }

  /** Cutting a script cuts both files at the places its line numbers say. */
  lemma SidesOfSlice<T>(ops: seq<Op<T>>, s: nat, e: nat)
    requires s <= e <= |ops|
    ensures var x, y := |OldSide(ops[..s])|, |NewSide(ops[..s])|;
            var x', y' := |OldSide(ops[..e])|, |NewSide(ops[..e])|;
            && x <= x' <= |OldSide(ops)| && OldSide(ops[s..e]) == OldSide(ops)[x..x']
            && y <= y' <= |NewSide(ops)| && NewSide(ops[s..e]) == NewSide(ops)[y..y']
  {
    assert ops[..e] == ops[..s] + ops[s..e];
    assert ops == ops[..e] + ops[e..];
    SidesOfConcat(ops[..s], ops[s..e]);
    SidesOfConcat(ops[..e], ops[e..]);
  }

  /** A hunk's old side is the stretch of `a` it names, and its new side the stretch of `b`. */
  lemma HunkSides<T>(ops: seq<Op<T>>, a: seq<T>, b: seq<T>, ctx: nat, hunks: seq<Hunk<T>>,
                     spans: seq<Span>, i: nat)
    requires Transforms(ops, a, b) && IsRendering(ops, ctx, hunks, spans) && i < |hunks|
    ensures var h := hunks[i];
            && 1 <= h.aStart && h.aStart - 1 + h.aCount <= |a|
            && 1 <= h.bStart && h.bStart - 1 + h.bCount <= |b|
            && OldSide(Ops(h.lines)) == a[h.aStart - 1..h.aStart - 1 + h.aCount]
            && NewSide(Ops(h.lines)) == b[h.bStart - 1..h.bStart - 1 + h.bCount]
  {
    HunkOps(ops, spans[i].from, spans[i].to);
    SidesOfSlice(ops, spans[i].from, spans[i].to);
  }

  /** A stretch of kept lines is the same on both sides. */
  /** A number is there exactly for the files a line is in, and it is the line's place in them. */
  ghost predicate IsNumbered<T>(line: DiffLine<T>, a: seq<T>, b: seq<T>) {
    && (line.aLine.None? <==> line.op.Insert?) && (line.bLine.None? <==> line.op.Remove?)
    && (line.aLine.Some? ==> 1 <= line.aLine.value <= |a| && a[line.aLine.value - 1] == line.op.text)
    && (line.bLine.Some? ==> 1 <= line.bLine.value <= |b| && b[line.bLine.value - 1] == line.op.text)
  }

  lemma PlaceIs<T>(before: seq<Op<T>>, op: Op<T>, after: seq<Op<T>>)
    ensures var all, x, y := before + [op] + after, |OldSide(before)|, |NewSide(before)|;
            && (!op.Insert? ==> x < |OldSide(all)| && OldSide(all)[x] == op.text)
            && (!op.Remove? ==> y < |NewSide(all)| && NewSide(all)[y] == op.text)
  {
    ScriptGrows(before, op);
    SidesOfConcat(before + [op], after);
  }

  lemma StepIsNumbered<T>(ops: seq<Op<T>>, j: nat, a: seq<T>, b: seq<T>)
    requires j < |ops| && Transforms(ops, a, b)
    ensures IsNumbered(NumberedLine(ops, j), a, b)
  {
    var before, op, after := ops[..j], ops[j], ops[j + 1..];
    assert ops == before + [op] + after;
    PlaceIs(before, op, after);
  }

  /** Every line of every hunk is numbered by its own place in the two files. */
  lemma LinesAreNumbered<T>(ops: seq<Op<T>>, a: seq<T>, b: seq<T>, ctx: nat, hunks: seq<Hunk<T>>,
                            spans: seq<Span>, i: nat, t: nat)
    requires Transforms(ops, a, b) && IsRendering(ops, ctx, hunks, spans)
    requires i < |hunks| && t < |hunks[i].lines|
    ensures IsNumbered(hunks[i].lines[t], a, b)
  {
    assert hunks[i] == HunkOf(ops, spans[i].from, spans[i].to);
    StepIsNumbered(ops, spans[i].from + t, a, b);
  }

  lemma {:induction false} KeptSidesAgree<T>(ops: seq<Op<T>>)
    requires forall j :: 0 <= j < |ops| ==> ops[j].Keep?
    ensures OldSide(ops) == NewSide(ops)
  {
    if ops != [] {
      KeptSidesAgree(ops[..|ops| - 1]);
    }
  }

  /** Where the t-th hunk is preceded by what the hunks before it left off. */
  ghost function EndBefore(spans: seq<Span>, t: nat): nat
    requires t <= |spans|
  {
    if t == 0 then 0 else spans[t - 1].to
  }

  /** Nothing between two hunks is in a hunk. */
  lemma BetweenHunks(spans: seq<Span>, length: nat, i: nat, j: int)
    requires Separated(spans, length) && i < |spans|
    requires || (spans[i].to <= j && (i + 1 < |spans| ==> j < spans[i + 1].from))
             || (j < spans[i].from && (i > 0 ==> spans[i - 1].to <= j))
    ensures !InSpans(spans, j)
  {
  }

  /** A step before the t-th hunk and after the one before it is in no hunk, so it changes nothing. */
  lemma GapIsKept<T>(ops: seq<Op<T>>, ctx: nat, hunks: seq<Hunk<T>>, spans: seq<Span>, t: nat, j: nat)
    requires IsRendering(ops, ctx, hunks, spans) && t <= |spans|
    requires EndBefore(spans, t) <= j < (if t == |spans| then |ops| else spans[t].from)
    ensures j < |ops| && ops[j].Keep?
  {
    if t > 0 {
      BetweenHunks(spans, |ops|, t - 1, j);
    } else if t < |spans| {
      BetweenHunks(spans, |ops|, t, j);
    }
    assert !InSpans(spans, j);
    assert Changed(ops, j) ==> Shown(ops, ctx, j);
  }

  /** Nothing changes outside the hunks. */
  lemma OutsideIsKept<T>(ops: seq<Op<T>>, ctx: nat, hunks: seq<Hunk<T>>, spans: seq<Span>, t: nat)
    requires IsRendering(ops, ctx, hunks, spans) && t <= |spans|
    ensures var e := if t == |spans| then |ops| else spans[t].from;
            EndBefore(spans, t) <= e <= |ops| && OldSide(ops[EndBefore(spans, t)..e]) == NewSide(ops[EndBefore(spans, t)..e])
  {
    var s, e := EndBefore(spans, t), if t == |spans| then |ops| else spans[t].from;
    forall j | s <= j < e
      ensures ops[j].Keep?
    {
      GapIsKept(ops, ctx, hunks, spans, t, j);
    }
    KeptSidesAgree(ops[s..e]);
  }

  /** The line of each file that the hunks before the t-th reach. */
  ghost function OldCut<T>(ops: seq<Op<T>>, spans: seq<Span>, t: nat): nat
    requires t <= |spans| && EndBefore(spans, t) <= |ops|
  {
    |OldSide(ops[..EndBefore(spans, t)])|
  }

  ghost function NewCut<T>(ops: seq<Op<T>>, spans: seq<Span>, t: nat): nat
    requires t <= |spans| && EndBefore(spans, t) <= |ops|
  {
    |NewSide(ops[..EndBefore(spans, t)])|
  }

  /** Between the hunk before it and the t-th hunk, both files run through the same lines. */
  lemma LeadUp<T>(ops: seq<Op<T>>, a: seq<T>, b: seq<T>, ctx: nat, hunks: seq<Hunk<T>>, spans: seq<Span>, t: nat)
    requires Transforms(ops, a, b) && IsRendering(ops, ctx, hunks, spans) && t < |hunks|
    requires EndBefore(spans, t) <= |ops| && EndBefore(spans, t + 1) <= |ops|
    ensures var h := hunks[t];
            && OldCut(ops, spans, t) + 1 <= h.aStart && h.aStart - 1 <= |a|
            && NewCut(ops, spans, t) + 1 <= h.bStart && h.bStart - 1 <= |b|
            && a[OldCut(ops, spans, t)..h.aStart - 1] == b[NewCut(ops, spans, t)..h.bStart - 1]
            && h.aStart - 1 + h.aCount == OldCut(ops, spans, t + 1)
            && h.bStart - 1 + h.bCount == NewCut(ops, spans, t + 1)
  {
    OutsideIsKept(ops, ctx, hunks, spans, t);
    SidesOfSlice(ops, EndBefore(spans, t), spans[t].from);
    SidesOfSlice(ops, spans[t].from, spans[t].to);
  }

  /** One hunk that fits, after lines the files share. */
  lemma ApplyOne<T>(a: seq<T>, b: seq<T>, hunks: seq<Hunk<T>>, pos: nat, y: nat)
    requires hunks != [] && pos <= |a| && y <= |b|
    requires var h := hunks[0];
             && pos + 1 <= h.aStart && h.aStart - 1 + h.aCount <= |a|
             && y + 1 <= h.bStart && h.bStart - 1 + h.bCount <= |b|
             && a[pos..h.aStart - 1] == b[y..h.bStart - 1]
             && OldSide(Ops(h.lines)) == a[h.aStart - 1..h.aStart - 1 + h.aCount]
             && NewSide(Ops(h.lines)) == b[h.bStart - 1..h.bStart - 1 + h.bCount]
             && Apply(a, hunks[1..], h.aStart - 1 + h.aCount) == Some(b[h.bStart - 1 + h.bCount..])
    ensures Apply(a, hunks, pos) == Some(b[y..])
  {
    var h := hunks[0];
    assert b[y..h.bStart - 1] + b[h.bStart - 1..h.bStart - 1 + h.bCount] + b[h.bStart - 1 + h.bCount..] == b[y..];
  }

  /** After the last hunk both files end alike. */
  lemma TailsAgree<T>(ops: seq<Op<T>>, a: seq<T>, b: seq<T>, ctx: nat, hunks: seq<Hunk<T>>, spans: seq<Span>)
    requires Transforms(ops, a, b) && IsRendering(ops, ctx, hunks, spans)
    ensures EndBefore(spans, |spans|) <= |ops|
    ensures OldCut(ops, spans, |spans|) <= |a| && NewCut(ops, spans, |spans|) <= |b|
    ensures a[OldCut(ops, spans, |spans|)..] == b[NewCut(ops, spans, |spans|)..]
  {
    OutsideIsKept(ops, ctx, hunks, spans, |spans|);
    var s := EndBefore(spans, |spans|);
    SidesOfSlice(ops, s, |ops|);
    assert ops[..|ops|] == ops;
    assert a[OldCut(ops, spans, |spans|)..] == OldSide(ops[s..|ops|]);
    assert b[NewCut(ops, spans, |spans|)..] == NewSide(ops[s..|ops|]);
  }

  /** Two files, cut at the same places by the hunks between them. */
  ghost predicate Aligned<T>(a: seq<T>, b: seq<T>, hunks: seq<Hunk<T>>, xs: seq<nat>, ys: seq<nat>) {
    && |xs| == |hunks| + 1 && |ys| == |hunks| + 1
    && (forall t :: 0 <= t < |hunks| ==> FitsAt(a, b, hunks[t], xs[t], ys[t], xs[t + 1], ys[t + 1]))
    && xs[|hunks|] <= |a| && ys[|hunks|] <= |b| && a[xs[|hunks|]..] == b[ys[|hunks|]..]
  }

  /** Shared lines up to the hunk, then the hunk's two sides. */
  ghost predicate FitsAt<T>(a: seq<T>, b: seq<T>, h: Hunk<T>, x: nat, y: nat, x': nat, y': nat) {
    && x + 1 <= h.aStart && h.aStart - 1 + h.aCount == x' <= |a|
    && y + 1 <= h.bStart && h.bStart - 1 + h.bCount == y' <= |b|
    && a[x..h.aStart - 1] == b[y..h.bStart - 1]
    && OldSide(Ops(h.lines)) == a[h.aStart - 1..x']
    && NewSide(Ops(h.lines)) == b[h.bStart - 1..y']
  }

  lemma {:induction false} ApplyAligned<T>(a: seq<T>, b: seq<T>, hunks: seq<Hunk<T>>, xs: seq<nat>, ys: seq<nat>)
    requires Aligned(a, b, hunks, xs, ys)
    ensures xs[0] <= |a| && ys[0] <= |b| && Apply(a, hunks, xs[0]) == Some(b[ys[0]..])
  {
    if hunks != [] {
      assert FitsAt(a, b, hunks[0], xs[0], ys[0], xs[1], ys[1]);
      forall t | 0 <= t < |hunks| - 1
        ensures FitsAt(a, b, hunks[1..][t], xs[1..][t], ys[1..][t], xs[1..][t + 1], ys[1..][t + 1])
      {
        assert FitsAt(a, b, hunks[t + 1], xs[t + 1], ys[t + 1], xs[t + 2], ys[t + 2]);
      }
      ApplyAligned(a, b, hunks[1..], xs[1..], ys[1..]);
      ApplyOne(a, b, hunks, xs[0], ys[0]);
    }
  }

  /** Each hunk fits where the ones before it left off. */
  lemma CutsFit<T>(ops: seq<Op<T>>, a: seq<T>, b: seq<T>, ctx: nat, hunks: seq<Hunk<T>>, spans: seq<Span>, t: nat)
    requires Transforms(ops, a, b) && IsRendering(ops, ctx, hunks, spans) && t < |hunks|
    ensures EndBefore(spans, t) <= |ops| && EndBefore(spans, t + 1) <= |ops|
    ensures FitsAt(a, b, hunks[t], OldCut(ops, spans, t), NewCut(ops, spans, t),
                   OldCut(ops, spans, t + 1), NewCut(ops, spans, t + 1))
  {
    LeadUp(ops, a, b, ctx, hunks, spans, t);
    HunkSides(ops, a, b, ctx, hunks, spans, t);
  }

  ghost function OldCuts<T>(ops: seq<Op<T>>, spans: seq<Span>, n: nat): (r: seq<nat>)
    requires n <= |spans| && Separated(spans, |ops|)
    ensures |r| == n + 1 && forall t :: 0 <= t <= n ==> r[t] == OldCut(ops, spans, t)
  {
    if n == 0 then [OldCut(ops, spans, 0)] else OldCuts(ops, spans, n - 1) + [OldCut(ops, spans, n)]
  }

  ghost function NewCuts<T>(ops: seq<Op<T>>, spans: seq<Span>, n: nat): (r: seq<nat>)
    requires n <= |spans| && Separated(spans, |ops|)
    ensures |r| == n + 1 && forall t :: 0 <= t <= n ==> r[t] == NewCut(ops, spans, t)
  {
    if n == 0 then [NewCut(ops, spans, 0)] else NewCuts(ops, spans, n - 1) + [NewCut(ops, spans, n)]
  }

  /** The hunks are a correct patch: applied to the old file they give the new one. */
  lemma PatchIsCorrect<T>(ops: seq<Op<T>>, a: seq<T>, b: seq<T>, ctx: nat, hunks: seq<Hunk<T>>, spans: seq<Span>)
    requires Transforms(ops, a, b) && IsRendering(ops, ctx, hunks, spans)
    ensures Apply(a, hunks, 0) == Some(b)
  {
    var xs, ys := OldCuts(ops, spans, |spans|), NewCuts(ops, spans, |spans|);
    forall t | 0 <= t < |hunks|
      ensures FitsAt(a, b, hunks[t], xs[t], ys[t], xs[t + 1], ys[t + 1])
    {
      CutsFit(ops, a, b, ctx, hunks, spans, t);
    }
    TailsAgree(ops, a, b, ctx, hunks, spans);
    assert ops[..0] == [];
    ApplyAligned(a, b, hunks, xs, ys);
    assert b[0..] == b;
  }

  // ---- Undoing a patch ------------------------------------------------------

  function Inverse<T>(op: Op<T>): Op<T> {
    match op
    case Keep(x) => Keep(x)
    case Remove(x) => Insert(x)
    case Insert(x) => Remove(x)
  }

  function InverseScript<T>(ops: seq<Op<T>>): (r: seq<Op<T>>)
    ensures |r| == |ops|
    ensures forall i :: 0 <= i < |ops| ==> r[i] == Inverse(ops[i])
  {
    seq(|ops|, i requires 0 <= i < |ops| => Inverse(ops[i]))
  }

  function InverseHunk<T>(h: Hunk<T>): Hunk<T> {
    Hunk(h.bStart, h.aStart, h.bCount, h.aCount,
         seq(|h.lines|, i requires 0 <= i < |h.lines| =>
           DiffLine(Inverse(h.lines[i].op), h.lines[i].bLine, h.lines[i].aLine)))
  }

  function InverseHunks<T>(hunks: seq<Hunk<T>>): (r: seq<Hunk<T>>)
    ensures |r| == |hunks|
    ensures forall i :: 0 <= i < |hunks| ==> r[i] == InverseHunk(hunks[i])
  {
    seq(|hunks|, i requires 0 <= i < |hunks| => InverseHunk(hunks[i]))
  }

  lemma {:induction false} InverseSwapsSides<T>(ops: seq<Op<T>>)
    ensures OldSide(InverseScript(ops)) == NewSide(ops)
    ensures NewSide(InverseScript(ops)) == OldSide(ops)
  {
    if ops != [] {
      InverseSwapsSides(ops[..|ops| - 1]);
      assert InverseScript(ops)[..|ops| - 1] == InverseScript(ops[..|ops| - 1]);
    }
  }

  lemma InverseOfSlice<T>(ops: seq<Op<T>>, s: nat, e: nat)
    requires s <= e <= |ops|
    ensures InverseScript(ops)[s..e] == InverseScript(ops[s..e])
  {
  }

  /** The numbers of an undone line change places. */
  lemma InverseOfLine<T>(ops: seq<Op<T>>, j: nat)
    requires j < |ops|
    ensures var line := NumberedLine(ops, j);
            NumberedLine(InverseScript(ops), j) == DiffLine(Inverse(line.op), line.bLine, line.aLine)
  {
    InverseOfSlice(ops, 0, j);
    assert ops[..j] == ops[0..j] && InverseScript(ops)[..j] == InverseScript(ops)[0..j];
    InverseSwapsSides(ops[..j]);
  }

  lemma InverseOfHunk<T>(ops: seq<Op<T>>, s: nat, e: nat)
    requires s <= e <= |ops|
    ensures InverseHunk(HunkOf(ops, s, e)) == HunkOf(InverseScript(ops), s, e)
  {
    var inv := InverseScript(ops);
    InverseOfSlice(ops, 0, s);
    assert ops[..s] == ops[0..s] && inv[..s] == inv[0..s];
    InverseOfSlice(ops, s, e);
    InverseSwapsSides(ops[..s]);
    InverseSwapsSides(ops[s..e]);
    var there, back := HunkOf(ops, s, e), HunkOf(inv, s, e);
    forall t | 0 <= t < e - s
      ensures InverseHunk(there).lines[t] == back.lines[t]
    {
      InverseOfLine(ops, s + t);
    }
    assert InverseHunk(there).lines == back.lines;
  }

  /** Undone, the hunks take the new file back to the old one. */
  lemma PatchIsReversible<T>(ops: seq<Op<T>>, a: seq<T>, b: seq<T>, ctx: nat, hunks: seq<Hunk<T>>, spans: seq<Span>)
    requires Transforms(ops, a, b) && IsRendering(ops, ctx, hunks, spans)
    ensures Apply(b, InverseHunks(hunks), 0) == Some(a)
  {
    var inv := InverseScript(ops);
    InverseSwapsSides(ops);
    forall j | 0 <= j < |ops|
      ensures Shown(inv, ctx, j) <==> Shown(ops, ctx, j)
    {
      assert forall c :: Changed(inv, c) <==> Changed(ops, c);
    }
    forall i | 0 <= i < |spans|
      ensures InverseHunks(hunks)[i] == HunkOf(inv, spans[i].from, spans[i].to)
    {
      InverseOfHunk(ops, spans[i].from, spans[i].to);
    }
    PatchIsCorrect(inv, b, a, ctx, InverseHunks(hunks), spans);
  }

  // ---- How much context a hunk carries --------------------------------------

  /** A line outside every hunk is more than `ctx` lines from every change. */
  lemma OmittedIsFar<T>(ops: seq<Op<T>>, ctx: nat, hunks: seq<Hunk<T>>, spans: seq<Span>, j: nat, c: int)
    requires IsRendering(ops, ctx, hunks, spans) && j < |ops| && !InSpans(spans, j) && Changed(ops, c)
    ensures c < j - ctx || j + ctx < c
  {
    assert !Shown(ops, ctx, j);
  }

  /** A change that makes a hunk's line shown lies in that hunk. */
  lemma ChangeIsInside<T>(ops: seq<Op<T>>, ctx: nat, hunks: seq<Hunk<T>>, spans: seq<Span>, i: nat, j: int, c: int)
    requires IsRendering(ops, ctx, hunks, spans) && i < |hunks|
    requires spans[i].from <= j < spans[i].to && Changed(ops, c) && c - ctx <= j <= c + ctx
    ensures spans[i].from <= c < spans[i].to
  {
    if c < spans[i].from {
      BetweenHunks(spans, |ops|, i, spans[i].from - 1);
    }
    if c >= spans[i].to {
      BetweenHunks(spans, |ops|, i, spans[i].to);
    }
  }

  /**
   Every line of a hunk has a change of the same hunk within `ctx` lines of it.
   So every hunk holds a change, at most `ctx` unchanged lines lead it in (take
   its first line), at most `ctx` end it (take its last), and `2 * ctx + 1`
   lines in a row inside it always hold a change (take the middle one).
   */
  lemma ContextIsBounded<T>(ops: seq<Op<T>>, ctx: nat, hunks: seq<Hunk<T>>, spans: seq<Span>, i: nat, j: nat)
    returns (c: int)
    requires IsRendering(ops, ctx, hunks, spans) && i < |hunks| && spans[i].from <= j < spans[i].to
    ensures Changed(ops, c) && spans[i].from <= c < spans[i].to && c - ctx <= j <= c + ctx
  {
    assert InSpans(spans, j);
    c :| Changed(ops, c) && c - ctx <= j <= c + ctx;
    ChangeIsInside(ops, ctx, hunks, spans, i, j, c);
  }

  /** One of the `count` lines of a hunk from `from` on is a change. */
  ghost predicate HoldsChange<T>(h: Hunk<T>, from: int, count: nat) {
    exists u :: 0 <= u < |h.lines| && from <= u < from + count && !h.lines[u].op.Keep?
  }

  /** A change within `ctx` lines of each end, and never more than `2 * ctx` unchanged lines in a row. */
  ghost predicate IsTight<T>(h: Hunk<T>, ctx: nat) {
    && h.lines != []
    && HoldsChange(h, 0, ctx + 1)
    && HoldsChange(h, |h.lines| - 1 - ctx, ctx + 1)
    && var row := 2 * ctx + 1; forall t :: 0 <= t <= |h.lines| - row ==> HoldsChange(h, t, row)
  }

  /** At least one line of each file is left out between a hunk and the next. */
  ghost predicate LeavesLineOut<T>(h: Hunk<T>, next: Hunk<T>) {
    h.aStart + h.aCount < next.aStart && h.bStart + h.bCount < next.bStart
  }

  /** A hunk can be neither split nor trimmed without hiding context, and neighbours cannot be joined. */
  ghost predicate AreTidy<T>(hunks: seq<Hunk<T>>, ctx: nat) {
    && (forall i :: 0 <= i < |hunks| ==> IsTight(hunks[i], ctx))
    && (forall i :: 0 <= i < |hunks| - 1 ==> LeavesLineOut(hunks[i], hunks[i + 1]))
  }

  lemma NearAChange<T>(ops: seq<Op<T>>, ctx: nat, hunks: seq<Hunk<T>>, spans: seq<Span>, i: nat, t: nat)
    requires IsRendering(ops, ctx, hunks, spans) && i < |hunks| && t < |hunks[i].lines|
    ensures HoldsChange(hunks[i], t - ctx, 2 * ctx + 1)
  {
    var c := ContextIsBounded(ops, ctx, hunks, spans, i, spans[i].from + t);
    assert hunks[i].lines[c - spans[i].from].op == ops[c];
  }

  lemma HunkIsTight<T>(ops: seq<Op<T>>, ctx: nat, hunks: seq<Hunk<T>>, spans: seq<Span>, i: nat)
    requires IsRendering(ops, ctx, hunks, spans) && i < |hunks|
    ensures IsTight(hunks[i], ctx)
  {
    var h := hunks[i];
    NearAChange(ops, ctx, hunks, spans, i, 0);
    NearAChange(ops, ctx, hunks, spans, i, |h.lines| - 1);
    var row := 2 * ctx + 1;
    forall t | 0 <= t <= |h.lines| - row
      ensures HoldsChange(h, t, row)
    {
      NearAChange(ops, ctx, hunks, spans, i, t + ctx);
    }
  }

  lemma {:induction false} KeptCount<T>(ops: seq<Op<T>>)
    requires forall j :: 0 <= j < |ops| ==> ops[j].Keep?
    ensures |OldSide(ops)| == |ops| == |NewSide(ops)|
  {
    if ops != [] {
      KeptCount(ops[..|ops| - 1]);
    }
  }

  lemma HunksAreApart<T>(ops: seq<Op<T>>, ctx: nat, hunks: seq<Hunk<T>>, spans: seq<Span>, i: nat)
    requires IsRendering(ops, ctx, hunks, spans) && i + 1 < |hunks|
    ensures LeavesLineOut(hunks[i], hunks[i + 1])
  {
    var s, e := spans[i].to, spans[i + 1].from;
    forall j | s <= j < e
      ensures ops[j].Keep?
    {
      GapIsKept(ops, ctx, hunks, spans, i + 1, j);
    }
    KeptCount(ops[s..e]);
    SidesOfSlice(ops, spans[i].from, s);
    SidesOfSlice(ops, s, e);
  }

  /** Every list of hunks the grouping draws is tidy. */
  lemma HunksAreTidy<T>(ops: seq<Op<T>>, ctx: nat, hunks: seq<Hunk<T>>, spans: seq<Span>)
    requires IsRendering(ops, ctx, hunks, spans)
    ensures AreTidy(hunks, ctx)
  {
    forall i | 0 <= i < |hunks|
      ensures IsTight(hunks[i], ctx)
    {
      HunkIsTight(ops, ctx, hunks, spans, i);
    }
    forall i | 0 <= i < |hunks| - 1
      ensures LeavesLineOut(hunks[i], hunks[i + 1])
    {
      HunksAreApart(ops, ctx, hunks, spans, i);
    }
  }
}
