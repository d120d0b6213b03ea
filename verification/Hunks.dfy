/**
 Grouping an edit script into unified-style hunks with context.

 The loop decides when to open and close a hunk from the length of the run of
 unchanged lines it is holding back. What it draws is stated without that run:
 a line is shown exactly when a change lies within `context` lines of it, and
 the hunks are the maximal runs of shown lines, numbered by their true
 positions in the two files.
 */
module Hunks {
  import opened Wrappers
  import opened EditScript

  datatype DiffLine<T> = DiffLine(op: Op<T>, aLine: Option<nat>, bLine: Option<nat>)

  datatype Hunk<T> = Hunk(aStart: nat, bStart: nat, aCount: nat, bCount: nat, lines: seq<DiffLine<T>>)

  // ---- What a hunk list should be -------------------------------------------

  ghost predicate Changed<T>(ops: seq<Op<T>>, c: int) {
    0 <= c < |ops| && !ops[c].Keep?
  }

  /** Some change lies within `ctx` lines of `j`. */
  ghost predicate Shown<T>(ops: seq<Op<T>>, ctx: nat, j: int) {
    exists c :: Changed(ops, c) && c - ctx <= j <= c + ctx
  }

  /** The j-th step of a script, with the line numbers it has in the two files. */
  ghost function NumberedLine<T>(ops: seq<Op<T>>, j: nat): DiffLine<T>
    requires j < |ops|
  {
    DiffLine(ops[j],
             if ops[j].Insert? then None else Some(|OldSide(ops[..j])| + 1),
             if ops[j].Remove? then None else Some(|NewSide(ops[..j])| + 1))
  }

  ghost function NumberedLines<T>(ops: seq<Op<T>>, s: nat, e: nat): (r: seq<DiffLine<T>>)
    requires s <= e <= |ops|
    ensures |r| == e - s
    ensures forall t :: 0 <= t < e - s ==> r[t] == NumberedLine(ops, s + t)
  {
    if s == e then [] else NumberedLines(ops, s, e - 1) + [NumberedLine(ops, e - 1)]
  }

  /** Cutting a numbered stretch in two. */
  lemma NumberedCut<T>(ops: seq<Op<T>>, s: nat, m: nat, e: nat)
    requires s <= m <= e <= |ops|
    ensures NumberedLines(ops, s, e)[..m - s] == NumberedLines(ops, s, m)
    ensures NumberedLines(ops, s, e)[m - s..] == NumberedLines(ops, m, e)
  {
  }

  /** The hunk that covers steps `s` to `e` of a script. */
  ghost function HunkOf<T>(ops: seq<Op<T>>, s: nat, e: nat): Hunk<T>
    requires s <= e <= |ops|
  {
    Hunk(|OldSide(ops[..s])| + 1, |NewSide(ops[..s])| + 1,
         |OldSide(ops[s..e])|, |NewSide(ops[s..e])|, NumberedLines(ops, s, e))
  }

  datatype Span = Span(from: nat, to: nat)

  ghost predicate InSpans(spans: seq<Span>, j: int) {
    exists i :: 0 <= i < |spans| && spans[i].from <= j < spans[i].to
  }

  /** In order, non-empty, and with at least one step omitted between neighbours. */
  ghost predicate Separated(spans: seq<Span>, length: nat) {
    && (forall i :: 0 <= i < |spans| ==> spans[i].from < spans[i].to <= length)
    && (forall i, j :: 0 <= i < j < |spans| ==> spans[i].to < spans[j].from)
  }

  /** The hunks are the maximal runs of shown steps. */
  ghost predicate IsRendering<T>(ops: seq<Op<T>>, ctx: nat, hunks: seq<Hunk<T>>, spans: seq<Span>) {
    && |hunks| == |spans|
    && Separated(spans, |ops|)
    && (forall j :: 0 <= j < |ops| ==> (InSpans(spans, j) <==> Shown(ops, ctx, j)))
    && (forall i :: 0 <= i < |spans| ==> hunks[i] == HunkOf(ops, spans[i].from, spans[i].to))
  }

  ghost predicate IsHunkList<T>(ops: seq<Op<T>>, ctx: nat, hunks: seq<Hunk<T>>) {
    exists spans :: IsRendering(ops, ctx, hunks, spans)
  }

  // ---- buildHunks -----------------------------------------------------------

  /** Appending one line to a hunk, counting it on the sides it belongs to. */
  function Push<T>(h: Hunk<T>, e: DiffLine<T>): Hunk<T> {
    h.(lines := h.lines + [e],
       aCount := if e.op.Insert? then h.aCount else h.aCount + 1,
       bCount := if e.op.Remove? then h.bCount else h.bCount + 1)
  }

  lemma PushExtends<T>(ops: seq<Op<T>>, s: nat, e: nat)
    requires s <= e < |ops|
    ensures Push(HunkOf(ops, s, e), NumberedLine(ops, e)) == HunkOf(ops, s, e + 1)
  {
    assert ops[s..e + 1][..e - s] == ops[s..e];
  }

  method PushAll<T>(h0: Hunk<T>, lines: seq<DiffLine<T>>, ghost ops: seq<Op<T>>, ghost s: nat, ghost e: nat)
    returns (h: Hunk<T>)
    requires s <= e && e + |lines| <= |ops|
    requires h0 == HunkOf(ops, s, e) && lines == NumberedLines(ops, e, e + |lines|)
    ensures h == HunkOf(ops, s, e + |lines|)
  {
    h := h0;
    for i := 0 to |lines|
      invariant h == HunkOf(ops, s, e + i)
    {
      PushExtends(ops, s, e + i);
      h := Push(h, lines[i]);
    }
  }

  /** Everything before step `p` is decided: covered exactly when it is shown. */
  ghost predicate Decided<T>(ops: seq<Op<T>>, ctx: nat, spans: seq<Span>, p: nat) {
    && p <= |ops|
    && Separated(spans, p)
    && (forall j :: 0 <= j < p ==> (InSpans(spans, j) <==> Shown(ops, ctx, j)))
  }

  lemma InSpansExtended(spans: seq<Span>, last: Span, j: int)
    ensures InSpans(spans + [last], j) <==> InSpans(spans, j) || last.from <= j < last.to
  {
    var more := spans + [last];
    assert more[|spans|] == last;
    assert forall i :: 0 <= i < |spans| ==> more[i] == spans[i];
  }

  /** A span of shown steps, right up to the new decision point, extends what is decided. */
  lemma DecideSpan<T>(ops: seq<Op<T>>, ctx: nat, spans: seq<Span>, p: nat, s: nat, q: nat)
    requires Decided(ops, ctx, spans, p)
    requires p == s < q <= |ops|
    requires spans != [] ==> spans[|spans| - 1].to < s
    requires forall j :: s <= j < q ==> Shown(ops, ctx, j)
    ensures Decided(ops, ctx, spans + [Span(s, q)], q)
  {
    forall j | 0 <= j < q
      ensures InSpans(spans + [Span(s, q)], j) <==> Shown(ops, ctx, j)
    {
      InSpansExtended(spans, Span(s, q), j);
    }
  }

  /** Steps that are not shown can be passed over. */
  lemma DecideGap<T>(ops: seq<Op<T>>, ctx: nat, spans: seq<Span>, p: nat, q: nat)
    requires Decided(ops, ctx, spans, p)
    requires p <= q <= |ops|
    requires forall j :: p <= j < q ==> !Shown(ops, ctx, j)
    ensures Decided(ops, ctx, spans, q)
  {
    forall j | p <= j < q
      ensures !InSpans(spans, j)
    {
    }
  }

  /** The last span reaches a little further. */
  lemma DecideLonger<T>(ops: seq<Op<T>>, ctx: nat, spans: seq<Span>, s: nat, p: nat, q: nat)
    requires Decided(ops, ctx, spans + [Span(s, p)], p)
    requires p <= q <= |ops|
    requires forall j :: p <= j < q ==> Shown(ops, ctx, j)
    ensures Decided(ops, ctx, spans + [Span(s, q)], q)
  {
    var was, now := spans + [Span(s, p)], spans + [Span(s, q)];
    assert forall i :: 0 <= i < |spans| ==> was[i] == spans[i] == now[i];
    assert was[|spans|] == Span(s, p) && now[|spans|] == Span(s, q);
    forall j | 0 <= j < q
      ensures InSpans(now, j) <==> Shown(ops, ctx, j)
    {
      InSpansExtended(spans, Span(s, p), j);
      InSpansExtended(spans, Span(s, q), j);
    }
  }

  /** Every change so far is more than `ctx` steps before `p`. */
  ghost predicate FarBehind<T>(ops: seq<Op<T>>, ctx: nat, p: nat, i: nat) {
    forall c :: Changed(ops, c) && c < i ==> c + ctx < p
  }

  /** The state of the loop with no hunk open: the next one would start at `p`. */
  ghost predicate Between<T>(ops: seq<Op<T>>, ctx: nat, spans: seq<Span>, p: nat, i: nat) {
    && p <= i <= p + ctx
    && Decided(ops, ctx, spans, p)
    && FarBehind(ops, ctx, p, i)
    && (spans != [] ==> spans[|spans| - 1].to < p)
  }

  /** The state of the loop with a hunk open since `s`, its last change just before `p`. */
  ghost predicate Within<T>(ops: seq<Op<T>>, ctx: nat, spans: seq<Span>, s: nat, p: nat, i: nat) {
    && p <= i <= p + 2 * ctx
    && Decided(ops, ctx, spans + [Span(s, p)], p)
    && Changed(ops, p - 1)
  }

  ghost predicate NoneBetween<T>(ops: seq<Op<T>>, p: int, i: int) {
    forall c :: Changed(ops, c) ==> !(p <= c < i)
  }

  /** With no hunk open, the oldest line held back is dropped once `ctx` unchanged lines follow it. */
  lemma DropOldest<T>(ops: seq<Op<T>>, ctx: nat, spans: seq<Span>, p: nat)
    requires Between(ops, ctx, spans, p, p + ctx)
    requires p + ctx < |ops| && NoneBetween(ops, p, p + ctx + 1)
    ensures Between(ops, ctx, spans, p + 1, p + ctx + 1)
  {
    DecideGap(ops, ctx, spans, p, p + 1);
  }

  /** An open hunk closes `ctx` lines past its last change, leaving exactly one line out. */
  lemma CloseHunk<T>(ops: seq<Op<T>>, ctx: nat, spans: seq<Span>, s: nat, p: nat)
    requires Within(ops, ctx, spans, s, p, p + 2 * ctx)
    requires p + 2 * ctx < |ops| && NoneBetween(ops, p, p + 2 * ctx + 1)
    ensures Between(ops, ctx, spans + [Span(s, p + ctx)], p + ctx + 1, p + 2 * ctx + 1)
  {
    NearLastChange(ops, ctx, p, p + ctx);
    DecideLonger(ops, ctx, spans, s, p, p + ctx);
    DecideGap(ops, ctx, spans + [Span(s, p + ctx)], p + ctx, p + ctx + 1);
  }

  lemma NearLastChange<T>(ops: seq<Op<T>>, ctx: nat, p: int, q: int)
    requires Changed(ops, p - 1) && q <= p + ctx
    ensures forall j :: p <= j < q ==> Shown(ops, ctx, j)
  {
  }

  /** A change with no hunk open starts one, context first. */
  lemma OpenHunk<T>(ops: seq<Op<T>>, ctx: nat, spans: seq<Span>, p: nat, i: nat)
    requires Between(ops, ctx, spans, p, i) && Changed(ops, i)
    ensures Within(ops, ctx, spans, p, i + 1, i + 1)
  {
    forall j | p <= j < i + 1
      ensures Shown(ops, ctx, j)
    {
    }
    DecideSpan(ops, ctx, spans, p, p, i + 1);
  }

  /** A change with a hunk open takes in everything held back. */
  lemma GrowHunk<T>(ops: seq<Op<T>>, ctx: nat, spans: seq<Span>, s: nat, p: nat, i: nat)
    requires Within(ops, ctx, spans, s, p, i) && Changed(ops, i)
    ensures Within(ops, ctx, spans, s, i + 1, i + 1)
  {
    forall j | p <= j < i + 1
      ensures Shown(ops, ctx, j)
    {
      if j >= p + ctx {
        assert Changed(ops, i) && i - ctx <= j <= i + ctx;
      }
    }
    DecideLonger(ops, ctx, spans, s, p, i + 1);
  }

  /** At the end an open hunk keeps at most `ctx` trailing lines. */
  lemma FinishHunk<T>(ops: seq<Op<T>>, ctx: nat, spans: seq<Span>, s: nat, p: nat, end: nat)
    requires Within(ops, ctx, spans, s, p, |ops|) && NoneBetween(ops, p, |ops|)
    requires end == if |ops| - p < ctx then |ops| - p else ctx
    ensures Decided(ops, ctx, spans + [Span(s, p + end)], |ops|)
  {
    NearLastChange(ops, ctx, p, p + end);
    DecideLonger(ops, ctx, spans, s, p, p + end);
    DecideGap(ops, ctx, spans + [Span(s, p + end)], p + end, |ops|);
  }

  /** At the end with no hunk open, nothing held back is shown. */
  lemma FinishBetween<T>(ops: seq<Op<T>>, ctx: nat, spans: seq<Span>, p: nat)
    requires Between(ops, ctx, spans, p, |ops|) && NoneBetween(ops, p, |ops|)
    ensures Decided(ops, ctx, spans, |ops|)
  {
    DecideGap(ops, ctx, spans, p, |ops|);
  }

  ghost predicate Drawn<T>(ops: seq<Op<T>>, hunks: seq<Hunk<T>>, spans: seq<Span>) {
    && |hunks| == |spans|
    && (forall i :: 0 <= i < |spans| ==>
          spans[i].from <= spans[i].to <= |ops| && hunks[i] == HunkOf(ops, spans[i].from, spans[i].to))
  }

  lemma DrawOne<T>(ops: seq<Op<T>>, hunks: seq<Hunk<T>>, spans: seq<Span>, h: Hunk<T>, s: nat, e: nat)
    requires Drawn(ops, hunks, spans) && s <= e <= |ops| && h == HunkOf(ops, s, e)
    ensures Drawn(ops, hunks + [h], spans + [Span(s, e)])
  {
  }

  /** What the loop carries from one step of the script to the next. */
  datatype Grouping<T> = Grouping(out: seq<Hunk<T>>, cur: Option<Hunk<T>>, aLine: nat, bLine: nat,
                                  pending: seq<DiffLine<T>>)

  ghost predicate Counted<T>(ops: seq<Op<T>>, i: nat, g: Grouping<T>)
    requires i <= |ops|
  {
    g.aLine == |OldSide(ops[..i])| + 1 && g.bLine == |NewSide(ops[..i])| + 1
  }

  /** The line counters, the lines held back since `p` and the finished hunks, after `i` steps. */
  ghost predicate Holding<T>(ops: seq<Op<T>>, i: nat, g: Grouping<T>, spans: seq<Span>, p: nat) {
    && p <= i <= |ops|
    && Counted(ops, i, g)
    && g.pending == NumberedLines(ops, p, i) && NoneBetween(ops, p, i)
    && Drawn(ops, g.out, spans)
  }

  ghost predicate Invariant<T>(ops: seq<Op<T>>, ctx: nat, i: nat, g: Grouping<T>,
                               spans: seq<Span>, s: nat, p: nat)
  {
    && Holding(ops, i, g, spans, p)
    && (g.cur.None? ==> Between(ops, ctx, spans, p, i))
    && (g.cur.Some? ==> s <= p && Within(ops, ctx, spans, s, p, i) && g.cur.value == HunkOf(ops, s, p))
  }

  lemma CountStep<T>(ops: seq<Op<T>>, i: nat, g: Grouping<T>, h: Grouping<T>)
    requires i < |ops| && Counted(ops, i, g)
    requires h.aLine == g.aLine + if ops[i].Insert? then 0 else 1
    requires h.bLine == g.bLine + if ops[i].Remove? then 0 else 1
    ensures Counted(ops, i + 1, h)
  {
    assert ops[..i + 1][..i] == ops[..i];
  }

  lemma HoldOne<T>(ops: seq<Op<T>>, i: nat, g: Grouping<T>, h: Grouping<T>, spans: seq<Span>, p: nat)
    requires i < |ops| && ops[i].Keep? && Holding(ops, i, g, spans, p)
    requires h == g.(pending := g.pending + [DiffLine(ops[i], Some(g.aLine), Some(g.bLine))],
                     aLine := g.aLine + 1, bLine := g.bLine + 1)
    ensures Holding(ops, i + 1, h, spans, p)
  {
    CountStep(ops, i, g, h);
  }

  /** The first lines held back, as an open hunk takes them in. */
  lemma HeldHead<T>(ops: seq<Op<T>>, i: nat, g: Grouping<T>, spans: seq<Span>, p: nat, m: nat)
    requires Holding(ops, i, g, spans, p) && p <= m <= i
    ensures g.pending[..m - p] == NumberedLines(ops, p, m)
  {
    NumberedCut(ops, p, m, i);
  }

  /** Lines held back are let go, oldest first, and hunks may be finished meanwhile. */
  lemma HoldLess<T>(ops: seq<Op<T>>, i: nat, g: Grouping<T>, h: Grouping<T>, spans: seq<Span>, more: seq<Span>,
                    p: nat, m: nat)
    requires Holding(ops, i, g, spans, p) && p <= m <= i
    requires h.aLine == g.aLine && h.bLine == g.bLine && h.pending == g.pending[m - p..]
    requires Drawn(ops, h.out, more)
    ensures Holding(ops, i, h, more, m)
  {
    NumberedCut(ops, p, m, i);
  }

  /** An open hunk with some of the lines held back, drawn after the others. */
  method CloseWith<T>(ghost ops: seq<Op<T>>, g: Grouping<T>, count: nat, ghost i: nat,
                      ghost spans: seq<Span>, ghost s: nat, ghost p: nat)
    returns (out: seq<Hunk<T>>)
    requires Holding(ops, i, g, spans, p) && count <= |g.pending|
    requires g.cur.Some? && s <= p && g.cur.value == HunkOf(ops, s, p)
    ensures Drawn(ops, out, spans + [Span(s, p + count)])
  {
    HeldHead(ops, i, g, spans, p, p + count);
    var h := PushAll(g.cur.value, g.pending[..count], ops, s, p);
    DrawOne(ops, g.out, spans, h, s, p + count);
    out := g.out + [h];
  }

  /** Far enough past a change: the open hunk closes. */
  method CloseOpen<T>(ghost ops: seq<Op<T>>, ctx: nat, ghost i: nat, g0: Grouping<T>,
                      ghost spans0: seq<Span>, ghost s: nat, ghost p0: nat)
    returns (g: Grouping<T>, ghost spans: seq<Span>, ghost p: nat)
    requires Holding(ops, i + 1, g0, spans0, p0) && |g0.pending| > ctx * 2
    requires g0.cur.Some? && s <= p0 && g0.cur.value == HunkOf(ops, s, p0)
    requires Within(ops, ctx, spans0, s, p0, i)
    ensures g.cur.None? && Holding(ops, i + 1, g, spans, p) && Between(ops, ctx, spans, p, i + 1)
  {
    assert i == p0 + 2 * ctx;
    CloseHunk(ops, ctx, spans0, s, p0);
    spans, p := spans0 + [Span(s, p0 + ctx)], p0 + ctx + 1;
    var out := CloseWith(ops, g0, ctx, i + 1, spans0, s, p0);
    g := g0.(out := out, cur := None, pending := g0.pending[|g0.pending| - ctx..]);
    HoldLess(ops, i + 1, g0, g, spans0, spans, p0, p);
  }

  /** With no hunk open, only the last `ctx` lines are worth holding back. */
  method DropFirst<T>(ghost ops: seq<Op<T>>, ctx: nat, ghost i: nat, g0: Grouping<T>,
                      ghost spans: seq<Span>, ghost p: nat)
    returns (g: Grouping<T>)
    requires Holding(ops, i + 1, g0, spans, p) && g0.cur.None? && |g0.pending| > ctx
    requires Between(ops, ctx, spans, p, i)
    ensures g.cur.None? && Holding(ops, i + 1, g, spans, p + 1) && Between(ops, ctx, spans, p + 1, i + 1)
  {
    DropOldest(ops, ctx, spans, p);
    g := g0.(pending := g0.pending[|g0.pending| - ctx..]);
    HoldLess(ops, i + 1, g0, g, spans, spans, p, p + 1);
  }

  /**
   An unchanged line: held back, closing the open hunk or dropping the oldest
   line when there are too many. Closing leaves `ctx` lines, so it is one or the other.
   */
  method KeepLine<T>(ops: seq<Op<T>>, ctx: nat, i: nat, g0: Grouping<T>,
                     ghost spans0: seq<Span>, ghost s: nat, ghost p0: nat)
    returns (g: Grouping<T>, ghost spans: seq<Span>, ghost p: nat)
    requires i < |ops| && ops[i].Keep? && Invariant(ops, ctx, i, g0, spans0, s, p0)
    ensures Invariant(ops, ctx, i + 1, g, spans, s, p)
  {
    spans, p := spans0, p0;
    g := g0.(pending := g0.pending + [DiffLine(ops[i], Some(g0.aLine), Some(g0.bLine))],
             aLine := g0.aLine + 1, bLine := g0.bLine + 1);
    HoldOne(ops, i, g0, g, spans, p);
    if g.cur.Some? && |g.pending| > ctx * 2 {
      g, spans, p := CloseOpen(ops, ctx, i, g, spans, s, p);
    } else if g.cur.None? && |g.pending| > ctx {
      g := DropFirst(ops, ctx, i, g, spans, p);
      p := p + 1;
    }
  }

  /** The hunk a change goes into: the open one, or a new one that starts where the held-back lines do. */
  method HunkForChange<T>(ops: seq<Op<T>>, ctx: nat, i: nat, g: Grouping<T>,
                          ghost spans: seq<Span>, ghost s0: nat, ghost p: nat)
    returns (h: Hunk<T>, ghost s: nat)
    requires i < |ops| && !ops[i].Keep? && Invariant(ops, ctx, i, g, spans, s0, p)
    ensures s <= p && h == HunkOf(ops, s, p)
    ensures Within(ops, ctx, spans, s, i + 1, i + 1)
  {
    assert Changed(ops, i);
    if g.cur.None? {
      h := Hunk(g.aLine, g.bLine, 0, 0, []);
      if |g.pending| > 0 {
        assert !Changed(ops, p);
        assert g.pending[0] == NumberedLine(ops, p);
        h := h.(aStart := g.pending[0].aLine.value, bStart := g.pending[0].bLine.value);
      }
      OpenHunk(ops, ctx, spans, p, i);
      s := p;
    } else {
      GrowHunk(ops, ctx, spans, s0, p, i);
      h, s := g.cur.value, s0;
    }
  }

  /** A changed line: everything held back goes into its hunk, then the line itself. */
  method ChangeLine<T>(ops: seq<Op<T>>, ctx: nat, i: nat, g0: Grouping<T>,
                       ghost spans: seq<Span>, ghost s0: nat, ghost p0: nat)
    returns (g: Grouping<T>, ghost s: nat)
    requires i < |ops| && !ops[i].Keep? && Invariant(ops, ctx, i, g0, spans, s0, p0)
    ensures Invariant(ops, ctx, i + 1, g, spans, s, i + 1)
  {
    var h;
    h, s := HunkForChange(ops, ctx, i, g0, spans, s0, p0);
    h := PushAll(h, g0.pending, ops, s, p0);
    PushExtends(ops, s, i);
    g := g0.(pending := []);
    if ops[i].Remove? {
      h := Push(h, DiffLine(ops[i], Some(g.aLine), None));
      g := g.(aLine := g.aLine + 1);
    } else {
      h := Push(h, DiffLine(ops[i], None, Some(g.bLine)));
      g := g.(bLine := g.bLine + 1);
    }
    g := g.(cur := Some(h));
    CountStep(ops, i, g0, g);
  }

  /** An open hunk at the end of the script keeps up to `ctx` of the lines held back. */
  method Finish<T>(ops: seq<Op<T>>, ctx: nat, g: Grouping<T>, ghost spans0: seq<Span>, ghost s: nat, ghost p: nat)
    returns (out: seq<Hunk<T>>, ghost spans: seq<Span>)
    requires Invariant(ops, ctx, |ops|, g, spans0, s, p)
    ensures Drawn(ops, out, spans) && Decided(ops, ctx, spans, |ops|)
  {
    out, spans := g.out, spans0;
    if g.cur.Some? {
      var end := ctx;
      if |g.pending| < end {
        end := |g.pending|;
      }
      FinishHunk(ops, ctx, spans, s, p, end);
      out := CloseWith(ops, g, end, |ops|, spans, s, p);
      spans := spans + [Span(s, p + end)];
    } else {
      FinishBetween(ops, ctx, spans, p);
    }
  }

  method BuildHunks<T>(ops: seq<Op<T>>, ctx: nat) returns (out: seq<Hunk<T>>, ghost spans: seq<Span>)
    ensures IsHunkList(ops, ctx, out)
    ensures IsRendering(ops, ctx, out, spans)
  {
    var g: Grouping<T> := Grouping([], None, 1, 1, []);
    spans := [];
    ghost var s: nat, p: nat := 0, 0;
    for i := 0 to |ops|
      invariant Invariant(ops, ctx, i, g, spans, s, p)
    {
      if ops[i].Keep? {
        g, spans, p := KeepLine(ops, ctx, i, g, spans, s, p);
      } else {
        g, s := ChangeLine(ops, ctx, i, g, spans, s, p);
        p := i + 1;
      }
    }
    out, spans := Finish(ops, ctx, g, spans, s, p);
    assert IsRendering(ops, ctx, out, spans);
  }
}
