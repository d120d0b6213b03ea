/** Which stored backups retention removes, and the sweep that removes them. */
module Prune {
  import opened Wrappers
  import opened Stems
  import opened Calendar

  const DAY_MS := 86_400_000

  datatype Pair = Pair(stem: string, rscBytes: int, backupBytes: int)

  /** Per-router limits; one that is not positive is not applied. */
  datatype Retention = Retention(keepCount: int, keepDays: int)

  predicate AtLeast(s: string, t: string) {
    !Less(s, t)
  }

  // ---- The stems as a sorted list -------------------------------------------

  predicate IsNewestFirst(stems: seq<string>) {
    forall i, j :: 0 <= i < j < |stems| ==> AtLeast(stems[i], stems[j])
  }

  /** Into its place among stems already newest first, after any equal to it. */
  function Insert(stems: seq<string>, s: string): (r: seq<string>)
    ensures multiset(r) == multiset(stems) + multiset{s}
  {
    if stems == [] then [s]
    else
      var last := stems[|stems| - 1];
      assert stems == stems[..|stems| - 1] + [last];
      if AtLeast(last, s) then stems + [s] else Insert(stems[..|stems| - 1], s) + [last]
  }

  function NewestFirst(stems: seq<string>): (r: seq<string>)
    ensures multiset(r) == multiset(stems)
  {
    if stems == [] then []
    else
      assert stems == stems[..|stems| - 1] + [stems[|stems| - 1]];
      Insert(NewestFirst(stems[..|stems| - 1]), stems[|stems| - 1])
  }

  lemma {:induction false} InsertKeepsOrder(stems: seq<string>, s: string)
    requires IsNewestFirst(stems)
    ensures IsNewestFirst(Insert(stems, s))
  {
    if stems != [] {
      var last := stems[|stems| - 1];
      if AtLeast(last, s) {
        forall i | 0 <= i < |stems|
          ensures AtLeast(stems[i], s)
        {
          if i < |stems| - 1 {
            AtLeastIsTransitive(stems[i], last, s);
          }
        }
      } else {
        var front := stems[..|stems| - 1];
        InsertKeepsOrder(front, s);
        var r := Insert(front, s);
        LessIsTotal(last, s);
        forall i | 0 <= i < |r|
          ensures AtLeast(r[i], last)
        {
          assert r[i] in multiset(r);
          assert r[i] in front || r[i] == s;
        }
      }
    }
  }

  lemma AtLeastIsTransitive(a: string, b: string, c: string)
    requires AtLeast(a, b) && AtLeast(b, c)
    ensures AtLeast(a, c)
  {
    LessIsTotal(a, b);
    LessIsTotal(b, c);
    LessIsTransitive(a, c, b);
    LessIsTransitive(b, a, c);
    LessIsTotal(a, c);
  }

  lemma {:induction false} NewestFirstSorts(stems: seq<string>)
    ensures IsNewestFirst(NewestFirst(stems))
  {
    if stems != [] {
      NewestFirstSorts(stems[..|stems| - 1]);
      InsertKeepsOrder(NewestFirst(stems[..|stems| - 1]), stems[|stems| - 1]);
    }
  }

  lemma LastsAgree(a: seq<string>, b: seq<string>)
    requires IsNewestFirst(a) && IsNewestFirst(b) && multiset(a) == multiset(b) && a != [] && b != []
    ensures a[|a| - 1] == b[|b| - 1]
  {
    var x, y := a[|a| - 1], b[|b| - 1];
    assert x in multiset(b) && y in multiset(a);
    var i :| 0 <= i < |b| && b[i] == x;
    var j :| 0 <= j < |a| && a[j] == y;
    LessIsIrreflexive(x);
    LessIsTotal(x, y);
  }

  lemma WithoutLast(a: seq<string>)
    requires a != []
    ensures a == a[..|a| - 1] + [a[|a| - 1]]
    ensures multiset(a[..|a| - 1]) == multiset(a) - multiset{a[|a| - 1]}
    ensures IsNewestFirst(a) ==> IsNewestFirst(a[..|a| - 1])
  {
    assert multiset(a) == multiset(a[..|a| - 1]) + multiset{a[|a| - 1]} by {
      assert a == a[..|a| - 1] + [a[|a| - 1]];
    }
  }

  /** Sorting does not remember the order it was given. */
  lemma {:induction false} SortedIsUnique(a: seq<string>, b: seq<string>)
    requires IsNewestFirst(a) && IsNewestFirst(b) && multiset(a) == multiset(b)
    ensures a == b
  {
    if a == [] || b == [] {
      assert |multiset(a)| == |a| && |multiset(b)| == |b|;
    } else {
      LastsAgree(a, b);
      WithoutLast(a);
      WithoutLast(b);
      var f, g := a[..|a| - 1], b[..|b| - 1];
      SortedIsUnique(f, g);
    }
  }

  // ---- What retention means -------------------------------------------------

  /** How many stems are as new as `s` or newer: its rank, counted from one. */
  ghost function Rank(stems: seq<string>, s: string): nat {
    if stems == [] then 0
    else Rank(stems[..|stems| - 1], s) + if AtLeast(stems[|stems| - 1], s) then 1 else 0
  }

  ghost predicate IsNewest(stems: seq<string>, s: string) {
    s in stems && forall t :: t in stems ==> AtLeast(s, t)
  }

  ghost predicate IsTooOld(s: string, r: Retention, now: int) {
    r.keepDays > 0 && StemToMs(s).Some? && StemToMs(s).value < now - r.keepDays * DAY_MS
  }

  /**
   So many days are so many dates: a real stem is too old exactly when it comes
   before the stem of the same time of day that many dates earlier, or is that
   stem and the clock is past the full second.
   */
  lemma TooOldIsDatesEarlier(s: string, r: Retention, now: int, limit: Stamp)
    requires r.keepDays > 0 && HasShape(s) && IsReal(s) && InRange(now) && IsStamp(limit)
    requires Day(limit.date) == Day(StampOf(now).date) - r.keepDays
    requires limit.hour == StampOf(now).hour && limit.minute == StampOf(now).minute && limit.second == StampOf(now).second
    ensures IsTooOld(s, r, now) <==> Less(s, Render(limit)) || (s == Render(limit) && now % 1000 != 0)
  {
    var ms := StemToMs(s).value;
    RealIsWritten(s);
    StemRoundTrips(ms);
    var at := (Instant(limit) - EPOCH_DAY * 86_400) * 1000;
    StampOfItself(limit, at);
    StemOrderIsTimeOrder(ms, at);
    OlderInSeconds(ms, SecondOf(ms), now, SecondOf(now), r.keepDays);
    assert SecondOf(at) == SecondOf(now) - r.keepDays * 86_400;
  }

  lemma OlderInSeconds(ms: int, second: int, now: int, nowSecond: int, days: int)
    requires ms == second * 1000 && nowSecond == now / 1000
    ensures ms < now - days * DAY_MS <==>
            second < nowSecond - days * 86_400 || (second == nowSecond - days * 86_400 && now % 1000 != 0)
  {
    assert now == nowSecond * 1000 + now % 1000;
  }

  /** Not the newest, and past one of the limits. */
  ghost predicate IsDoomed(stems: seq<string>, r: Retention, now: int, s: string) {
    && s in stems && !IsNewest(stems, s)
    && ((r.keepCount > 0 && Rank(stems, s) > r.keepCount) || IsTooOld(s, r, now))
  }

  /** In a sorted list, those as new as `s` come first, so its rank says where they end. */
  lemma {:induction false} RankInSorted(sorted: seq<string>, s: string, k: nat)
    requires IsNewestFirst(sorted)
    ensures Rank(sorted, s) <= |sorted|
    ensures Rank(sorted, s) > k <==> k < |sorted| && AtLeast(sorted[k], s)
  {
    if sorted != [] {
      var front, last := sorted[..|sorted| - 1], sorted[|sorted| - 1];
      RankInSorted(front, s, k);
      if AtLeast(last, s) {
        if |front| > 0 {
          RankInSorted(front, s, |front| - 1);
          AtLeastIsTransitive(front[|front| - 1], last, s);
        }
        if k < |front| {
          AtLeastIsTransitive(sorted[k], last, s);
        }
      }
    }
  }

  /** Beyond the count by position is beyond it by rank. */
  lemma BeyondCount(sorted: seq<string>, s: string, k: nat)
    requires IsNewestFirst(sorted)
    ensures s in sorted[if k <= |sorted| then k else |sorted|..] <==> s in sorted && Rank(sorted, s) > k
  {
    RankInSorted(sorted, s, k);
    LessIsIrreflexive(s);
    var from := if k <= |sorted| then k else |sorted|;
    if s in sorted[from..] {
      var i :| from <= i < |sorted| && sorted[i] == s;
      assert k == i || AtLeast(sorted[k], s);
    }
    if s in sorted && Rank(sorted, s) > k {
      var j :| 0 <= j < |sorted| && sorted[j] == s;
      if j < k {
        LessIsTotal(sorted[k], s);
        assert AtLeast(s, sorted[k]);
        assert sorted[from..][0] == s;
      } else {
        assert sorted[from..][j - from] == s;
      }
    }
  }

  lemma FirstIsNewest(sorted: seq<string>, s: string)
    requires IsNewestFirst(sorted) && sorted != []
    ensures s == sorted[0] <==> IsNewest(sorted, s)
  {
    LessIsIrreflexive(sorted[0]);
    if IsNewest(sorted, s) {
      var i :| 0 <= i < |sorted| && sorted[i] == s;
      assert AtLeast(s, sorted[0]);
      assert i == 0 || AtLeast(sorted[0], s);
      LessIsTotal(s, sorted[0]);
    }
  }

  // ---- Rank and age do not depend on the order given ------------------------

  lemma {:induction false} RankAfterInsert(stems: seq<string>, x: string, s: string)
    ensures Rank(Insert(stems, x), s) == Rank(stems, s) + if AtLeast(x, s) then 1 else 0
  {
    if stems != [] {
      var front, last := stems[..|stems| - 1], stems[|stems| - 1];
      if AtLeast(last, x) {
        assert (stems + [x])[..|stems|] == stems;
      } else {
        RankAfterInsert(front, x, s);
        var r := Insert(front, x);
        assert (r + [last])[..|r|] == r;
      }
    }
  }

  lemma {:induction false} RankAfterSort(stems: seq<string>, s: string)
    ensures Rank(NewestFirst(stems), s) == Rank(stems, s)
  {
    if stems != [] {
      RankAfterSort(stems[..|stems| - 1], s);
      RankAfterInsert(NewestFirst(stems[..|stems| - 1]), stems[|stems| - 1], s);
    }
  }

  lemma SameMembers(a: seq<string>, b: seq<string>, s: string)
    requires multiset(a) == multiset(b)
    ensures s in a <==> s in b
  {
    assert s in a <==> s in multiset(a);
    assert s in b <==> s in multiset(b);
  }

  /** The same stems in another order doom the same ones. */
  lemma DoomIgnoresOrder(a: seq<string>, b: seq<string>, r: Retention, now: int, s: string)
    requires multiset(a) == multiset(b)
    ensures IsDoomed(a, r, now, s) <==> IsDoomed(b, r, now, s)
  {
    forall t
      ensures t in a <==> t in b
    {
      SameMembers(a, b, t);
    }
    NewestFirstSorts(a);
    NewestFirstSorts(b);
    SortedIsUnique(NewestFirst(a), NewestFirst(b));
    RankAfterSort(a, s);
    RankAfterSort(b, s);
  }

  // ---- SelectForPruning -----------------------------------------------------

  /** Exactly the doomed stems, each as often as it was given, newest first. */
  ghost predicate IsSelection(out: seq<string>, stems: seq<string>, r: Retention, now: int) {
    && IsNewestFirst(out)
    && (forall s :: multiset(out)[s] == if IsDoomed(stems, r, now, s) then multiset(stems)[s] else 0)
  }

  /** The stems of the pairs this program could have written, in the order given. */
  function Parseable(pairs: seq<Pair>): seq<string> {
    if pairs == [] then []
    else
      var rest := Parseable(pairs[..|pairs| - 1]);
      var stem := pairs[|pairs| - 1].stem;
      if StemToMs(stem).Some? then rest + [stem] else rest
  }

  /** Those beyond the count by position, which is by rank. */
  method MarkByCount(sorted: seq<string>, r: Retention) returns (doomed: set<string>)
    requires IsNewestFirst(sorted)
    ensures forall s :: s in doomed <==> s in sorted && r.keepCount > 0 && Rank(sorted, s) > r.keepCount
  {
    doomed := {};
    if r.keepCount > 0 && |sorted| > r.keepCount {
      for i := r.keepCount to |sorted|
        invariant doomed == set s | s in sorted[r.keepCount..i]
      {
        assert sorted[r.keepCount..i + 1] == sorted[r.keepCount..i] + [sorted[i]];
        doomed := doomed + {sorted[i]};
      }
    }
    if r.keepCount > 0 {
      forall s
        ensures s in doomed <==> s in sorted && Rank(sorted, s) > r.keepCount
      {
        BeyondCount(sorted, s, r.keepCount);
      }
    }
  }

  /** And those older than the cutoff. */
  method MarkByAge(sorted: seq<string>, r: Retention, now: int, marked: set<string>) returns (doomed: set<string>)
    ensures forall s :: s in doomed <==> s in marked || (s in sorted && IsTooOld(s, r, now))
  {
    doomed := marked;
    if r.keepDays > 0 {
      var cutoff := now - r.keepDays * DAY_MS;
      for i := 0 to |sorted|
        invariant forall s :: s in doomed <==> s in marked || (s in sorted[..i] && IsTooOld(s, r, now))
      {
        assert sorted[..i + 1] == sorted[..i] + [sorted[i]];
        var ms := StemToMs(sorted[i]);
        if ms.Some? && ms.value < cutoff {
          doomed := doomed + {sorted[i]};
        }
      }
      assert sorted[..|sorted|] == sorted;
    }
  }

  /** What the two limits catch, with the newest taken back out. */
  method MarkDoomed(sorted: seq<string>, r: Retention, now: int) returns (doomed: set<string>)
    requires sorted != [] && IsNewestFirst(sorted)
    ensures forall s :: s in doomed <==> IsDoomed(sorted, r, now, s)
  {
    doomed := MarkByCount(sorted, r);
    doomed := MarkByAge(sorted, r, now, doomed);
    doomed := doomed - {sorted[0]};
    forall s
      ensures s == sorted[0] <==> IsNewest(sorted, s)
    {
      FirstIsNewest(sorted, s);
    }
  }

  /** The marked stems in the order they are listed. */
  method Pick(sorted: seq<string>, doomed: set<string>) returns (out: seq<string>)
    requires IsNewestFirst(sorted)
    ensures IsNewestFirst(out)
    ensures forall s :: multiset(out)[s] == if s in doomed then multiset(sorted)[s] else 0
  {
    out := [];
    for i := 0 to |sorted|
      invariant IsNewestFirst(out)
      invariant forall k :: 0 <= k < |out| ==> out[k] in sorted[..i]
      invariant forall s :: multiset(out)[s] == if s in doomed then multiset(sorted[..i])[s] else 0
    {
      assert sorted[..i + 1] == sorted[..i] + [sorted[i]];
      if sorted[i] in doomed {
        out := out + [sorted[i]];
      }
    }
    assert sorted[..|sorted|] == sorted;
  }

  method SelectForPruning(pairs: seq<Pair>, r: Retention, now: int) returns (out: seq<string>)
    ensures IsSelection(out, Parseable(pairs), r, now)
  {
    var stems := [];
    for i := 0 to |pairs|
      invariant stems == Parseable(pairs[..i])
    {
      assert pairs[..i + 1][..i] == pairs[..i];
      var ms := StemToMs(pairs[i].stem);
      if ms.Some? {
        stems := stems + [pairs[i].stem];
      }
    }
    assert pairs[..|pairs|] == pairs;
    var sorted := NewestFirst(stems);
    NewestFirstSorts(stems);
    assert |multiset(sorted)| == |sorted| && |multiset(stems)| == |stems|;
    forall s
      ensures IsDoomed(sorted, r, now, s) <==> IsDoomed(stems, r, now, s)
    {
      DoomIgnoresOrder(sorted, stems, r, now, s);
    }
    if |sorted| <= 1 {
      OneIsKept(stems, r, now);
      return [];
    }
    var doomed := MarkDoomed(sorted, r, now);
    out := Pick(sorted, doomed);
  }

  lemma OneIsKept(stems: seq<string>, r: Retention, now: int)
    requires |stems| <= 1
    ensures forall s :: !IsDoomed(stems, r, now, s)
  {
    if |stems| == 1 {
      LessIsIrreflexive(stems[0]);
      assert IsNewest(stems, stems[0]);
    }
  }

  // ---- What retention promises ----------------------------------------------

  /** The selection does not depend on the order the pairs came in. */
  lemma SelectionIgnoresOrder(out: seq<string>, out': seq<string>, a: seq<string>, b: seq<string>, r: Retention, now: int)
    requires IsSelection(out, a, r, now) && IsSelection(out', b, r, now) && multiset(a) == multiset(b)
    ensures out == out'
  {
    forall s
      ensures multiset(out)[s] == multiset(out')[s]
    {
      DoomIgnoresOrder(a, b, r, now, s);
    }
    assert multiset(out) == multiset(out');
    SortedIsUnique(out, out');
  }

  /** Raising a limit that applies never dooms more. */
  lemma LargerLimitsDoomLess(stems: seq<string>, small: Retention, large: Retention, now: int, s: string)
    requires 0 < small.keepCount <= large.keepCount || (small.keepCount <= 0 && large.keepCount <= 0)
    requires 0 < small.keepDays <= large.keepDays || (small.keepDays <= 0 && large.keepDays <= 0)
    requires IsDoomed(stems, large, now, s)
    ensures IsDoomed(stems, small, now, s)
  {
  }

  /** The stems retention leaves, in the order given. */
  ghost function Survivors(stems: seq<string>, all: seq<string>, r: Retention, now: int): seq<string> {
    if stems == [] then []
    else
      var rest := Survivors(stems[..|stems| - 1], all, r, now);
      var last := stems[|stems| - 1];
      if IsDoomed(all, r, now, last) then rest else rest + [last]
  }

  lemma {:induction false} SurvivorsAre(stems: seq<string>, all: seq<string>, r: Retention, now: int, s: string)
    ensures s in Survivors(stems, all, r, now) <==> s in stems && !IsDoomed(all, r, now, s)
    ensures Rank(Survivors(stems, all, r, now), s) <= Rank(stems, s)
  {
    if stems != [] {
      var front, last := stems[..|stems| - 1], stems[|stems| - 1];
      SurvivorsAre(front, all, r, now, s);
      assert stems == front + [last];
      var rest := Survivors(front, all, r, now);
      assert (rest + [last])[..|rest|] == rest;
    }
  }

  /** A second sweep at the same instant finds nothing left to remove. */
  lemma NothingLeftToPrune(stems: seq<string>, r: Retention, now: int, s: string)
    ensures !IsDoomed(Survivors(stems, stems, r, now), r, now, s)
  {
    var left := Survivors(stems, stems, r, now);
    SurvivorsAre(stems, stems, r, now, s);
    if IsDoomed(left, r, now, s) {
      assert IsNewest(stems, s);
      forall t | t in left
        ensures t in stems
      {
        SurvivorsAre(stems, stems, r, now, t);
      }
    }
  }

  ghost predicate IsStemOf(s: string, t: int) {
    InRange(t) && s == StemFor(t)
  }

  /** For stems written from real instants, newest first by name is newest first by time. */
  lemma NewestFirstByTime(stems: seq<string>)
    ensures var sorted := NewestFirst(stems);
            forall i, j, t, u :: 0 <= i < j < |sorted| && IsStemOf(sorted[i], t) && IsStemOf(sorted[j], u) ==>
              SecondOf(t) >= SecondOf(u)
  {
    NewestFirstSorts(stems);
    var sorted := NewestFirst(stems);
    forall i, j, t, u | 0 <= i < j < |sorted| && IsStemOf(sorted[i], t) && IsStemOf(sorted[j], u)
      ensures SecondOf(t) >= SecondOf(u)
    {
      StemOrderIsTimeOrder(t, u);
    }
  }

  // ---- PruneFor -------------------------------------------------------------

  datatype Kind = Rsc | Backup | Secrets

  datatype File = File(dir: string, stem: string, kind: Kind)

  datatype StoredPair = StoredPair(id: int, stem: string, dir: string)

  function PairOf(row: StoredPair): Pair {
    Pair(row.stem, 0, 0)
  }

  function PairsOf(rows: seq<StoredPair>): (r: seq<Pair>)
    ensures |r| == |rows| && forall i :: 0 <= i < |rows| ==> r[i] == PairOf(rows[i])
  {
    if rows == [] then [] else PairsOf(rows[..|rows| - 1]) + [PairOf(rows[|rows| - 1])]
  }

  /** The stored files, and the rows that record them. */
  class Archive {
    var files: set<File>
    var rows: map<int, StoredPair>

    /** How often the disk or the database has refused something. */
    ghost var refusals: nat

    /** A removal or a deletion that may not work. */
    method Try() returns (ok: bool)
      modifies this`refusals
      ensures refusals == old(refusals) + if ok then 0 else 1
    {
      ok := *;
      refusals := refusals + if ok then 0 else 1;
    }

    /** Up to three files; a missing one is not an error, and any other failure stops there. */
    method RemovePair(dir: string, stem: string) returns (ok: bool, removed: nat)
      modifies this`files, this`refusals
      ensures removed == |old(files)| - |files|
      ensures refusals == old(refusals) + if ok then 0 else 1
      ensures forall f :: f in files ==> f in old(files)
      ensures forall f :: f in old(files) && f !in files ==> f.dir == dir && f.stem == stem
      ensures ok ==> forall f :: f in files ==> !(f.dir == dir && f.stem == stem)
    {
      var kinds := [Rsc, Backup, Secrets];
      removed := 0;
      for i := 0 to |kinds|
        invariant refusals == old(refusals) && removed == |old(files)| - |files|
        invariant forall f :: f in files ==> f in old(files)
        invariant forall f :: f in old(files) && f !in files ==> f.dir == dir && f.stem == stem
        invariant forall f :: f in files && f.dir == dir && f.stem == stem ==> f.kind !in kinds[..i]
      {
        var f := File(dir, stem, kinds[i]);
        if f in files {
          var gone := Try();
          if !gone {
            return false, removed;
          }
          files := files - {f};
          removed := removed + 1;
        }
        assert kinds[..i + 1] == kinds[..i] + [kinds[i]];
      }
      assert kinds[..3] == kinds;
      forall f | f in files
        ensures !(f.dir == dir && f.stem == stem)
      {
        match f.kind
        case Rsc => assert kinds[0] == f.kind;
        case Backup => assert kinds[1] == f.kind;
        case Secrets => assert kinds[2] == f.kind;
      }
      ok := true;
    }

    method ForgetRow(id: int) returns (ok: bool)
      modifies this`rows, this`refusals
      ensures refusals == old(refusals) + if ok then 0 else 1
      ensures ok ==> rows == old(rows) - {id}
      ensures !ok ==> rows == old(rows)
    {
      ok := Try();
      if ok {
        rows := rows - {id};
      }
    }

    /** One row of the sweep: its files, then the row itself. */
    method PruneRow(row: StoredPair, ghost rows0: map<int, StoredPair>, ghost files0: set<File>,
                    ghost done: seq<StoredPair>, ghost doomed: set<string>)
      returns (forgotten: bool)
      requires row.id in rows && rows[row.id] == row && row.stem in doomed
      requires IsSwept(rows, files, rows0, files0, done, doomed)
      modifies this
      ensures IsSwept(rows, files, rows0, files0, done + [row], doomed)
      ensures forall id :: id in old(rows) && id != row.id ==> id in rows && rows[id] == old(rows)[id]
      ensures |rows| == |old(rows)| - if forgotten then 1 else 0
      ensures (forgotten <==> row.id !in rows) && rows.Keys <= old(rows.Keys)
      ensures refusals == old(refusals) + if forgotten then 0 else 1
    {
      ListedGrows(done, row);
      var gone, _ := RemovePair(row.dir, row.stem);
      if !gone {
        return false;
      }
      ghost var before := rows;
      forgotten := ForgetRow(row.id);
      if forgotten {
        assert before == rows[row.id := row];
      }
    }

    /** The rows in turn; one whose files or record will not go is left for the next sweep. */
    method PruneAll(list: seq<StoredPair>, doomed: set<string>) returns (removed: nat)
      requires AreRows(rows, list)
      modifies this
      ensures IsSwept(rows, files, old(rows), old(files), list, doomed)
      ensures |rows| == |old(rows)| - removed
      ensures refusals >= old(refusals) && (refusals == old(refusals) ==> NoneLeft(rows, list, doomed))
    {
      removed := 0;
      for i := 0 to |list|
        invariant IsSwept(rows, files, old(rows), old(files), list[..i], doomed)
        invariant forall j :: i <= j < |list| ==> list[j].id in rows && rows[list[j].id] == list[j]
        invariant |rows| == |old(rows)| - removed
        invariant refusals >= old(refusals) && (refusals == old(refusals) ==> NoneLeft(rows, list[..i], doomed))
      {
        assert list[..i + 1] == list[..i] + [list[i]];
        ListedGrows(list[..i], list[i]);
        if list[i].stem in doomed {
          var forgotten := PruneRow(list[i], old(rows), old(files), list[..i], doomed);
          if forgotten {
            removed := removed + 1;
          }
        }
      }
      assert list[..|list|] == list;
    }

    /**
     Removes what retention has doomed. A row goes only after every file of its
     pair is gone; nothing else is touched; the count is of rows forgotten; and
     if nothing was refused, every doomed row has gone.
     */
    method PruneFor(stored: Option<seq<StoredPair>>, r: Retention, now: int) returns (removed: nat, failed: bool)
      requires stored.Some? ==> AreRows(rows, stored.value)
      modifies this
      ensures failed <==> stored.None? && (r.keepCount > 0 || r.keepDays > 0)
      ensures stored.None? ==> removed == 0 && rows == old(rows) && files == old(files)
      ensures stored.Some? ==>
                IsSwept(rows, files, old(rows), old(files), stored.value, Doomed(Parseable(PairsOf(stored.value)), r, now))
      ensures |rows| == |old(rows)| - removed
      ensures refusals >= old(refusals)
      ensures stored.Some? && refusals == old(refusals) ==>
                NoneLeft(rows, stored.value, Doomed(Parseable(PairsOf(stored.value)), r, now))
    {
      removed, failed := 0, false;
      if r.keepCount <= 0 && r.keepDays <= 0 {
        return;
      }
      if stored.None? {
        return 0, true;
      }
      var list := stored.value;
      var selected := SelectForPruning(PairsOf(list), r, now);
      var doomed := set s | s in selected;
      SelectedAreDoomed(selected, Parseable(PairsOf(list)), r, now);
      if |doomed| == 0 {
        return;
      }
      removed := PruneAll(list, doomed);
    }
  }

  /** What the query gives: rows of the archive, each under its own id. */
  ghost predicate AreRows(rows: map<int, StoredPair>, list: seq<StoredPair>) {
    && (forall i :: 0 <= i < |list| ==> list[i].id in rows && rows[list[i].id] == list[i])
    && (forall i, j :: 0 <= i < j < |list| ==> list[i].id != list[j].id)
  }

  /** The stems retention dooms, as a set. */
  ghost function Doomed(stems: seq<string>, r: Retention, now: int): set<string> {
    set s | s in stems && IsDoomed(stems, r, now, s)
  }

  lemma SelectedAreDoomed(selected: seq<string>, stems: seq<string>, r: Retention, now: int)
    requires IsSelection(selected, stems, r, now)
    ensures (set s | s in selected) == Doomed(stems, r, now)
  {
    forall s
      ensures s in selected <==> s in stems && IsDoomed(stems, r, now, s)
    {
      assert s in selected <==> multiset(selected)[s] > 0;
      assert s in stems <==> multiset(stems)[s] > 0;
    }
  }

  ghost predicate NoFilesOf(files: set<File>, row: StoredPair) {
    forall f :: f in files ==> !(f.dir == row.dir && f.stem == row.stem)
  }

  /**
   Against how things were: rows only go, and one that went was listed, doomed,
   and has no file left; files only go, and one that went belonged to a doomed stem.
   */
  ghost predicate IsSwept(rows: map<int, StoredPair>, files: set<File>, rows0: map<int, StoredPair>,
                          files0: set<File>, listed: seq<StoredPair>, doomed: set<string>)
  {
    && (forall id :: id in rows ==> id in rows0 && rows[id] == rows0[id])
    && (forall id :: id in rows0 && id !in rows ==>
          rows0[id] in listed && rows0[id].stem in doomed && NoFilesOf(files, rows0[id]))
    && files <= files0
    && (forall f :: f in files0 && f !in files ==> f.stem in doomed && IsListed(listed, f))
  }

  ghost predicate IsListed(listed: seq<StoredPair>, f: File) {
    exists i :: 0 <= i < |listed| && listed[i].dir == f.dir && listed[i].stem == f.stem
  }

  /** A longer list lists all the more. */
  lemma ListedGrows(listed: seq<StoredPair>, row: StoredPair)
    ensures forall f :: IsListed(listed, f) ==> IsListed(listed + [row], f)
    ensures forall f: File :: f.dir == row.dir && f.stem == row.stem ==> IsListed(listed + [row], f)
  {
    var more := listed + [row];
    assert more[|listed|] == row;
    assert forall i :: 0 <= i < |listed| ==> more[i] == listed[i];
  }

  ghost predicate NoneLeft(rows: map<int, StoredPair>, listed: seq<StoredPair>, doomed: set<string>) {
    forall i :: 0 <= i < |listed| && listed[i].stem in doomed ==> listed[i].id !in rows
  }
}
