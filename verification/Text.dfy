/** The handful of Go string operations the modelled code leans on. */
module Text {

  predicate HasPrefix(s: string, p: string) {
    |p| <= |s| && s[..|p|] == p
  }

  predicate HasSuffix(s: string, p: string) {
    |p| <= |s| && s[|s| - |p|..] == p
  }

  /** `p` occurs in `s` starting at `i`. */
  predicate OccursAt(s: string, p: string, i: int) {
    0 <= i && i + |p| <= |s| && s[i..i + |p|] == p
  }

  /** An occurrence puts each character of `p` in its place. */
  lemma OccursChar(s: string, p: string, i: int, k: nat)
    requires OccursAt(s, p, i) && k < |p|
    ensures s[i + k] == p[k]
  {
    assert s[i..i + |p|][k] == p[k];
  }

  ghost predicate Contains(s: string, p: string) {
    exists i :: OccursAt(s, p, i)
  }

  /** Every occurrence replaced, leftmost first and without overlap. */
  function ReplaceAll(s: string, pat: string, with: string): string
    requires pat != []
  {
    if |s| < |pat| then s
    else if HasPrefix(s, pat) then with + ReplaceAll(s[|pat|..], pat, with)
    else [s[0]] + ReplaceAll(s[1..], pat, with)
  }

  /** The pieces between separators: always at least one. */
  function Split(s: string, sep: char): (r: seq<string>)
    ensures r != []
  {
    if s == [] then [[]]
    else
      var rest := Split(s[1..], sep);
      if s[0] == sep then [[]] + rest else [[s[0]] + rest[0]] + rest[1..]
  }

  function Join(pieces: seq<string>, sep: char): string {
    if pieces == [] then []
    else if |pieces| == 1 then pieces[0]
    else pieces[0] + [sep] + Join(pieces[1..], sep)
  }

  /** Pieces with a separator of any length between them. */
  ghost function JoinWith(pieces: seq<string>, sep: string): string {
    if pieces == [] then []
    else if |pieces| == 1 then pieces[0]
    else pieces[0] + sep + JoinWith(pieces[1..], sep)
  }

  ghost predicate Free(pieces: seq<string>, sep: char) {
    forall i :: 0 <= i < |pieces| ==> sep !in pieces[i]
  }

  lemma {:induction false} JoinOfSplit(s: string, sep: char)
    ensures Join(Split(s, sep), sep) == s
    ensures Free(Split(s, sep), sep)
  {
    if s != [] {
      JoinOfSplit(s[1..], sep);
      var rest := Split(s[1..], sep);
      if s[0] == sep {
        assert ([[]] + rest)[1..] == rest;
      } else {
        assert ([[s[0]] + rest[0]] + rest[1..])[1..] == rest[1..];
      }
    }
  }

  lemma {:induction false} SplitOfPiece(piece: string, sep: char)
    requires sep !in piece
    ensures Split(piece, sep) == [piece]
  {
    if piece != [] {
      SplitOfPiece(piece[1..], sep);
      assert [piece[0]] + piece[1..] == piece;
    }
  }

  lemma {:induction false} SplitOfCons(piece: string, rest: string, sep: char)
    requires sep !in piece
    ensures Split(piece + [sep] + rest, sep) == [piece] + Split(rest, sep)
  {
    var s := piece + [sep] + rest;
    if piece == [] {
      assert s[1..] == rest;
    } else {
      SplitOfCons(piece[1..], rest, sep);
      assert s[1..] == piece[1..] + [sep] + rest;
      assert [piece[0]] + piece[1..] == piece;
    }
  }

  lemma {:induction false} SplitOfJoin(pieces: seq<string>, sep: char)
    requires pieces != [] && Free(pieces, sep)
    ensures Split(Join(pieces, sep), sep) == pieces
  {
    if |pieces| == 1 {
      SplitOfPiece(pieces[0], sep);
    } else {
      SplitOfJoin(pieces[1..], sep);
      SplitOfCons(pieces[0], Join(pieces[1..], sep), sep);
    }
  }

  /** Joined texts are equal for equal lists, and for the empty list against one empty piece; never otherwise. */
  lemma JoinIsAlmostInjective(p: seq<string>, q: seq<string>, sep: char)
    requires Free(p, sep) && Free(q, sep)
    ensures Join(p, sep) == Join(q, sep) <==> p == q || (p == [] && q == [[]]) || (p == [[]] && q == [])
  {
    if Join(p, sep) == Join(q, sep) {
      if p != [] {
        SplitOfJoin(p, sep);
      }
      if q != [] {
        SplitOfJoin(q, sep);
      }
      if p == [] || q == [] {
        assert Split([], sep) == [[]];
      }
    }
  }

  /** A character the pattern does not hold, and the replacement does not hold, stays out. */
  lemma {:induction false} ReplaceAllAdds(s: string, pat: string, with: string, c: char)
    requires pat != [] && c !in s && c !in with
    ensures c !in ReplaceAll(s, pat, with)
  {
    if |s| >= |pat| {
      if HasPrefix(s, pat) {
        ReplaceAllAdds(s[|pat|..], pat, with, c);
      } else {
        ReplaceAllAdds(s[1..], pat, with, c);
      }
    }
  }

  /** Replacing a single character removes it. */
  lemma {:induction false} ReplaceAllOfChar(s: string, c: char, with: string)
    requires c !in with
    ensures c !in ReplaceAll(s, [c], with)
  {
    if |s| >= 1 {
      ReplaceAllOfChar(s[1..], c, with);
    }
  }

  lemma PrefixHead(s: string, p: string)
    requires p != [] && HasPrefix(s, p)
    ensures s[0] == p[0]
  {
    assert s[..|p|][0] == p[0];
  }

  /** Text the pattern's first character is absent from passes through. */
  lemma {:induction false} ReplaceAllPasses(s: string, t: string, pat: string, with: string)
    requires pat != [] && pat[0] !in s
    ensures ReplaceAll(s + t, pat, with) == s + ReplaceAll(t, pat, with)
  {
    if s == [] {
      assert s + t == t;
    } else {
      ReplaceAllPasses(s[1..], t, pat, with);
      assert (s + t)[1..] == s[1..] + t;
      assert (s + t)[0] == s[0];
      if HasPrefix(s + t, pat) {
        PrefixHead(s + t, pat);
      }
    }
  }

  /** A separator between pieces its first character is absent from is replaced every time it occurs. */
  lemma {:induction false} ReplaceSeparator(pieces: seq<string>, sep: string, with: char)
    requires sep != [] && Free(pieces, sep[0])
    ensures ReplaceAll(JoinWith(pieces, sep), sep, [with]) == Join(pieces, with)
  {
    if |pieces| == 1 {
      ReplaceAllPasses(pieces[0], [], sep, [with]);
      assert pieces[0] + [] == pieces[0];
    } else if |pieces| > 1 {
      var rest := JoinWith(pieces[1..], sep);
      ReplaceSeparator(pieces[1..], sep, with);
      ReplaceAllPasses(pieces[0], sep + rest, sep, [with]);
      assert (sep + rest)[..|sep|] == sep && (sep + rest)[|sep|..] == rest;
      assert pieces[0] + sep + rest == pieces[0] + (sep + rest);
    }
  }

  lemma {:induction false} JoinWithIsJoin(pieces: seq<string>, sep: char)
    ensures JoinWith(pieces, [sep]) == Join(pieces, sep)
  {
    if |pieces| > 1 {
      JoinWithIsJoin(pieces[1..], sep);
    }
  }

  /** Nothing is replaced where the pattern's second character does not occur. */
  lemma {:induction false} NothingReplaced(s: string, pat: string, with: string)
    requires |pat| > 1 && pat[1] !in s
    ensures ReplaceAll(s, pat, with) == s
  {
    if |s| >= |pat| {
      assert s[..|pat|][1] == s[1] != pat[1];
      NothingReplaced(s[1..], pat, with);
    }
  }
}
