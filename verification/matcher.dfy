/** Whole-word keyword counting. The source builds the regular expression
    `\b<escaped keyword>\b` with the global flag and counts the matches of
    `match`. With every metacharacter escaped the keyword is a literal, so a
    match at position `i` is the keyword occurring at `i` with a word boundary
    on both sides (section 22.2 of ECMA-262: IsWordChar is `[A-Za-z0-9_]` when
    neither the `u` nor the `i` flag is set). Matches are found left to right
    and never overlap; after a match the search resumes at its end. */
module Matcher {
  import opened Wrappers

  predicate IsWordChar(c: char) {
    ('a' <= c <= 'z') || ('A' <= c <= 'Z') || ('0' <= c <= '9') || c == '_'
  }

  /** Positions outside the text count as non-word characters. */
  predicate WordAt(t: string, i: int) {
    0 <= i < |t| && IsWordChar(t[i])
  }

  /** The `\b` assertion at position `i` (between `t[i-1]` and `t[i]`). */
  predicate IsBoundary(t: string, i: int) {
    WordAt(t, i - 1) != WordAt(t, i)
  }

  predicate OccursAt(t: string, k: string, i: nat) {
    i + |k| <= |t| && t[i..i + |k|] == k
  }

  /** `\bk\b` matches at `i`. */
  predicate MatchAt(t: string, k: string, i: nat) {
    OccursAt(t, k, i) && IsBoundary(t, i) && IsBoundary(t, i + |k|)
  }

  // ---------------------------------------------------------------------------
  // Escaping

  /** `^ $ \ . * + ? ( ) [ ] { } |`: the characters with a meaning in a pattern. */
  predicate IsSyntaxChar(c: char) {
    c == '^' || c == '$' || c == '\\' || c == '.' || c == '*' || c == '+' || c == '?'
    || c == '(' || c == ')' || c == '[' || c == ']' || c == '{' || c == '}' || c == '|'
  }

  /** The class `[-\/\\^$*+?.()|[\]{}]` the source escapes: the syntax characters plus `-` and `/`. */
  predicate IsEscaped(c: char) {
    IsSyntaxChar(c) || c == '-' || c == '/'
  }

  function CountEscaped(k: string): nat {
    if k == [] then 0 else (if IsEscaped(k[0]) then 1 else 0) + CountEscaped(k[1..])
  }

  /** `keyword.replace(/[-\/\\^$*+?.()|[\]{}]/g, '\\$&')`. */
  function Escape(k: string): (p: string)
    ensures |p| == |k| + CountEscaped(k)
  {
    if k == [] then []
    else (if IsEscaped(k[0]) then ['\\', k[0]] else [k[0]]) + Escape(k[1..])
  }

  /** The literal text a pattern stands for, if it is a plain sequence of
      literal characters and identity escapes; `None` when it uses any operator
      or any other escape. */
  function LiteralOf(p: string): Option<string>
  {
    if p == [] then Some([])
    else if p[0] == '\\' then
      if |p| >= 2 && IsEscaped(p[1]) then
        match LiteralOf(p[2..])
        case Some(rest) => Some([p[1]] + rest)
        case None => None
      else None
    else if IsSyntaxChar(p[0]) then None
    else
      match LiteralOf(p[1..])
      case Some(rest) => Some([p[0]] + rest)
      case None => None
  }

  /** The escaped keyword is a pure literal standing for exactly the keyword,
      whatever characters the user typed. */
  lemma {:induction false} EscapeIsLiteral(k: string)
    ensures LiteralOf(Escape(k)) == Some(k)
  {
    if k != [] {
      EscapeIsLiteral(k[1..]);
      var rest := Escape(k[1..]);
      if IsEscaped(k[0]) {
        assert Escape(k) == ['\\', k[0]] + rest;
        assert Escape(k)[2..] == rest;
      } else {
        assert Escape(k) == [k[0]] + rest;
        assert Escape(k)[1..] == rest;
      }
      assert [k[0]] + k[1..] == k;
    }
  }

  // ---------------------------------------------------------------------------
  // Global matching

  /** How far the search moves after a match at `i`: the match length, or one
      position after an empty match. */
  function Step(k: string): nat {
    if |k| == 0 then 1 else |k|
  }

  /** Every pick is a match at or after `i`. */
  predicate PicksMatches(t: string, k: string, i: nat, ps: seq<nat>) {
    forall m :: 0 <= m < |ps| ==> i <= ps[m] && MatchAt(t, k, ps[m])
  }

  /** Picks are increasing and each starts after the previous one ends. */
  predicate NonOverlapping(k: string, ps: seq<nat>) {
    forall m :: 0 <= m < |ps| - 1 ==> ps[m] + Step(k) <= ps[m + 1]
  }

  /** Position `j` lies inside a picked match. */
  ghost predicate Covered(ps: seq<nat>, k: string, j: nat) {
    exists m :: 0 <= m < |ps| && ps[m] <= j < ps[m] + Step(k)
  }

  /** Every match at or after `i` lies inside a picked one: none was skipped. */
  ghost predicate CoversAll(t: string, k: string, i: nat, ps: seq<nat>) {
    forall j: nat :: i <= j && MatchAt(t, k, j) ==> Covered(ps, k, j)
  }

  /** Start positions of the matches found by a global search from `lastIndex = i`. */
  function MatchesFrom(t: string, k: string, i: nat): (ps: seq<nat>)
    ensures PicksMatches(t, k, i, ps)
    ensures NonOverlapping(k, ps)
    decreases |t| + 1 - i
  {
    if i > |t| then []
    else if MatchAt(t, k, i) then
      var rest := MatchesFrom(t, k, i + Step(k));
      var ps := [i] + rest;
      assert forall m :: 1 <= m < |ps| ==> ps[m] == rest[m - 1];
      ps
    else
      MatchesFrom(t, k, i + 1)
  }

  /** The search skips no match: each one is picked or lies inside a picked one. */
  lemma {:induction false} MatchesCover(t: string, k: string, i: nat)
    ensures CoversAll(t, k, i, MatchesFrom(t, k, i))
    decreases |t| + 1 - i
  {
    if i > |t| {
    } else if MatchAt(t, k, i) {
      assert MatchesFrom(t, k, i) == [i] + MatchesFrom(t, k, i + Step(k));
      MatchesCover(t, k, i + Step(k));
      CoverAfterPick(t, k, i, MatchesFrom(t, k, i + Step(k)));
    } else {
      assert MatchesFrom(t, k, i) == MatchesFrom(t, k, i + 1);
      MatchesCover(t, k, i + 1);
      CoverAfterSkip(t, k, i, MatchesFrom(t, k, i + 1));
    }
  }

  /** Picking a match at `i` covers what lies inside it; the rest is covered
      by the picks after it. */
  lemma CoverAfterPick(t: string, k: string, i: nat, rest: seq<nat>)
    requires MatchAt(t, k, i) && CoversAll(t, k, i + Step(k), rest)
    ensures CoversAll(t, k, i, [i] + rest)
  {
    var ps := [i] + rest;
    forall j: nat | i <= j && MatchAt(t, k, j)
      ensures Covered(ps, k, j)
    {
      if j < i + Step(k) {
        assert ps[0] <= j < ps[0] + Step(k);
      } else {
        assert Covered(rest, k, j);
        var m :| 0 <= m < |rest| && rest[m] <= j < rest[m] + Step(k);
        assert ps[m + 1] == rest[m];
      }
    }
  }

  /** No match starts at a position without one. */
  lemma CoverAfterSkip(t: string, k: string, i: nat, ps: seq<nat>)
    requires !MatchAt(t, k, i) && CoversAll(t, k, i + 1, ps)
    ensures CoversAll(t, k, i, ps)
  {
    forall j: nat | i <= j && MatchAt(t, k, j)
      ensures Covered(ps, k, j)
    {
      assert j != i;
    }
  }

  /** The array `String.prototype.match` returns for a global pattern, or `None` (null) if nothing matched. */
  function GlobalMatch(t: string, k: string): (r: Option<seq<string>>)
    ensures r.None? <==> |MatchesFrom(t, k, 0)| == 0
    ensures r.Some? ==> |r.value| == |MatchesFrom(t, k, 0)| && forall s :: s in r.value ==> s == k
  {
    var ps := MatchesFrom(t, k, 0);
    if |ps| == 0 then None else Some(seq(|ps|, m requires 0 <= m < |ps| => t[ps[m]..ps[m] + |k|]))
  }

  /** `matches ? matches.length : 0`. */
  function Count(t: string, k: string): (n: nat)
    ensures n == |MatchesFrom(t, k, 0)|
  {
    match GlobalMatch(t, k)
    case None => 0
    case Some(ms) => |ms|
  }

  /** No match is a count of zero, not a failure; and the count is zero only when no
      position matches. */
  lemma CountZeroIff(t: string, k: string)
    ensures Count(t, k) == 0 <==> forall j: nat :: !MatchAt(t, k, j)
  {
    if Count(t, k) == 0 {
      forall j: nat ensures !MatchAt(t, k, j) {
        if MatchAt(t, k, j) {
          MatchesCover(t, k, 0);
        }
      }
    } else {
      var ps := MatchesFrom(t, k, 0);
      assert MatchAt(t, k, ps[0]);
    }
  }

  /** Non-overlapping matches of a non-empty keyword fit in the text. */
  lemma {:induction false} MatchesFit(t: string, k: string, i: nat)
    requires |k| > 0 && i <= |t|
    ensures |MatchesFrom(t, k, i)| * |k| <= |t| - i
    decreases |t| - i
  {
    var ps := MatchesFrom(t, k, i);
    if MatchAt(t, k, i) {
      var rest := MatchesFrom(t, k, i + |k|);
      assert ps == [i] + rest;
      MatchesFit(t, k, i + |k|);
      MulSucc(|rest|, |k|);
    } else if i < |t| {
      assert ps == MatchesFrom(t, k, i + 1);
      MatchesFit(t, k, i + 1);
    } else {
      assert ps == MatchesFrom(t, k, i + 1);
      assert MatchesFrom(t, k, i + 1) == [];
    }
  }

  lemma MulSucc(n: nat, w: nat)
    ensures (n + 1) * w == n * w + w
  {
  }

  /** The greedy left-to-right selection is the only one that picks matches,
      in increasing non-overlapping order, and leaves no match at or after `i`
      outside a picked one. */
  lemma {:induction false} LeftmostUnique(t: string, k: string, i: nat, qs: seq<nat>)
    requires PicksMatches(t, k, i, qs) && NonOverlapping(k, qs) && CoversAll(t, k, i, qs)
    ensures qs == MatchesFrom(t, k, i)
    decreases |t| + 1 - i, 1
  {
    if i > |t| {
      FirstPickFits(t, k, i, qs);
    } else if MatchAt(t, k, i) {
      LeftmostAtMatch(t, k, i, qs);
    } else {
      LeftmostPastNonMatch(t, k, i, qs);
    }
  }

  lemma {:induction false} LeftmostAtMatch(t: string, k: string, i: nat, qs: seq<nat>)
    requires PicksMatches(t, k, i, qs) && NonOverlapping(k, qs) && CoversAll(t, k, i, qs)
    requires MatchAt(t, k, i)
    ensures qs == MatchesFrom(t, k, i)
    decreases |t| + 1 - i, 0
  {
    FirstPickIsFirstMatch(t, k, i, qs);
    PicksAfterFirst(t, k, i, qs);
    LeftmostUnique(t, k, i + Step(k), qs[1..]);
    HeadTail(qs, i, MatchesFrom(t, k, i + Step(k)));
  }

  lemma HeadTail(qs: seq<nat>, i: nat, rest: seq<nat>)
    requires |qs| > 0 && qs[0] == i && qs[1..] == rest
    ensures qs == [i] + rest
  {
  }

  lemma {:induction false} LeftmostPastNonMatch(t: string, k: string, i: nat, qs: seq<nat>)
    requires PicksMatches(t, k, i, qs) && NonOverlapping(k, qs) && CoversAll(t, k, i, qs)
    requires i <= |t| && !MatchAt(t, k, i)
    ensures qs == MatchesFrom(t, k, i)
    decreases |t| + 1 - i, 0
  {
    SkipNonMatch(t, k, i, qs);
    LeftmostUnique(t, k, i + 1, qs);
    assert MatchesFrom(t, k, i) == MatchesFrom(t, k, i + 1);
  }

  /** The first pick, if any, is a match at or after `i` that fits in the text. */
  lemma FirstPickFits(t: string, k: string, i: nat, qs: seq<nat>)
    requires PicksMatches(t, k, i, qs)
    ensures qs == [] || (i <= qs[0] && qs[0] + |k| <= |t|)
  {
  }

  lemma FirstPickIsFirstMatch(t: string, k: string, i: nat, qs: seq<nat>)
    requires PicksMatches(t, k, i, qs) && NonOverlapping(k, qs) && CoversAll(t, k, i, qs)
    requires MatchAt(t, k, i)
    ensures |qs| > 0 && qs[0] == i
  {
    assert Covered(qs, k, i);
    var m :| 0 <= m < |qs| && qs[m] <= i < qs[m] + Step(k);
    if m > 0 {
      OrderedAbove(qs, k, 0, m);
    }
  }

  lemma PicksAfterFirst(t: string, k: string, i: nat, qs: seq<nat>)
    requires PicksMatches(t, k, i, qs) && NonOverlapping(k, qs) && CoversAll(t, k, i, qs)
    requires |qs| > 0 && qs[0] == i
    ensures PicksMatches(t, k, i + Step(k), qs[1..])
    ensures NonOverlapping(k, qs[1..])
    ensures CoversAll(t, k, i + Step(k), qs[1..])
  {
    TailPicks(t, k, i, qs);
    TailOrdered(k, qs);
    TailCovers(t, k, i, qs);
  }

  lemma TailPicks(t: string, k: string, i: nat, qs: seq<nat>)
    requires PicksMatches(t, k, i, qs) && NonOverlapping(k, qs)
    requires |qs| > 0 && qs[0] == i
    ensures PicksMatches(t, k, i + Step(k), qs[1..])
  {
    var rest := qs[1..];
    forall n | 0 <= n < |rest|
      ensures i + Step(k) <= rest[n] && MatchAt(t, k, rest[n])
    {
      OrderedAbove(qs, k, 0, n + 1);
      assert rest[n] == qs[n + 1];
    }
  }

  lemma TailOrdered(k: string, qs: seq<nat>)
    requires NonOverlapping(k, qs) && |qs| > 0
    ensures NonOverlapping(k, qs[1..])
  {
    var rest := qs[1..];
    forall n | 0 <= n < |rest| - 1
      ensures rest[n] + Step(k) <= rest[n + 1]
    {
      assert rest[n] == qs[n + 1] && rest[n + 1] == qs[n + 2];
    }
  }

  lemma TailCovers(t: string, k: string, i: nat, qs: seq<nat>)
    requires CoversAll(t, k, i, qs)
    requires |qs| > 0 && qs[0] == i
    ensures CoversAll(t, k, i + Step(k), qs[1..])
  {
    var rest := qs[1..];
    forall j: nat | i + Step(k) <= j && MatchAt(t, k, j)
      ensures Covered(rest, k, j)
    {
      assert Covered(qs, k, j);
      var n :| 0 <= n < |qs| && qs[n] <= j < qs[n] + Step(k);
      assert n != 0;
      assert rest[n - 1] == qs[n];
    }
  }

  lemma SkipNonMatch(t: string, k: string, i: nat, qs: seq<nat>)
    requires PicksMatches(t, k, i, qs) && CoversAll(t, k, i, qs)
    requires !MatchAt(t, k, i)
    ensures PicksMatches(t, k, i + 1, qs) && CoversAll(t, k, i + 1, qs)
  {
    forall n | 0 <= n < |qs|
      ensures i + 1 <= qs[n]
    {
      assert MatchAt(t, k, qs[n]);
    }
  }

  /** In an ordered non-overlapping selection, later picks start after earlier ones end. */
  lemma {:induction false} OrderedAbove(qs: seq<nat>, k: string, a: nat, b: nat)
    requires NonOverlapping(k, qs)
    requires a < b < |qs|
    ensures qs[a] + Step(k) <= qs[b]
    decreases b - a
  {
    if b > a + 1 {
      OrderedAbove(qs, k, a, b - 1);
    }
  }

}
