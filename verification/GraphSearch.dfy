/** The graph search box: a greedy fuzzy matcher over UTF-16 strings, and the ranked top ten. */
module GraphSearch {
  import opened Wrappers
  import opened Sequences

  /** A JavaScript string is a sequence of UTF-16 code units. */
  newtype CodeUnit = x: int | 0 <= x < 0x1_0000
  type Text = seq<CodeUnit>

  predicate IsHigh(u: CodeUnit) {
    0xD800 <= u <= 0xDBFF
  }

  predicate IsLow(u: CodeUnit) {
    0xDC00 <= u <= 0xDFFF
  }

  predicate StartsWithPair(s: Text) {
    |s| >= 2 && IsHigh(s[0]) && IsLow(s[1])
  }

  /** What `for (const character of s)` iterates over: surrogate pairs stay together. */
  function CodePoints(s: Text): seq<Text> {
    if s == [] then []
    else if StartsWithPair(s) then [s[..2]] + CodePoints(s[2..])
    else [s[..1]] + CodePoints(s[1..])
  }

  /** The string without its surrogate pairs. */
  function Plain(s: Text): Text {
    if s == [] then []
    else if StartsWithPair(s) then Plain(s[2..])
    else [s[0]] + Plain(s[1..])
  }

  // ----- subsequences

  /** How far a greedy scan gets, starting with the first `done` units already matched. */
  function Greedy(chars: seq<Text>, query: Text, done: nat): (n: nat)
    requires done <= |query|
    ensures done <= n <= |query|
  {
    if chars == [] || done == |query| then done
    else Greedy(chars[1..], query, if chars[0] == [query[done]] then done + 1 else done)
  }

  lemma SubsequenceTail(q: Text, s: Text)
    requires q != [] && s != [] && IsSubsequence(q, s)
    ensures if s[0] == q[0] then IsSubsequence(q[1..], s[1..]) else IsSubsequence(q, s[1..])
  {
    var at: seq<nat> :| Embeds(q, s, at);
    if s[0] == q[0] {
      assert forall k :: 1 <= k < |at| ==> at[0] < at[k];
      var rest := seq(|at| - 1, k requires 0 <= k < |at| - 1 => (at[k + 1] - 1) as nat);
      assert Embeds(q[1..], s[1..], rest);
    } else {
      assert at[0] > 0 && forall k :: 1 <= k < |at| ==> at[0] < at[k];
      var rest := seq(|at|, k requires 0 <= k < |at| => (at[k] - 1) as nat);
      assert Embeds(q, s[1..], rest);
    }
  }

  lemma SubsequenceSkip(q: Text, s: Text)
    requires s != [] && IsSubsequence(q, s[1..])
    ensures IsSubsequence(q, s)
  {
    var at: seq<nat> :| Embeds(q, s[1..], at);
    var shifted := seq(|at|, k requires 0 <= k < |at| => at[k] + 1);
    assert Embeds(q, s, shifted);
  }

  lemma SubsequenceMatch(q: Text, s: Text)
    requires s != [] && q != [] && s[0] == q[0] && IsSubsequence(q[1..], s[1..])
    ensures IsSubsequence(q, s)
  {
    var at: seq<nat> :| Embeds(q[1..], s[1..], at);
    var shifted: seq<nat> := [0] + seq(|at|, k requires 0 <= k < |at| => at[k] + 1);
    forall k | 0 <= k < |shifted| ensures shifted[k] < |s| && s[shifted[k]] == q[k] {
      assert k > 0 ==> shifted[k] == at[k - 1] + 1 && q[k] == q[1..][k - 1];
    }
    assert Embeds(q, s, shifted);
  }

  lemma SubsequenceExtend(q: Text, s: Text)
    requires s != []
    ensures IsSubsequence(q, s[1..]) ==> IsSubsequence(q, s)
    ensures q != [] && s[0] == q[0] && IsSubsequence(q[1..], s[1..]) ==> IsSubsequence(q, s)
  {
    hide IsSubsequence;
    if IsSubsequence(q, s[1..]) {
      SubsequenceSkip(q, s);
    } else if q != [] && s[0] == q[0] && IsSubsequence(q[1..], s[1..]) {
      SubsequenceMatch(q, s);
    }
  }

  lemma NothingInEmpty(q: Text)
    requires q != []
    ensures !IsSubsequence(q, [])
  {
    forall at: seq<nat> ensures !Embeds(q, [], at) {
      assert |at| == |q| ==> at[0] >= 0;
    }
  }

  /** Greedy scanning is complete: it uses up the query exactly when the rest of the query is a
      subsequence of the single-unit characters. */
  lemma {:induction false} GreedyIsComplete(s: Text, query: Text, done: nat)
    requires done <= |query|
    ensures Greedy(CodePoints(s), query, done) == |query| <==> IsSubsequence(query[done..], Plain(s))
    decreases |s|
  {
    if done == |query| {
      assert query[done..] == [];
      EmptyIsSubsequence(Plain(s));
    } else if s == [] {
      NothingInEmpty(query[done..]);
    } else if StartsWithPair(s) {
      assert CodePoints(s)[1..] == CodePoints(s[2..]);
      GreedyIsComplete(s[2..], query, done);
    } else {
      assert CodePoints(s)[1..] == CodePoints(s[1..]) && CodePoints(s)[0] == [s[0]];
      var plain, q := Plain(s), query[done..];
      assert plain[0] == s[0] && plain[1..] == Plain(s[1..]) && q[1..] == query[done + 1..] && q[0] == query[done];
      SubsequenceExtend(q, plain);
      if IsSubsequence(q, plain) {
        SubsequenceTail(q, plain);
      }
      GreedyIsComplete(s[1..], query, if s[0] == query[done] then done + 1 else done);
    }
  }

  lemma {:induction false} PlainWithoutSurrogates(s: Text)
    requires forall k :: 0 <= k < |s| ==> !IsHigh(s[k])
    ensures Plain(s) == s
  {
    if s != [] {
      PlainWithoutSurrogates(s[1..]);
    }
  }

  // ----- the score of one candidate

  predicate OccursAt(c: Text, q: Text, i: nat) {
    i + |q| <= |c| && c[i..i + |q|] == q
  }

  ghost predicate Includes(c: Text, q: Text) {
    exists i: nat :: OccursAt(c, q, i)
  }

  /** `c.indexOf(q)` from a position on; |c| + 1 stands for -1. */
  function IndexFrom(c: Text, q: Text, from: nat): (i: nat)
    ensures i <= |c| ==> from <= i && OccursAt(c, q, i) && forall j: nat :: from <= j < i ==> !OccursAt(c, q, j)
    ensures i > |c| ==> forall j: nat :: from <= j ==> !OccursAt(c, q, j)
    decreases |c| + 1 - from
  {
    if from + |q| > |c| then |c| + 1
    else if OccursAt(c, q, from) then from
    else IndexFrom(c, q, from + 1)
  }

  /** The score a candidate contributes, if any. */
  function CandidateScore(c: Text, q: Text): Option<int> {
    var i := IndexFrom(c, q, 0);
    if c == q then Some(1000)
    else if i == 0 then Some(700 - |c|)
    else if i <= |c| then Some(500 - i)
    else if Greedy(CodePoints(c), q, 0) == |q| then Some(300 - |c|)
    else None
  }

  function Best(best: int, c: Text, q: Text): int {
    var s := CandidateScore(c, q);
    if s.Some? && s.value > best then s.value else best
  }

  function Score(id: Text, name: Text, q: Text): int {
    Best(Best(0, id, q), name, q)
  }

  method GreedyScan(c: Text, q: Text) returns (matched: nat)
    requires q != []
    ensures matched == Greedy(CodePoints(c), q, 0)
  {
    matched := 0;
    var chars := CodePoints(c);
    for k := 0 to |chars|
      invariant matched < |q| && Greedy(chars, q, 0) == Greedy(chars[k..], q, matched)
    {
      assert chars[k..][1..] == chars[k + 1..];
      if chars[k] == [q[matched]] {
        matched := matched + 1;
      }
      if matched == |q| {
        return;
      }
    }
  }

  /** `fuzzyScore` on the lower-cased id and name. */
  method FuzzyScore(id: Text, name: Text, q: Text) returns (bestScore: int)
    requires q != []
    ensures bestScore == Score(id, name, q)
  {
    var candidates := [id, name];
    bestScore := 0;
    for n := 0 to 2
      invariant bestScore == if n == 0 then 0 else if n == 1 then Best(0, id, q) else Score(id, name, q)
    {
      var c := candidates[n];
      var i := IndexFrom(c, q, 0);
      var score: int;
      if c == q {
        score := 1000;
      } else if i == 0 {
        score := 700 - |c|;
      } else if i <= |c| {
        score := 500 - i;
      } else {
        var matched := GreedyScan(c, q);
        score := if matched == |q| then 300 - |c| else bestScore;
      }
      if score > bestScore {
        bestScore := score;
      }
    }
  }

  lemma IncludedIsSubsequence(c: Text, q: Text)
    requires Includes(c, q)
    ensures IsSubsequence(q, c)
  {
    var i: nat :| OccursAt(c, q, i);
    var at: seq<nat> := seq(|q|, k requires 0 <= k < |q| => i + k);
    assert forall k :: 0 <= k < |q| ==> c[at[k]] == c[i..i + |q|][k];
    assert Embeds(q, c, at);
  }

  /** A candidate scores above zero exactly in these four cases; the length and position limits
      are where the formulas run out. */
  lemma CandidatePositiveIff(c: Text, q: Text)
    requires q != []
    ensures var s := CandidateScore(c, q);
      (s.Some? && s.value > 0) <==>
        || c == q
        || (q <= c && |c| < 700)
        || (Includes(c, q) && !(q <= c) && IndexFrom(c, q, 0) < 500)
        || (!Includes(c, q) && IsSubsequence(q, Plain(c)) && |c| < 300)
  {
    var i := IndexFrom(c, q, 0);
    assert q <= c <==> OccursAt(c, q, 0);
    assert i <= |c| <==> Includes(c, q) by {
      if j: nat :| OccursAt(c, q, j) {
        assert 0 <= j;
      }
    }
    GreedyIsComplete(c, q, 0);
    assert q[0..] == q;
    hide Greedy, CodePoints, Plain, IsSubsequence, Includes, IndexFrom;
  }

  /** Below 300 units the matcher is complete: a candidate without surrogate pairs scores
      exactly when the query is a subsequence of it. */
  lemma ShortCandidatePositiveIff(c: Text, q: Text)
    requires q != [] && |c| < 300
    ensures var s := CandidateScore(c, q);
      (s.Some? && s.value > 0) <==> Includes(c, q) || IsSubsequence(q, Plain(c))
    ensures (forall k :: 0 <= k < |c| ==> !IsHigh(c[k])) ==>
      var s := CandidateScore(c, q); ((s.Some? && s.value > 0) <==> IsSubsequence(q, c))
  {
    CandidatePositiveIff(c, q);
    assert q <= c ==> OccursAt(c, q, 0);
    if forall k :: 0 <= k < |c| ==> !IsHigh(c[k]) {
      PlainWithoutSurrogates(c);
    }
    if Includes(c, q) {
      IncludedIsSubsequence(c, q);
    }
    hide CandidateScore, IsSubsequence, Plain;
  }

  // ----- surrogate pairs

  predicate IsSurrogate(u: CodeUnit) {
    IsHigh(u) || IsLow(u)
  }

  /** A candidate scores at all, whatever the sign, in these cases. */
  lemma ScoresIff(c: Text, q: Text)
    requires q != []
    ensures CandidateScore(c, q).Some? <==> Includes(c, q) || IsSubsequence(q, Plain(c))
  {
    GreedyIsComplete(c, q, 0);
    assert q[0..] == q;
    assert c == q ==> OccursAt(c, q, 0);
    var i := IndexFrom(c, q, 0);
    assert i <= |c| <==> Includes(c, q) by {
      if j: nat :| OccursAt(c, q, j) {
        assert 0 <= j;
      }
    }
    hide Greedy, CodePoints, Plain, IsSubsequence, Includes, IndexFrom, OccursAt;
  }

  /** What is left out of a candidate never adds a match. */
  lemma {:induction false} PlainMatchesLess(q: Text, c: Text)
    requires IsSubsequence(q, Plain(c))
    ensures IsSubsequence(q, c)
    decreases |c|
  {
    hide IsSubsequence;
    if q == [] {
      EmptyIsSubsequence(c);
    } else if c == [] {
      NothingInEmpty(q);
    } else if StartsWithPair(c) {
      PlainMatchesLess(q, c[2..]);
      assert c[1..][1..] == c[2..];
      SubsequenceSkip(q, c[1..]);
      SubsequenceSkip(q, c);
    } else {
      assert Plain(c)[0] == c[0] && Plain(c)[1..] == Plain(c[1..]);
      SubsequenceTail(q, Plain(c));
      PlainMatchesLess(if c[0] == q[0] then q[1..] else q, c[1..]);
      SubsequenceExtend(q, c);
    }
  }

  /** A query without surrogates loses nothing. */
  lemma {:induction false} PlainQueryLosesNothing(q: Text, c: Text)
    requires IsSubsequence(q, c) && forall k :: 0 <= k < |q| ==> !IsSurrogate(q[k])
    ensures IsSubsequence(q, Plain(c))
    decreases |c|
  {
    hide IsSubsequence;
    if q == [] {
      EmptyIsSubsequence(Plain(c));
    } else if c == [] {
      NothingInEmpty(q);
    } else if StartsWithPair(c) {
      SubsequenceTail(q, c);
      SubsequenceTail(q, c[1..]);
      assert c[1..][1..] == c[2..];
      PlainQueryLosesNothing(q, c[2..]);
    } else {
      assert Plain(c)[0] == c[0] && Plain(c)[1..] == Plain(c[1..]);
      SubsequenceTail(q, c);
      PlainQueryLosesNothing(if c[0] == q[0] then q[1..] else q, c[1..]);
      SubsequenceExtend(q, Plain(c));
    }
  }

  lemma SingleUnitIsIncluded(q: Text, c: Text)
    requires |q| == 1 && IsSubsequence(q, c)
    ensures Includes(c, q)
  {
    var at: seq<nat> :| Embeds(q, c, at);
    assert c[at[0]..at[0] + 1] == q;
    assert OccursAt(c, q, at[0]);
  }

  function Count(s: Text, u: CodeUnit): nat {
    if s == [] then 0 else (if s[0] == u then 1 else 0) + Count(s[1..], u)
  }

  lemma {:induction false} CountSplit(a: Text, b: Text, u: CodeUnit)
    ensures Count(a + b, u) == Count(a, u) + Count(b, u)
  {
    if a == [] {
      assert a + b == b;
    } else {
      assert (a + b)[1..] == a[1..] + b;
      CountSplit(a[1..], b, u);
    }
  }

  lemma {:induction false} SubsequenceCounts(q: Text, c: Text, u: CodeUnit)
    requires IsSubsequence(q, c)
    ensures Count(q, u) <= Count(c, u)
    decreases |c|
  {
    hide IsSubsequence;
    if q == [] {
    } else if c == [] {
      NothingInEmpty(q);
    } else {
      SubsequenceTail(q, c);
      SubsequenceCounts(if c[0] == q[0] then q[1..] else q, c[1..], u);
    }
  }

  lemma {:induction false} PlainCounts(c: Text, u: CodeUnit)
    ensures Count(Plain(c), u) <= Count(c, u)
    decreases |c|
  {
    if c == [] {
    } else if StartsWithPair(c) {
      assert c[1..][1..] == c[2..];
      PlainCounts(c[2..], u);
    } else {
      assert Plain(c)[1..] == Plain(c[1..]);
      PlainCounts(c[1..], u);
    }
  }

  /** A pair anywhere in a candidate is dropped, whatever stands before it. */
  lemma {:induction false} PairIsDropped(a: Text, high: CodeUnit, low: CodeUnit, b: Text, u: CodeUnit)
    requires IsHigh(high) && IsLow(low) && (u == high || u == low)
    ensures Count(Plain(a + [high, low] + b), u) < Count(a + [high, low] + b, u)
    decreases |a|
  {
    var c := a + [high, low] + b;
    if a == [] {
      assert c[2..] == b && c[1..] == [low] + b && c[1..][1..] == b;
      PlainCounts(b, u);
    } else if StartsWithPair(c) {
      assert |a| >= 2;
      assert c[2..] == a[2..] + [high, low] + b && c[1..][1..] == c[2..];
      PairIsDropped(a[2..], high, low, b, u);
    } else {
      assert c[1..] == a[1..] + [high, low] + b;
      assert Plain(c)[0] == c[0] && Plain(c)[1..] == Plain(c[1..]);
      PairIsDropped(a[1..], high, low, b, u);
    }
  }

  lemma ItselfIsSubsequence(c: Text)
    ensures IsSubsequence(c, c)
  {
    assert Embeds(c, c, seq(|c|, k requires 0 <= k < |c| => k));
  }

  /** The candidate holds the query as a subsequence only, with u as often as the query does. */
  ghost predicate Scattered(q: Text, c: Text, u: CodeUnit) {
    IsSubsequence(q, c) && !Includes(c, q) && Count(c, u) == Count(q, u)
  }

  /** The query with one unit put in where that breaks it up. */
  lemma UnitInside(q: Text, k: nat, x: CodeUnit, u: CodeUnit)
    requires 0 < k < |q| && x != q[k] && x != q[k - 1] && x != u
    ensures Scattered(q, q[..k] + [x] + q[k..], u)
  {
    hide IsSubsequence, Count, Includes;
    var c := q[..k] + [x] + q[k..];
    assert q == q[..k] + q[k..];
    ItselfIsSubsequence(c);
    SubsequenceDrop(q[..k], [x], q[k..], c);
    CountSplit(q[..k], [x], u);
    CountSplit(q[..k] + [x], q[k..], u);
    CountSplit(q[..k], q[k..], u);
    CountOfOther(x, u);
    UnitInsideBreaks(q, k, x);
  }

  lemma CountOfOther(x: CodeUnit, u: CodeUnit)
    requires x != u
    ensures Count([x], u) == 0
  {
  }

  lemma UnitInsideBreaks(q: Text, k: nat, x: CodeUnit)
    requires 0 < k < |q| && x != q[k] && x != q[k - 1]
    ensures !Includes(q[..k] + [x] + q[k..], q)
  {
    var c := q[..k] + [x] + q[k..];
    assert |c| == |q| + 1 && c[k] == x;
    forall i: nat ensures !OccursAt(c, q, i) {
      if i <= 1 {
        assert c[i..i + |q|][k - i] == x;
      }
    }
  }

  lemma UnitBehind(q: Text, c: Text, x: CodeUnit, u: CodeUnit)
    requires q != [] && Scattered(q, c, u) && x != q[|q| - 1] && x != u
    ensures Scattered(q, c + [x], u)
  {
    var d := c + [x];
    var at: seq<nat> :| Embeds(q, c, at);
    assert Embeds(q, d, at);
    CountSplit(c, [x], u);
    assert Count([x], u) == 0;
    forall i: nat ensures !OccursAt(d, q, i) {
      if i + |q| == |d| {
        assert d[i..i + |q|][|q| - 1] == x;
      } else if i + |q| < |d| {
        assert d[i..i + |q|] == c[i..i + |q|];
        assert !OccursAt(c, q, i);
      }
    }
  }

  lemma UnitInFront(q: Text, c: Text, x: CodeUnit, u: CodeUnit)
    requires q != [] && Scattered(q, c, u) && x != q[0] && x != u
    ensures Scattered(q, [x] + c, u)
  {
    var d := [x] + c;
    assert d[1..] == c;
    SubsequenceSkip(q, d);
    forall i: nat ensures !OccursAt(d, q, i) {
      if i == 0 {
        assert |q| <= |d| ==> d[0..|q|][0] == x;
      } else if i + |q| <= |d| {
        assert d[i..i + |q|] == c[i - 1..i - 1 + |q|];
        assert !OccursAt(c, q, i - 1);
      }
    }
  }

  /** A candidate that makes a surrogate of the query part of a pair is missed. */
  lemma BrokenPairIsMissed(q: Text, c: Text, a: Text, high: CodeUnit, low: CodeUnit, b: Text, u: CodeUnit)
    requires q != [] && c == a + [high, low] + b && IsHigh(high) && IsLow(low) && (u == high || u == low)
    requires Scattered(q, c, u)
    ensures IsSubsequence(q, c) && CandidateScore(c, q).None?
  {
    hide IsSubsequence, Includes, CandidateScore, Plain;
    PairIsDropped(a, high, low, b, u);
    ScoresIff(c, q);
    if IsSubsequence(q, Plain(c)) {
      SubsequenceCounts(q, Plain(c), u);
    }
  }

  /** A low surrogate other than v, and a plain letter other than v and w. */
  function LowBut(v: CodeUnit): (x: CodeUnit)
    ensures IsLow(x) && x != v
  {
    if v == 0xDC00 then 0xDC01 else 0xDC00
  }

  function LetterBut(v: CodeUnit, w: CodeUnit): (x: CodeUnit)
    ensures !IsSurrogate(x) && x != v && x != w
  {
    if v != 97 && w != 97 then 97 else if v != 98 && w != 98 then 98 else 99
  }

  lemma InnerHighIsMissed(q: Text, k: nat) returns (c: Text)
    requires k + 1 < |q| && IsHigh(q[k])
    ensures IsSubsequence(q, c) && CandidateScore(c, q).None?
  {
    hide IsSubsequence, CandidateScore, Scattered;
    var h, low := q[k], LowBut(q[k + 1]);
    c := q[..k + 1] + [low] + q[k + 1..];
    UnitInside(q, k + 1, low, h);
    assert c == q[..k] + [h, low] + q[k + 1..];
    BrokenPairIsMissed(q, c, q[..k], h, low, q[k + 1..], h);
  }

  lemma LastHighIsMissed(q: Text) returns (c: Text)
    requires |q| >= 2 && IsHigh(q[|q| - 1])
    ensures IsSubsequence(q, c) && CandidateScore(c, q).None?
  {
    hide IsSubsequence, CandidateScore, Scattered;
    var k := |q| - 1;
    var h, letter := q[k], LetterBut(q[k], q[k - 1]);
    var low := LowBut(h);
    var inner := q[..k] + [letter] + q[k..];
    UnitInside(q, k, letter, h);
    UnitBehind(q, inner, low, h);
    c := inner + [low];
    assert c == q[..k] + [letter] + [h, low] + [];
    BrokenPairIsMissed(q, c, q[..k] + [letter], h, low, [], h);
  }

  lemma HighIsMissed(q: Text, k: nat) returns (c: Text)
    requires |q| >= 2 && k < |q| && IsHigh(q[k])
    ensures IsSubsequence(q, c) && CandidateScore(c, q).None?
  {
    if k + 1 < |q| {
      c := InnerHighIsMissed(q, k);
    } else {
      c := LastHighIsMissed(q);
    }
  }

  lemma LowIsMissed(q: Text, k: nat) returns (c: Text)
    requires |q| >= 2 && k < |q| && IsLow(q[k]) && forall j :: 0 <= j < |q| ==> !IsHigh(q[j])
    ensures IsSubsequence(q, c) && CandidateScore(c, q).None?
  {
    hide IsSubsequence, CandidateScore, Scattered;
    var low, high: CodeUnit := q[k], 0xD800;
    if k > 0 {
      c := q[..k] + [high] + q[k..];
      UnitInside(q, k, high, low);
      assert c == q[..k] + [high, low] + q[k + 1..];
      BrokenPairIsMissed(q, c, q[..k], high, low, q[k + 1..], low);
    } else {
      var letter := LetterBut(q[0], q[1]);
      var inner := q[..1] + [letter] + q[1..];
      UnitInside(q, 1, letter, low);
      UnitInFront(q, inner, high, low);
      c := [high] + inner;
      assert c == [] + [high, low] + ([letter] + q[1..]);
      BrokenPairIsMissed(q, c, [], high, low, [letter] + q[1..], low);
    }
  }

  /** An emoji and a letter are not found where another letter stands between them. */
  lemma EmojiIsMissed()
    ensures var q, c: Text := [0xD83D, 0xDE00, 99], [0xD83D, 0xDE00, 98, 99];
      IsSubsequence(q, c) && CandidateScore(c, q).None?
  {
    hide IsSubsequence, CandidateScore, Scattered;
    var q, c: Text := [0xD83D, 0xDE00, 99], [0xD83D, 0xDE00, 98, 99];
    UnitInside(q, 2, 98, 0xD83D);
    assert q[..2] + [98] + q[2..] == c == [] + [0xD83D, 0xDE00] + [98, 99];
    BrokenPairIsMissed(q, c, [], 0xD83D, 0xDE00, [98, 99], 0xD83D);
  }

  /** The matcher finds a query in every candidate that holds it as a subsequence exactly when
      the query is a single unit or holds no surrogate. */
  lemma MatcherIsCompleteIff(q: Text)
    requires q != []
    ensures (forall c :: CandidateScore(c, q).Some? <==> IsSubsequence(q, c))
            <==> |q| == 1 || forall k :: 0 <= k < |q| ==> !IsSurrogate(q[k])
  {
    hide CandidateScore, IsSubsequence, Includes, Plain;
    if |q| == 1 || forall k :: 0 <= k < |q| ==> !IsSurrogate(q[k]) {
      forall c ensures CandidateScore(c, q).Some? <==> IsSubsequence(q, c) {
        ScoresIff(c, q);
        if Includes(c, q) {
          IncludedIsSubsequence(c, q);
        } else if IsSubsequence(q, Plain(c)) {
          PlainMatchesLess(q, c);
        } else if IsSubsequence(q, c) && |q| == 1 {
          SingleUnitIsIncluded(q, c);
        } else if IsSubsequence(q, c) {
          PlainQueryLosesNothing(q, c);
        }
      }
    } else if k :| 0 <= k < |q| && IsHigh(q[k]) {
      var c := HighIsMissed(q, k);
      assert IsSubsequence(q, c) && CandidateScore(c, q).None?;
    } else {
      var k :| 0 <= k < |q| && IsSurrogate(q[k]);
      var c := LowIsMissed(q, k);
      assert IsSubsequence(q, c) && CandidateScore(c, q).None?;
    }
  }

  /** A node is found exactly when its id or its name is. */
  lemma ScorePositiveIff(id: Text, name: Text, q: Text)
    ensures var a, b := CandidateScore(id, q), CandidateScore(name, q);
      Score(id, name, q) > 0 <==> (a.Some? && a.value > 0) || (b.Some? && b.value > 0)
    ensures Score(id, name, q) >= 0
  {
    hide CandidateScore;
  }

  /** Exact matches, and only they, score 1000; everything else stays below 700. */
  lemma ExactMatchesOutrank(id: Text, name: Text, q: Text)
    requires q != []
    ensures Score(id, name, q) == 1000 <==> id == q || name == q
    ensures Score(id, name, q) != 1000 ==> Score(id, name, q) < 700
  {
    CandidateBelow700(id, q);
    CandidateBelow700(name, q);
    hide CandidateScore;
  }

  lemma CandidateBelow700(c: Text, q: Text)
    requires q != []
    ensures CandidateScore(c, q).Some? ==>
      if c == q then CandidateScore(c, q).value == 1000 else CandidateScore(c, q).value < 700
    ensures c == q ==> CandidateScore(c, q).Some?
  {
    hide Greedy, CodePoints;
    var i := IndexFrom(c, q, 0);
    if i == 0 {
      assert OccursAt(c, q, 0);
    }
  }

  // ----- the ranks of the matches

  /** The position is that of the first occurrence. */
  ghost predicate FirstOccursAt(c: Text, q: Text, i: nat) {
    OccursAt(c, q, i) && forall j: nat :: j < i ==> !OccursAt(c, q, j)
  }

  /** How a candidate matches, the best way first. */
  datatype MatchKind = ExactMatch | PrefixMatch | InnerMatch | ScatteredMatch | NoMatch

  ghost function KindOf(c: Text, q: Text): MatchKind {
    if c == q then ExactMatch
    else if q <= c then PrefixMatch
    else if Includes(c, q) then InnerMatch
    else if IsSubsequence(q, Plain(c)) then ScatteredMatch
    else NoMatch
  }

  function Rank(kind: MatchKind): nat {
    match kind
    case ExactMatch => 4
    case PrefixMatch => 3
    case InnerMatch => 2
    case ScatteredMatch => 1
    case NoMatch => 0
  }

  /** Every class has its own formula: by length for prefixes and scattered matches, by the first
      position for the others. */
  lemma ScoreClasses(c: Text, q: Text, i: nat)
    requires q != []
    requires KindOf(c, q).InnerMatch? ==> FirstOccursAt(c, q, i)
    ensures CandidateScore(c, q) == match KindOf(c, q)
      case ExactMatch => Some(1000)
      case PrefixMatch => Some(700 - |c|)
      case InnerMatch => Some(500 - i)
      case ScatteredMatch => Some(300 - |c|)
      case NoMatch => None
    ensures KindOf(c, q).InnerMatch? ==> 0 < i < |c|
  {
    var at := IndexFrom(c, q, 0);
    assert q <= c <==> OccursAt(c, q, 0);
    assert at <= |c| <==> Includes(c, q) by {
      if j: nat :| OccursAt(c, q, j) {
        assert 0 <= j;
      }
    }
    assert KindOf(c, q).InnerMatch? ==> at == i;
    GreedyIsComplete(c, q, 0);
    assert q[0..] == q;
    assert c == q ==> q <= c;
    hide Greedy, CodePoints, Plain, IsSubsequence, IndexFrom;
  }

  /** An inside match has a first position. */
  lemma FirstOccurrence(c: Text, q: Text) returns (i: nat)
    ensures KindOf(c, q).InnerMatch? ==> FirstOccursAt(c, q, i)
  {
    i := IndexFrom(c, q, 0);
    hide IsSubsequence, Plain;
    if j: nat :| KindOf(c, q).InnerMatch? && OccursAt(c, q, j) {
      assert i <= |c|;
    }
  }

  /** Both match, the first one in a better way and with no more than n units. */
  ghost predicate Better(c: Text, d: Text, q: Text, n: nat) {
    Rank(KindOf(c, q)) > Rank(KindOf(d, q)) > 0 && |c| <= n
  }

  lemma ClassesAreOrdered(c: Text, d: Text, q: Text)
    requires q != [] && Better(c, d, q, 200)
    ensures CandidateScore(c, q).Some? && CandidateScore(d, q).Some?
    ensures CandidateScore(c, q).value > CandidateScore(d, q).value
  {
    var i := FirstOccurrence(c, q);
    var j := FirstOccurrence(d, q);
    ScoreClasses(c, q, i);
    ScoreClasses(d, q, j);
    assert KindOf(d, q).ScatteredMatch? ==> d != [] by {
      if d == [] {
        NothingInEmpty(q);
      }
    }
    hide CandidateScore, KindOf;
  }

  ghost predicate Outranks(c: Text, d: Text, q: Text) {
    var s, t := CandidateScore(c, q), CandidateScore(d, q);
    s.Some? && t.Some? && s.value > t.value
  }

  /** A candidate in a better class outranks every one in a worse class up to a length of 200
      units and no further: at 201 a prefix ties with a match at position 1. */
  lemma ClassesAreOrderedIff(q: Text, n: nat)
    requires 1 <= |q| <= 200
    ensures (forall c: Text, d: Text :: Better(c, d, q, n) ==> Outranks(c, d, q)) <==> n <= 200
  {
    if n <= 200 {
      forall c: Text, d: Text | Better(c, d, q, n) ensures Outranks(c, d, q) {
        ClassesAreOrdered(c, d, q);
      }
    } else {
      var pad: Text := seq(201 - |q|, _ => 0);
      var x: CodeUnit := if q[0] == 0 then 1 else 0;
      var c, d: Text := q + pad, [x] + q;
      assert KindOf(c, q).PrefixMatch?;
      assert d[1..] == q && d[1..1 + |q|] == q;
      assert OccursAt(d, q, 1) && d[0] != q[0];
      assert FirstOccursAt(d, q, 1);
      assert KindOf(d, q).InnerMatch? by {
        assert d[0] == x;
        assert !(q <= d);
      }
      ScoreClasses(c, q, 0);
      ScoreClasses(d, q, 1);
      hide CandidateScore, KindOf;
      assert Better(c, d, q, n) && !Outranks(c, d, q);
    }
  }

  /** Within a class the shorter candidate, or the earlier first occurrence, ranks higher. */
  lemma OrderWithinClass(c: Text, d: Text, q: Text, i: nat, j: nat)
    requires q != [] && KindOf(c, q) == KindOf(d, q) != NoMatch
    requires KindOf(c, q).InnerMatch? ==> FirstOccursAt(c, q, i) && FirstOccursAt(d, q, j)
    ensures Outranks(c, d, q) <==> match KindOf(c, q)
      case ExactMatch => false
      case InnerMatch => i < j
      case _ => |c| < |d|
  {
    ScoreClasses(c, q, i);
    ScoreClasses(d, q, j);
    hide CandidateScore, KindOf;
  }

  /** A node's score is the better of its two candidates' scores, and never below zero. */
  lemma ScoreIsBest(id: Text, name: Text, q: Text)
    ensures var a, b, s := CandidateScore(id, q), CandidateScore(name, q), Score(id, name, q);
      && s >= 0 && (a.Some? ==> s >= a.value) && (b.Some? ==> s >= b.value)
      && (s == 0 || a == Some(s) || b == Some(s))
  {
    hide CandidateScore;
  }

  // ----- the ranked list

  /** Higher scores first, then input order. */
  predicate Before(scores: seq<int>, i: nat, j: nat)
    requires i < |scores| && j < |scores|
  {
    scores[i] > scores[j] || (scores[i] == scores[j] && i < j)
  }

  predicate InRange(scores: seq<int>, s: seq<nat>) {
    forall k :: 0 <= k < |s| ==> s[k] < |scores|
  }

  ghost predicate Ordered(scores: seq<int>, s: seq<nat>)
    requires InRange(scores, s)
  {
    forall j, k :: 0 <= j < k < |s| ==> Before(scores, s[j], s[k])
  }

  function Insert(scores: seq<int>, i: nat, s: seq<nat>): (r: seq<nat>)
    requires i < |scores| && InRange(scores, s)
    ensures InRange(scores, r) && |r| == |s| + 1
    ensures forall x :: x in r <==> x == i || x in s
  {
    if s == [] then [i]
    else
      assert s == [s[0]] + s[1..];
      if Before(scores, i, s[0]) then [i] + s
      else [s[0]] + Insert(scores, i, s[1..])
  }

  /** Map, filter on positive scores, sort: the first n nodes. */
  function RankedUpTo(scores: seq<int>, n: nat): (r: seq<nat>)
    requires n <= |scores|
    ensures InRange(scores, r)
    ensures forall i: nat :: i in r <==> i < n && scores[i] > 0
  {
    if n == 0 then []
    else if scores[n - 1] > 0 then Insert(scores, n - 1, RankedUpTo(scores, n - 1))
    else RankedUpTo(scores, n - 1)
  }

  const LIMIT: nat := 10

  function TopTen(scores: seq<int>): seq<nat> {
    var r := RankedUpTo(scores, |scores|);
    if |r| <= LIMIT then r else r[..LIMIT]
  }

  lemma {:induction false} InsertKeepsOrder(scores: seq<int>, i: nat, s: seq<nat>)
    requires i < |scores| && InRange(scores, s) && Ordered(scores, s) && i !in s
    ensures Ordered(scores, Insert(scores, i, s))
  {
    if s != [] && !Before(scores, i, s[0]) {
      InsertKeepsOrder(scores, i, s[1..]);
      var r := Insert(scores, i, s[1..]);
      assert Before(scores, s[0], i);
      forall k | 0 <= k < |r| ensures Before(scores, s[0], r[k]) {
        assert r[k] in r;
      }
    }
  }

  lemma NoneIsOrdered(scores: seq<int>)
    ensures Ordered(scores, [])
  {
  }

  lemma {:induction false} RankedIsOrdered(scores: seq<int>, n: nat)
    requires n <= |scores|
    ensures Ordered(scores, RankedUpTo(scores, n))
  {
    hide Insert, Ordered, Before;
    if n == 0 {
      NoneIsOrdered(scores);
    } else {
      RankedIsOrdered(scores, n - 1);
      if scores[n - 1] > 0 {
        InsertKeepsOrder(scores, n - 1, RankedUpTo(scores, n - 1));
      }
    }
  }

  /** The result list: only matches, best first with ties in input order, at most ten, and
      nothing left out unless ten better ones are in. */
  lemma TopTenMeaning(scores: seq<int>)
    ensures var r := TopTen(scores);
      && |r| <= LIMIT && InRange(scores, r) && Ordered(scores, r)
      && (forall j, k :: 0 <= j < k < |r| ==>
           scores[r[j]] > scores[r[k]] || (scores[r[j]] == scores[r[k]] && r[j] < r[k]))
      && (forall k :: 0 <= k < |r| ==> scores[r[k]] > 0)
      && (forall i: nat :: i < |scores| && scores[i] > 0 && i !in r ==>
           |r| == 10 && forall k :: 0 <= k < |r| ==>
             scores[r[k]] > scores[i] || (scores[r[k]] == scores[i] && r[k] < i))
  {
    var all, r := RankedUpTo(scores, |scores|), TopTen(scores);
    RankedIsOrdered(scores, |scores|);
    assert forall k :: 0 <= k < |r| ==> r[k] == all[k] && all[k] in all;
    forall i: nat | i < |scores| && scores[i] > 0 && i !in r
      ensures |r| == LIMIT && forall k :: 0 <= k < |r| ==> Before(scores, r[k], i)
    {
      var at :| 0 <= at < |all| && all[at] == i;
      assert forall k :: 0 <= k < |r| ==> all[k] == r[k] && r[k] in r;
      assert |r| <= at;
    }
  }

  // ----- the search box

  /** A node's id and name, already lower-cased. */
  datatype Node = Node(id: Text, name: Text)

  function Scores(nodes: seq<Node>, q: Text): (s: seq<int>)
    ensures |s| == |nodes| && forall k :: 0 <= k < |nodes| ==> s[k] == Score(nodes[k].id, nodes[k].name, q)
  {
    seq(|nodes|, k requires 0 <= k < |nodes| => Score(nodes[k].id, nodes[k].name, q))
  }

  /** The filtered nodes, by position in the input. */
  function Search(nodes: seq<Node>, q: Text): seq<nat> {
    if q == [] then [] else TopTen(Scores(nodes, q))
  }

  ghost predicate Matches(n: Node, q: Text) {
    IsSubsequence(q, n.id) || IsSubsequence(q, n.name)
  }

  predicate Short(n: Node) {
    && |n.id| < 300 && |n.name| < 300
    && (forall k :: 0 <= k < |n.id| ==> !IsHigh(n.id[k])) && (forall k :: 0 <= k < |n.name| ==> !IsHigh(n.name[k]))
  }

  /** End to end, over nodes shorter than 300 units without surrogate pairs: every hit is a
      subsequence match, every match is a hit unless ten are shown, and an exact match is only
      ever preceded by other exact matches. */
  lemma SearchIsComplete(nodes: seq<Node>, q: Text)
    requires q != [] && forall k :: 0 <= k < |nodes| ==> Short(nodes[k])
    ensures var hits := Search(nodes, q);
      && |hits| <= LIMIT
      && (forall k :: 0 <= k < |hits| ==> hits[k] < |nodes| && Matches(nodes[hits[k]], q))
      && (forall j, k :: 0 <= j < k < |hits| ==> hits[j] != hits[k])
      && (|hits| < LIMIT ==> forall i: nat :: i < |nodes| && Matches(nodes[i], q) ==> i in hits)
      && (forall j, k :: 0 <= j < k < |hits| && (nodes[hits[k]].id == q || nodes[hits[k]].name == q) ==>
           nodes[hits[j]].id == q || nodes[hits[j]].name == q)
  {
    var scores, hits := Scores(nodes, q), Search(nodes, q);
    TopTenMeaning(scores);
    hide TopTen, Score, IsSubsequence;
    forall i: nat | i < |nodes| ensures scores[i] > 0 <==> Matches(nodes[i], q) {
      ScorePositiveIff(nodes[i].id, nodes[i].name, q);
      ShortCandidatePositiveIff(nodes[i].id, q);
      ShortCandidatePositiveIff(nodes[i].name, q);
    }
    forall j, k | 0 <= j < k < |hits| ensures hits[j] != hits[k] {
      assert Before(scores, hits[j], hits[k]);
    }
    forall j, k | 0 <= j < k < |hits| && (nodes[hits[k]].id == q || nodes[hits[k]].name == q)
      ensures nodes[hits[j]].id == q || nodes[hits[j]].name == q
    {
      assert Before(scores, hits[j], hits[k]);
      ExactMatchesOutrank(nodes[hits[j]].id, nodes[hits[j]].name, q);
      ExactMatchesOutrank(nodes[hits[k]].id, nodes[hits[k]].name, q);
    }
  }
}
