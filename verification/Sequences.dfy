/** Sums, concatenations and subsequences, shared by the engines. */
module Sequences {

  function Sum(s: seq<real>): real {
    if s == [] then 0.0 else Sum(s[..|s| - 1]) + s[|s| - 1]
  }

  lemma SumOfNone()
    ensures Sum([]) == 0.0
  {
  }

  lemma SumAppend(s: seq<real>, x: real)
    ensures Sum(s + [x]) == Sum(s) + x
  {
    assert (s + [x])[..|s|] == s;
  }

  lemma {:induction false} SumSplit(s: seq<real>, t: seq<real>)
    ensures Sum(s + t) == Sum(s) + Sum(t)
    decreases |t|
  {
    if t == [] {
      assert s + t == s;
    } else {
      assert (s + t)[..|s + t| - 1] == s + t[..|t| - 1];
      SumSplit(s, t[..|t| - 1]);
    }
  }

  function Concat<T>(w: seq<seq<T>>): seq<T> {
    if w == [] then [] else w[0] + Concat(w[1..])
  }

  lemma ConcatOfNone<T>()
    ensures Concat<T>([]) == []
  {
  }

  lemma ConcatStep<T>(first: seq<T>, rest: seq<seq<T>>)
    ensures Concat([first] + rest) == first + Concat(rest)
  {
    assert ([first] + rest)[1..] == rest;
  }

  lemma {:induction false} ConcatAppend<T>(w: seq<seq<T>>, last: seq<T>)
    ensures Concat(w + [last]) == Concat(w) + last
  {
    if w == [] {
      ConcatStep(last, []);
      assert [] + [last] == [last] + [];
      assert last + [] == last && [] + last == last;
    } else {
      assert (w + [last])[1..] == w[1..] + [last];
      ConcatAppend(w[1..], last);
      assert w[0] + (Concat(w[1..]) + last) == w[0] + Concat(w[1..]) + last;
    }
  }

  // ----- subsequences

  /** q is read off s at strictly increasing positions. */
  ghost predicate Embeds<T>(q: seq<T>, s: seq<T>, at: seq<nat>) {
    && |at| == |q|
    && (forall k :: 0 <= k < |at| ==> at[k] < |s| && s[at[k]] == q[k])
    && (forall j, k :: 0 <= j < k < |at| ==> at[j] < at[k])
  }

  ghost predicate IsSubsequence<T>(q: seq<T>, s: seq<T>) {
    exists at: seq<nat> :: Embeds(q, s, at)
  }

  lemma EmptyIsSubsequence<T>(s: seq<T>)
    ensures IsSubsequence([], s)
  {
    assert Embeds([], s, []);
  }

  lemma SubsequenceTake<T>(q: seq<T>, s: seq<T>, x: T)
    requires IsSubsequence(q, s)
    ensures IsSubsequence(q + [x], s + [x])
  {
    var at: seq<nat> :| Embeds(q, s, at);
    assert Embeds(q + [x], s + [x], at + [|s|]);
  }

  /** Leaving out some elements in the middle keeps a subsequence. */
  lemma SubsequenceDrop<T>(a: seq<T>, x: seq<T>, b: seq<T>, s: seq<T>)
    requires IsSubsequence(a + x + b, s)
    ensures IsSubsequence(a + b, s)
  {
    var q := a + x + b;
    var at: seq<nat> :| Embeds(q, s, at);
    var rest := at[..|a|] + at[|a| + |x|..];
    forall k | 0 <= k < |rest| ensures rest[k] < |s| && s[rest[k]] == (a + b)[k] {
      var i := if k < |a| then k else k + |x|;
      assert rest[k] == at[i] && (a + b)[k] == q[i];
    }
    assert Embeds(a + b, s, rest);
  }

  lemma SubsequenceOfDistinct<T>(q: seq<T>, s: seq<T>)
    requires IsSubsequence(q, s) && forall j, k :: 0 <= j < k < |s| ==> s[j] != s[k]
    ensures forall j, k :: 0 <= j < k < |q| ==> q[j] != q[k]
    ensures forall k :: 0 <= k < |q| ==> q[k] in s
  {
    var at: seq<nat> :| Embeds(q, s, at);
    forall j, k | 0 <= j < k < |q| ensures q[j] != q[k] {
      assert at[j] < at[k] && s[at[j]] == q[j] && s[at[k]] == q[k];
    }
  }
}
