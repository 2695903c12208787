/** The retrieval metrics of bench/evaluate.py over normalized token lists: ROUGE-L on the longest
  * common subsequence table, token F1 on the common-token count, recall at k and reciprocal rank.
  * Floats are reals; text normalization is not part of this model.
  */
module Evaluate {
  import opened Wrappers

  type Tokens = seq<string>

  // ---------------------------------------------------------------------------------------------
  // Longest common subsequence
  // ---------------------------------------------------------------------------------------------

  function Front(s: Tokens): Tokens
    requires s != []
  {
    s[..|s| - 1]
  }

  function Last(s: Tokens): string
    requires s != []
  {
    s[|s| - 1]
  }

  /** s can be read off t by deleting tokens. */
  ghost predicate Subsequence(s: Tokens, t: Tokens)
    decreases |t|
  {
    s == [] || (t != [] && ((Last(s) == Last(t) && Subsequence(Front(s), Front(t))) || Subsequence(s, Front(t))))
  }

  /** The recurrence the table is filled by. */
  function Lcs(a: Tokens, b: Tokens): nat
    decreases |a| + |b|
  {
    if a == [] || b == [] then 0
    else if Last(a) == Last(b) then Lcs(Front(a), Front(b)) + 1
    else Max(Lcs(Front(a), b), Lcs(a, Front(b)))
  }

  function Max(x: nat, y: nat): nat {
    if x >= y then x else y
  }

  /** Fills the table row by row and returns its last cell. */
  method LcsTable(truth: Tokens, pred: Tokens) returns (len: nat)
    ensures len == Lcs(truth, pred)
  {
    var m, n := |truth|, |pred|;
    var dp := new nat[m + 1, n + 1]((i, j) => 0);
    for i := 1 to m + 1
      invariant forall k, j :: 0 <= k < i && 0 <= j <= n ==> dp[k, j] == Lcs(truth[..k], pred[..j])
      invariant forall k :: 0 <= k <= m ==> dp[k, 0] == 0
    {
      for j := 1 to n + 1
        invariant forall k, l :: 0 <= k < i && 0 <= l <= n ==> dp[k, l] == Lcs(truth[..k], pred[..l])
        invariant forall l :: 0 <= l < j ==> dp[i, l] == Lcs(truth[..i], pred[..l])
        invariant forall k :: 0 <= k <= m ==> dp[k, 0] == 0
      {
        Prefixes(truth, i);
        Prefixes(pred, j);
        if truth[i - 1] == pred[j - 1] {
          dp[i, j] := dp[i - 1, j - 1] + 1;
        } else {
          dp[i, j] := Max(dp[i - 1, j], dp[i, j - 1]);
        }
      }
    }
    Prefixes(truth, m);
    Prefixes(pred, n);
    return dp[m, n];
  }

  lemma Prefixes(s: Tokens, i: nat)
    requires i <= |s|
    ensures s[..|s|] == s
    ensures i > 0 ==> s[..i] != [] && Front(s[..i]) == s[..i - 1] && Last(s[..i]) == s[i - 1]
  {}

  /** Some common subsequence has that length. */
  lemma {:induction false} LcsAchieved(a: Tokens, b: Tokens) returns (s: Tokens)
    ensures Subsequence(s, a) && Subsequence(s, b) && |s| == Lcs(a, b)
    decreases |a| + |b|
  {
    if a == [] || b == [] {
      s := [];
    } else if Last(a) == Last(b) {
      var s' := LcsAchieved(Front(a), Front(b));
      s := s' + [Last(a)];
      assert Front(s) == s';
    } else if Lcs(Front(a), b) >= Lcs(a, Front(b)) {
      s := LcsAchieved(Front(a), b);
    } else {
      s := LcsAchieved(a, Front(b));
    }
  }

  lemma {:induction false} SubsequenceFront(s: Tokens, t: Tokens)
    requires s != [] && Subsequence(s, t)
    ensures t != [] && Subsequence(Front(s), Front(t))
    decreases |t|
  {
    if !(Last(s) == Last(t) && Subsequence(Front(s), Front(t))) {
      SubsequenceFront(s, Front(t));
      SubsequenceLonger(Front(s), Front(t));
    }
  }

  lemma {:induction false} SubsequenceLonger(s: Tokens, t: Tokens)
    requires t != [] && Subsequence(s, Front(t))
    ensures Subsequence(s, t)
  {}

  /** No common subsequence is longer. */
  lemma {:induction false} LcsLongest(s: Tokens, a: Tokens, b: Tokens)
    requires Subsequence(s, a) && Subsequence(s, b)
    ensures |s| <= Lcs(a, b)
    decreases |a| + |b|
  {
    if s != [] {
      if Last(a) == Last(b) {
        SubsequenceFront(s, a);
        SubsequenceFront(s, b);
        LcsLongest(Front(s), Front(a), Front(b));
      } else if Last(s) != Last(a) {
        LcsLongest(s, Front(a), b);
      } else {
        LcsLongest(s, a, Front(b));
      }
    }
  }

  lemma LcsSymmetric(a: Tokens, b: Tokens)
    ensures Lcs(a, b) == Lcs(b, a)
  {}

  lemma {:induction false} SubsequenceOfItself(s: Tokens)
    ensures Subsequence(s, s)
    decreases |s|
  {
    if s != [] { SubsequenceOfItself(Front(s)); }
  }

  lemma {:induction false} SubsequenceShort(s: Tokens, t: Tokens)
    requires Subsequence(s, t)
    ensures |s| <= |t|
    ensures |s| == |t| ==> s == t
    decreases |t|
  {
    if s != [] {
      if Last(s) == Last(t) && Subsequence(Front(s), Front(t)) {
        SubsequenceShort(Front(s), Front(t));
        assert s == Front(s) + [Last(s)] && t == Front(t) + [Last(t)];
      } else {
        SubsequenceShort(s, Front(t));
      }
    }
  }

  lemma LcsBounds(a: Tokens, b: Tokens)
    ensures Lcs(a, b) <= |a| && Lcs(a, b) <= |b|
    ensures |a| == |b| ==> (Lcs(a, b) == |a| <==> a == b)
  {}

  // ---------------------------------------------------------------------------------------------
  // Common tokens
  // ---------------------------------------------------------------------------------------------

  /** `sum((Counter(a) & Counter(b)).values())`. */
  function Common(a: Tokens, b: Tokens): nat {
    |multiset(a) * multiset(b)|
  }

  /** A further token counts as common while the other list has another copy of it. */
  lemma CommonCounts(a: Tokens, x: string, b: Tokens)
    ensures Common([], b) == 0
    ensures Common(a + [x], b) == Common(a, b) + if multiset(a)[x] < multiset(b)[x] then 1 else 0
  {
    var before, after := multiset(a) * multiset(b), multiset(a + [x]) * multiset(b);
    assert multiset(a + [x]) == multiset(a) + multiset{x};
    if multiset(a)[x] < multiset(b)[x] {
      assert after == before + multiset{x};
    } else {
      assert after == before;
    }
    assert multiset([]) * multiset(b) == multiset{};
  }

  lemma {:induction false} SubsequenceTokens(s: Tokens, t: Tokens)
    requires Subsequence(s, t)
    ensures multiset(s) <= multiset(t)
    decreases |t|
  {
    if s != [] {
      assert t == Front(t) + [Last(t)] && s == Front(s) + [Last(s)];
      if Last(s) == Last(t) && Subsequence(Front(s), Front(t)) {
        SubsequenceTokens(Front(s), Front(t));
      } else {
        SubsequenceTokens(s, Front(t));
      }
    }
  }

  lemma SubmultisetSize<T>(a: multiset<T>, b: multiset<T>)
    requires a <= b
    ensures |a| <= |b|
    ensures |a| == |b| ==> a == b
  {
    assert b == a + (b - a);
    assert |b| == |a| + |b - a|;
    if |a| == |b| {
      assert b - a == multiset{};
    }
  }

  lemma {:induction false} CommonBounds(a: Tokens, b: Tokens)
    ensures Lcs(a, b) <= Common(a, b) <= |a| && Common(a, b) <= |b|
    ensures |a| == |b| ==> (Common(a, b) == |a| <==> multiset(a) == multiset(b))
  {
    var s := LcsAchieved(a, b);
    SubsequenceTokens(s, a);
    SubsequenceTokens(s, b);
    var both := multiset(a) * multiset(b);
    SubmultisetSize(multiset(s), both);
    SubmultisetSize(both, multiset(a));
    SubmultisetSize(both, multiset(b));
    assert |multiset(a)| == |a| && |multiset(b)| == |b| && |multiset(s)| == |s|;
    if multiset(a) == multiset(b) {
      assert both == multiset(a);
    }
  }

  /** One shared token is already a common subsequence. */
  lemma SharedTokenCounts(a: Tokens, b: Tokens)
    ensures Lcs(a, b) == 0 <==> Common(a, b) == 0
  {
    CommonBounds(a, b);
    var both := multiset(a) * multiset(b);
    if Common(a, b) > 0 {
      var x :| x in both;
      assert x in a && x in b;
      SingleToken(x, a);
      SingleToken(x, b);
      LcsLongest([x], a, b);
    }
  }

  lemma {:induction false} SingleToken(x: string, t: Tokens)
    requires x in t
    ensures Subsequence([x], t)
    decreases |t|
  {
    assert Front([x]) == [];
    if Last(t) != x {
      assert t == Front(t) + [Last(t)];
      SingleToken(x, Front(t));
    }
  }

  // ---------------------------------------------------------------------------------------------
  // F1 scores
  // ---------------------------------------------------------------------------------------------

  /** The harmonic mean of precision c/n and recall c/m, as computed. */
  function F1(c: nat, n: nat, m: nat): real
    requires 0 < c && 0 < n && 0 < m
  {
    var precision, recall := c as real / n as real, c as real / m as real;
    assert precision > 0.0 && recall > 0.0;
    2.0 * precision * recall / (precision + recall)
  }

  lemma F1Value(c: nat, n: nat, m: nat)
    requires 0 < c && 0 < n && 0 < m
    ensures F1(c, n, m) == (2 * c) as real / (n + m) as real
  {}

  /** The score of a count against the two lengths, in the shape both metrics share. */
  function Score(count: nat, pred: Tokens, truth: Tokens): real
    requires count <= |pred| && count <= |truth|
  {
    if pred == [] || truth == [] then (if pred == truth then 1.0 else 0.0)
    else if count == 0 then 0.0
    else F1(count, |pred|, |truth|)
  }

  function RougeL(pred: Tokens, truth: Tokens): real {
    LcsBounds(truth, pred);
    Score(Lcs(truth, pred), pred, truth)
  }

  function TokenF1(pred: Tokens, truth: Tokens): real {
    CommonBounds(pred, truth);
    Score(Common(pred, truth), pred, truth)
  }

  method RougeLF1(pred: Tokens, truth: Tokens) returns (f1: real)
    ensures f1 == RougeL(pred, truth)
  {
    LcsBounds(truth, pred);
    if pred == [] || truth == [] {
      return if pred == truth then 1.0 else 0.0;
    }
    var len := LcsTable(truth, pred);
    if len == 0 {
      return 0.0;
    }
    f1 := F1(len, |pred|, |truth|);
  }

  /** Scores grow with the count, stay in [0, 1], and reach 1 only when the count uses up both lists. */
  lemma ScoreMonotone(c: nat, d: nat, pred: Tokens, truth: Tokens)
    requires c <= d && d <= |pred| && d <= |truth|
    ensures 0.0 <= Score(c, pred, truth) <= Score(d, pred, truth) <= 1.0
    ensures pred != [] && truth != [] ==> (Score(d, pred, truth) == 1.0 <==> d == |pred| && d == |truth|)
    ensures pred != [] && truth != [] ==> (Score(d, pred, truth) == 0.0 <==> d == 0)
  {
    if pred != [] && truth != [] {
      if c > 0 { F1Value(c, |pred|, |truth|); }
      if d > 0 { F1Value(d, |pred|, |truth|); }
      var total := (|pred| + |truth|) as real;
      RatioBounds((2 * c) as real, (2 * d) as real, total);
    }
  }

  lemma RatioBounds(c: real, d: real, total: real)
    requires 0.0 <= c <= d <= total && total > 0.0
    ensures 0.0 <= c / total <= d / total <= 1.0
    ensures d / total == 1.0 <==> d == total
    ensures d / total == 0.0 <==> d == 0.0
  {}

  /** For all inputs: ROUGE-L never exceeds token F1, and both lie in [0, 1]. */
  lemma RougeAtMostTokenF1(pred: Tokens, truth: Tokens)
    ensures 0.0 <= RougeL(pred, truth) <= TokenF1(pred, truth) <= 1.0
  {
    LcsBounds(truth, pred);
    CommonBounds(pred, truth);
    LcsSymmetric(truth, pred);
    ScoreMonotone(Lcs(truth, pred), Common(pred, truth), pred, truth);
  }

  /** ROUGE-L is 1 exactly for equal lists; token F1 is 1 exactly for lists equal up to order. */
  lemma PerfectScores(pred: Tokens, truth: Tokens)
    ensures RougeL(pred, truth) == 1.0 <==> pred == truth
    ensures TokenF1(pred, truth) == 1.0 <==> multiset(pred) == multiset(truth)
  {
    LcsBounds(truth, pred);
    CommonBounds(pred, truth);
    SameTokensSameLength(pred, truth);
    ScoreMonotone(Lcs(truth, pred), Lcs(truth, pred), pred, truth);
    ScoreMonotone(Common(pred, truth), Common(pred, truth), pred, truth);
  }

  lemma SameTokensSameLength(a: Tokens, b: Tokens)
    ensures multiset(a) == multiset(b) ==> |a| == |b|
    ensures a == [] || b == [] ==> (multiset(a) == multiset(b) <==> a == b)
  {}

  /** The two metrics are zero together. */
  lemma ZeroScores(pred: Tokens, truth: Tokens)
    ensures RougeL(pred, truth) == 0.0 <==> TokenF1(pred, truth) == 0.0
  {
    LcsBounds(truth, pred);
    CommonBounds(pred, truth);
    LcsSymmetric(truth, pred);
    SharedTokenCounts(pred, truth);
    ScoreMonotone(Lcs(truth, pred), Lcs(truth, pred), pred, truth);
    ScoreMonotone(Common(pred, truth), Common(pred, truth), pred, truth);
  }

  // ---------------------------------------------------------------------------------------------
  // Ranked retrieval
  // ---------------------------------------------------------------------------------------------

  /** A recalled item: its raw content and that content normalized. */
  datatype Recalled = Recalled(content: string, normalized: string)

  predicate Contains(s: string, sub: string) {
    exists i :: 0 <= i <= |s| - |sub| && FoundAt(s, sub, i)
  }

  predicate FoundAt(s: string, sub: string, i: nat)
    requires i + |sub| <= |s|
  {
    s[i..i + |sub|] == sub
  }

  predicate Relevant(r: Recalled, truth: string) {
    r.content != "" && Contains(r.normalized, truth)
  }

  /** Where the slice `results[:k]` ends; a negative k counts from the end. */
  function SliceEnd(n: nat, k: int): (e: nat)
    ensures e <= n
  {
    if k >= 0 then (if k <= n then k else n)
    else if n + k >= 0 then n + k else 0
  }

  /** The position of the first relevant result. */
  ghost function FirstRelevant(results: seq<Recalled>, truth: string): (r: Option<nat>)
    ensures r.Some? ==> r.value < |results| && Relevant(results[r.value], truth)
    ensures forall j :: 0 <= j < (if r.Some? then r.value else |results|) ==> !Relevant(results[j], truth)
  {
    if results == [] then None
    else if Relevant(results[0], truth) then Some(0)
    else match FirstRelevant(results[1..], truth)
      case Some(i) => Some(i + 1)
      case None => None
  }

  method RecallAtK(results: seq<Recalled>, truth: string, k: int) returns (r: real)
    ensures r == if RecalledAt(results, truth, k) then 1.0 else 0.0
  {
    var top := results[..SliceEnd(|results|, k)];
    for i := 0 to |top|
      invariant forall j :: 0 <= j < i ==> !Relevant(results[j], truth)
    {
      if Relevant(top[i], truth) {
        return 1.0;
      }
    }
    return 0.0;
  }

  ghost function Mrr(results: seq<Recalled>, truth: string): real {
    match FirstRelevant(results, truth)
    case Some(i) => 1.0 / (i + 1) as real
    case None => 0.0
  }

  method MeanReciprocalRank(results: seq<Recalled>, truth: string) returns (r: real)
    ensures r == Mrr(results, truth)
  {
    for i := 0 to |results|
      invariant forall j :: 0 <= j < i ==> !Relevant(results[j], truth)
    {
      if Relevant(results[i], truth) {
        return 1.0 / (i + 1) as real;
      }
    }
    return 0.0;
  }

  ghost predicate RecalledAt(results: seq<Recalled>, truth: string, k: int) {
    exists j :: 0 <= j < SliceEnd(|results|, k) && Relevant(results[j], truth)
  }

  /** A result is relevant exactly when it has content and the truth occurs in its normalized form. */
  lemma RelevantExactly(r: Recalled, truth: string)
    ensures (exists pre, post :: r.normalized == pre + truth + post) && r.content != "" <==> Relevant(r, truth)
  {
    if Relevant(r, truth) {
      var i :| 0 <= i <= |r.normalized| - |truth| && FoundAt(r.normalized, truth, i);
      assert r.normalized == r.normalized[..i] + truth + r.normalized[i + |truth|..];
    }
    if pre, post :| r.normalized == pre + truth + post {
      assert FoundAt(r.normalized, truth, |pre|);
    }
  }

  /** The first relevant result at rank i gives 1/i, none gives 0. */
  lemma RankValue(results: seq<Recalled>, truth: string, i: nat)
    ensures i < |results| && Relevant(results[i], truth) && (forall j :: 0 <= j < i ==> !Relevant(results[j], truth)) ==>
      Mrr(results, truth) * (i + 1) as real == 1.0
    ensures (forall j :: 0 <= j < |results| ==> !Relevant(results[j], truth)) ==> Mrr(results, truth) == 0.0
  {}

  /** What recall looks at: the first k results, all of them when there are fewer; for a negative k all but the
    * last -k. */
  lemma RecallLooksAt(results: seq<Recalled>, truth: string, k: int)
    ensures 0 <= k <= |results| ==> (RecalledAt(results, truth, k) <==> exists j :: 0 <= j < k && Relevant(results[j], truth))
    ensures k >= |results| ==>
      (RecalledAt(results, truth, k) <==> exists j :: 0 <= j < |results| && Relevant(results[j], truth))
    ensures -|results| <= k < 0 ==> RecalledAt(results, truth, k) == RecalledAt(results, truth, |results| + k)
    ensures k < -|results| ==> !RecalledAt(results, truth, k)
  {}

  /** For k >= 1: recall at k is 1 exactly when the reciprocal rank is at least 1/k. */
  lemma RecallIsRank(results: seq<Recalled>, truth: string, k: int)
    requires k >= 1
    ensures RecalledAt(results, truth, k) <==> Mrr(results, truth) >= 1.0 / k as real
  {
    var first := FirstRelevant(results, truth);
    if first.Some? {
      Reciprocals(first.value + 1, k);
      if RecalledAt(results, truth, k) {
        var j :| 0 <= j < SliceEnd(|results|, k) && Relevant(results[j], truth);
        assert first.value <= j;
      }
    } else {
      assert 1.0 / k as real > 0.0;
    }
  }

  lemma Reciprocals(a: int, b: int)
    requires a >= 1 && b >= 1
    ensures 1.0 / a as real >= 1.0 / b as real <==> a <= b
  {}

}
