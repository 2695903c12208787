/** The glob matcher of the policy engine (crates/clawdesk-acp/src/policy.rs, `glob_match`).
  *
  * `Matches` is the documented meaning of a pattern. `Scan` is the two-pointer loop, which
  * remembers only the last `*` it met. `GlobMatches` adds the two fast paths in front of it.
  *
  * The loop tests the literal branch before the star branch, so a `*` in the pattern that meets
  * a `*` in the text is consumed as an ordinary character and is not recorded as a backtracking
  * point. `ExactForText` and `ExactForPattern` say exactly which texts and which patterns this
  * affects.
  */
module Glob {
  import opened Wrappers

  /** What a pattern means: `*` spans any run, `?` is any one character, the rest is literal. */
  ghost predicate Matches(p: string, t: string)
    decreases |p|
  {
    if p == [] then t == []
    else if p[0] == '*' then exists k :: 0 <= k <= |t| && Matches(p[1..], t[k..])
    else t != [] && MatchesChar(p[0], t[0]) && Matches(p[1..], t[1..])
  }

  predicate MatchesChar(c: char, x: char) {
    c == '?' || c == x
  }

  predicate StarFree(s: string) {
    '*' !in s
  }

  // ---------------------------------------------------------------------------------------------
  // The loop as a function
  // ---------------------------------------------------------------------------------------------

  /** Where the loop is: both cursors, the last recorded star, and where it started matching. */
  datatype Pos = Pos(pi: nat, ti: nat, star: Option<nat>, starTi: nat)

  const START := Pos(0, 0, None, 0)

  ghost predicate Valid(p: string, t: string, at: Pos) {
    && at.pi <= |p| && at.starTi <= at.ti <= |t|
    && (at.star.Some? ==> at.star.value < at.pi && p[at.star.value] == '*')
  }

  /** The pattern left behind the last recorded star, one more when none is recorded. */
  ghost function Unstarred(p: string, at: Pos): nat
    requires at.star.Some? ==> at.star.value < |p|
  {
    if at.star.Some? then |p| - at.star.value else |p| + 1
  }

  /** One round of the loop; None when it gives up. */
  ghost function Next(p: string, t: string, at: Pos): (r: Option<Pos>)
    requires Valid(p, t, at) && at.ti < |t|
    ensures r.Some? ==> Valid(p, t, r.value)
  {
    if at.pi < |p| && MatchesChar(p[at.pi], t[at.ti]) then Some(at.(pi := at.pi + 1, ti := at.ti + 1))
    else if at.pi < |p| && p[at.pi] == '*' then Some(Pos(at.pi + 1, at.ti, Some(at.pi), at.ti))
    else if at.star.Some? then Some(Pos(at.star.value + 1, at.starTi + 1, at.star, at.starTi + 1))
    else None
  }

  /** What the loop answers from a given state. */
  ghost predicate Scan(p: string, t: string, at: Pos)
    requires Valid(p, t, at)
    decreases Unstarred(p, at), |t| - at.starTi, |t| - at.ti
  {
    if at.ti == |t| then AllStars(p[at.pi..])
    else if Next(p, t, at).Some? then Scan(p, t, Next(p, t, at).value)
    else false
  }

  predicate AllStars(p: string) {
    forall i :: 0 <= i < |p| ==> p[i] == '*'
  }

  /** The whole matcher: two fast paths, then the loop. */
  ghost predicate GlobMatches(pattern: string, text: string) {
    if pattern == "*" then true
    else if '*' !in pattern && '?' !in pattern then pattern == text
    else Scan(pattern, text, START)
  }

  /** The matcher as the source runs it. */
  method GlobMatch(pattern: string, text: string) returns (b: bool)
    ensures b == GlobMatches(pattern, text)
  {
    if pattern == "*" {
      return true;
    }
    if '*' !in pattern && '?' !in pattern {
      return pattern == text;
    }
    var p, t := pattern, text;
    var pi, ti := 0, 0;
    var starPi: Option<nat> := None;
    var starTi := 0;
    while ti < |t|
      invariant 0 <= pi && 0 <= ti && 0 <= starTi && Valid(p, t, Pos(pi, ti, starPi, starTi))
      invariant Scan(p, t, Pos(pi, ti, starPi, starTi)) == Scan(p, t, START)
      decreases Unstarred(p, Pos(pi, ti, starPi, starTi)), |t| - starTi, |t| - ti
    {
      if pi < |p| && (p[pi] == '?' || p[pi] == t[ti]) {
        pi := pi + 1;
        ti := ti + 1;
      } else if pi < |p| && p[pi] == '*' {
        starPi := Some(pi);
        starTi := ti;
        pi := pi + 1;
      } else if starPi.Some? {
        starTi := starTi + 1;
        ti := starTi;
        pi := starPi.value + 1;
      } else {
          return false;
      }
    }
    while pi < |p| && p[pi] == '*'
      invariant 0 <= pi <= |p|
      invariant AllStars(p[pi..]) == Scan(p, t, START)
    {
      AllStarsStep(p, pi);
      pi := pi + 1;
    }
    AllStarsStep(p, pi);
    return pi == |p|;
  }

  lemma AllStarsStep(p: string, i: nat)
    requires i <= |p|
    ensures AllStars(p[i..]) <==> i == |p| || (p[i] == '*' && AllStars(p[i + 1..]))
  {}

  // ---------------------------------------------------------------------------------------------
  // Laws of the documented meaning
  // ---------------------------------------------------------------------------------------------

  lemma {:induction false} MatchesConcat(p: string, q: string, t: string, u: string)
    requires Matches(p, t) && Matches(q, u)
    ensures Matches(p + q, t + u)
    decreases |p|
  {
    if p == [] {
      assert p + q == q && t + u == u;
    } else {
      assert (p + q)[1..] == p[1..] + q;
      if p[0] == '*' {
        var k :| 0 <= k <= |t| && Matches(p[1..], t[k..]);
        MatchesConcat(p[1..], q, t[k..], u);
        assert (t + u)[k..] == t[k..] + u;
      } else {
        MatchesConcat(p[1..], q, t[1..], u);
        assert (t + u)[1..] == t[1..] + u;
      }
    }
  }

  lemma MatchesAroundStar(p: string, q: string, t: string, any: string, u: string)
    requires Matches(p, t) && Matches(q, u)
    ensures Matches(p + "*" + q, t + any + u)
  {
    MatchesStar(any);
    MatchesConcat(p, "*", t, any);
    MatchesConcat(p + "*", q, t + any, u);
  }

  /** A star-free prefix of the pattern consumes exactly as many characters as it is long. */
  lemma {:induction false} StarFreePrefix(p: string, t: string, n: nat)
    requires n <= |p| && StarFree(p[..n]) && Matches(p, t)
    ensures n <= |t| && Matches(p[n..], t[n..])
    ensures forall i :: 0 <= i < n ==> MatchesChar(p[i], t[i])
    decreases n
  {
    if n == 0 {
      assert p[0..] == p && t[0..] == t;
    } else {
      assert p[0] in p[..n];
      assert p[..n][1..] == p[1..][..n - 1];
      StarFreePrefix(p[1..], t[1..], n - 1);
      assert p[1..][n - 1..] == p[n..] && t[1..][n - 1..] == t[n..];
      forall i | 0 <= i < n ensures MatchesChar(p[i], t[i]) {
        if i > 0 { assert p[i] == p[1..][i - 1] && t[i] == t[1..][i - 1]; }
      }
    }
  }

  lemma {:induction false} MatchesEmptyText(p: string)
    ensures Matches(p, "") <==> AllStars(p)
    decreases |p|
  {
    if p != [] {
      MatchesEmptyText(p[1..]);
      if p[0] == '*' {
        assert Matches(p, "") <==> Matches(p[1..], "") by {
          assert ""[0..] == "";
        }
        if AllStars(p[1..]) {
          forall i | 0 <= i < |p| ensures p[i] == '*' {
            if i > 0 { assert p[i] == p[1..][i - 1]; }
          }
        }
      }
    }
  }

  lemma MatchesStar(t: string)
    ensures Matches("*", t)
  {
    assert t[|t|..] == [] && "*"[1..] == [];
  }

  lemma MatchesOne(c: char, x: char)
    requires MatchesChar(c, x)
    ensures Matches([c], [x])
  {
    assert [c][1..] == [] && [x][1..] == [];
    assert Matches([c][1..], [x][1..]);
    if c == '*' { StarMatches([c], [x], 1); }
  }

  lemma StarMatches(p: string, t: string, k: nat)
    requires p != [] && p[0] == '*' && k <= |t| && Matches(p[1..], t[k..])
    ensures Matches(p, t)
  {}

  /** Equal length and character-wise agreement is always a match. */
  lemma {:induction false} MatchesPointwise(p: string, t: string)
    requires Agree(p, t)
    ensures Matches(p, t)
    decreases |p|
  {
    if p != [] {
      MatchesPointwise(p[1..], t[1..]);
      MatchesOne(p[0], t[0]);
      MatchesConcat([p[0]], p[1..], [t[0]], t[1..]);
      assert [p[0]] + p[1..] == p && [t[0]] + t[1..] == t;
    }
  }

  /** A pattern with no wildcard matches itself and nothing else. */
  lemma {:induction false} MatchesLiteral(p: string, t: string)
    requires '*' !in p && '?' !in p
    ensures Matches(p, t) <==> p == t
  {
    if Matches(p, t) {
      assert p[..|p|] == p;
      StarFreePrefix(p, t, |p|);
      assert t[|p|..] == [];
      assert forall i :: 0 <= i < |p| ==> p[i] in p;
      assert p == t;
    } else if p == t {
      MatchesPointwise(p, t);
    }
  }

  // ---------------------------------------------------------------------------------------------
  // Soundness: an answer of true is always a match
  // ---------------------------------------------------------------------------------------------

  /** What has been consumed so far matches, also when cut at the last star. */
  ghost predicate Consumed(p: string, t: string, at: Pos)
    requires Valid(p, t, at)
  {
    && Matches(p[..at.pi], t[..at.ti])
    && (at.star.Some? ==> Matches(p[..at.star.value + 1], t[..at.starTi]))
  }

  lemma ConsumeStar(p: string, t: string, pi: nat, ti: nat)
    requires pi < |p| && p[pi] == '*' && ti <= |t| && Matches(p[..pi], t[..ti])
    ensures Matches(p[..pi + 1], t[..ti])
  {
    MatchesStar("");
    MatchesConcat(p[..pi], "*", t[..ti], "");
    assert p[..pi] + "*" == p[..pi + 1] && t[..ti] + "" == t[..ti];
  }

  lemma ExtendStar(p: string, t: string, sp: nat, ti: nat)
    requires sp < |p| && p[sp] == '*' && ti < |t| && Matches(p[..sp + 1], t[..ti])
    ensures Matches(p[..sp + 1], t[..ti + 1])
  {
    var q := p[..sp];
    assert p[..sp + 1] == q + "*";
    var k := SplitAtStar(q, t[..ti]);
    assert t[..ti][..k] == t[..k];
    MatchesStar(t[k..ti + 1]);
    MatchesConcat(q, "*", t[..k], t[k..ti + 1]);
    assert t[..k] + t[k..ti + 1] == t[..ti + 1];
  }

  lemma {:induction false} SplitAtStar(q: string, t: string) returns (k: nat)
    requires Matches(q + "*", t)
    ensures k <= |t| && Matches(q, t[..k])
    decreases |q|
  {
    if q == [] {
      k := 0;
    } else {
      assert (q + "*")[1..] == q[1..] + "*";
      if q[0] == '*' {
        var j :| 0 <= j <= |t| && Matches(q[1..] + "*", t[j..]);
        var k' := SplitAtStar(q[1..], t[j..]);
        k := j + k';
        assert t[..k][j..] == t[j..][..k'];
      } else {
        var k' := SplitAtStar(q[1..], t[1..]);
        k := k' + 1;
        assert t[..k][1..] == t[1..][..k'];
      }
    }
  }

  lemma NextConsumes(p: string, t: string, at: Pos)
    requires Valid(p, t, at) && at.ti < |t| && Consumed(p, t, at) && Next(p, t, at).Some?
    ensures Consumed(p, t, Next(p, t, at).value)
  {
    if at.pi < |p| && MatchesChar(p[at.pi], t[at.ti]) {
      MatchesOne(p[at.pi], t[at.ti]);
      MatchesConcat(p[..at.pi], [p[at.pi]], t[..at.ti], [t[at.ti]]);
      assert p[..at.pi] + [p[at.pi]] == p[..at.pi + 1] && t[..at.ti] + [t[at.ti]] == t[..at.ti + 1];
    } else if at.pi < |p| && p[at.pi] == '*' {
      ConsumeStar(p, t, at.pi, at.ti);
    } else {
      ExtendStar(p, t, at.star.value, at.starTi);
    }
  }

  lemma {:induction false} ScanSound(p: string, t: string, at: Pos)
    requires Valid(p, t, at) && Consumed(p, t, at) && Scan(p, t, at)
    ensures Matches(p, t)
    decreases Unstarred(p, at), |t| - at.starTi, |t| - at.ti
  {
    if at.ti == |t| {
      MatchesEmptyText(p[at.pi..]);
      MatchesConcat(p[..at.pi], p[at.pi..], t[..at.ti], "");
      assert p[..at.pi] + p[at.pi..] == p && t[..at.ti] + "" == t;
    } else {
      NextConsumes(p, t, at);
      ScanSound(p, t, Next(p, t, at).value);
    }
  }

  /** For every pattern and every text: an answer of true is a match. */
  lemma GlobMatchesSound(p: string, t: string)
    ensures GlobMatches(p, t) ==> Matches(p, t)
  {
    if GlobMatches(p, t) {
      if p == "*" {
        MatchesStar(t);
      } else if '*' !in p && '?' !in p {
        MatchesLiteral(p, t);
      } else {
        ScanSound(p, t, START);
      }
    }
  }

  // ---------------------------------------------------------------------------------------------
  // Completeness on star-free text: the last star is enough
  // ---------------------------------------------------------------------------------------------

  /** A match of the whole of p that starts no earlier than `from`. */
  ghost predicate MatchesFrom(p: string, t: string, from: nat) {
    exists k :: from <= k <= |t| && Matches(p, t[k..])
  }

  ghost predicate Agree(p: string, t: string) {
    |p| == |t| && forall i :: 0 <= i < |p| ==> MatchesChar(p[i], t[i])
  }

  /** A match of a star-headed rest, read off the definition. */
  lemma StarHead(p: string, t: string, pi: nat, base: nat, from: nat)
    requires pi < |p| && p[pi] == '*' && from <= base <= |t| && Matches(p[pi..], t[base..])
    ensures MatchesFrom(p[pi + 1..], t, from)
  {}

  /** A match that starts at j has consumed the star-free segment p[sp..pi] one character each. */
  lemma SkipSegment(p: string, t: string, sp: nat, pi: nat, j: nat)
    requires sp <= pi <= |p| && j <= |t| && StarFree(p[sp..pi]) && Matches(p[sp..], t[j..])
    ensures j + (pi - sp) <= |t| && Matches(p[pi..], t[j + (pi - sp)..])
  {
    var n := pi - sp;
    assert p[sp..][..n] == p[sp..pi];
    StarFreePrefix(p[sp..], t[j..], n);
    assert p[sp..][n..] == p[pi..] && t[j..][n..] == t[j + n..];
  }

  /** Some match is still within reach: of the rest when no star is recorded, otherwise of what
    * follows the last star, with the star-free segment since then already agreeing. */
  ghost predicate Reachable(p: string, t: string, at: Pos)
    requires Valid(p, t, at)
  {
    if at.star.None? then Matches(p[at.pi..], t[at.ti..])
    else
      && StarFree(p[at.star.value + 1..at.pi])
      && Agree(p[at.star.value + 1..at.pi], t[at.starTi..at.ti])
      && MatchesFrom(p[at.star.value + 1..], t, at.starTi)
  }

  lemma LiteralKeepsReach(p: string, t: string, at: Pos)
    requires Valid(p, t, at) && Reachable(p, t, at)
    requires StarFree(t) && at.ti < |t| && at.pi < |p| && MatchesChar(p[at.pi], t[at.ti])
    ensures Reachable(p, t, at.(pi := at.pi + 1, ti := at.ti + 1))
  {
    assert t[at.ti] in t;
    if at.star.None? {
      assert p[at.pi..][1..] == p[at.pi + 1..] && t[at.ti..][1..] == t[at.ti + 1..];
    } else {
      assert p[at.star.value + 1..at.pi + 1] == p[at.star.value + 1..at.pi] + [p[at.pi]];
      assert t[at.starTi..at.ti + 1] == t[at.starTi..at.ti] + [t[at.ti]];
    }
  }

  /** Right after a star is recorded or extended the segment behind it is empty. */
  lemma FreshSegment(p: string, t: string, sp: nat, ti: nat)
    requires ti <= |t| && sp < |p| && p[sp] == '*' && MatchesFrom(p[sp + 1..], t, ti)
    ensures Reachable(p, t, Pos(sp + 1, ti, Some(sp), ti))
  {}

  lemma SegmentThenStar(p: string, t: string, sp: nat, pi: nat, starTi: nat, ti: nat)
    requires sp <= pi < |p| && p[pi] == '*' && pi - sp == ti - starTi
    requires StarFree(p[sp..pi]) && MatchesFrom(p[sp..], t, starTi)
    ensures MatchesFrom(p[pi + 1..], t, ti)
  {
    var j :| starTi <= j <= |t| && Matches(p[sp..], t[j..]);
    SkipSegment(p, t, sp, pi, j);
    StarHead(p, t, pi, j + (pi - sp), ti);
  }

  /** Meeting a second star: the earlier one never has to be revisited. */
  lemma LastStarIsEnough(p: string, t: string, at: Pos)
    requires Valid(p, t, at) && Reachable(p, t, at) && at.pi < |p| && p[at.pi] == '*'
    ensures Reachable(p, t, Pos(at.pi + 1, at.ti, Some(at.pi), at.ti))
  {
    if at.star.None? {
      StarHead(p, t, at.pi, at.ti, at.ti);
    } else {
      SegmentThenStar(p, t, at.star.value + 1, at.pi, at.starTi, at.ti);
    }
    FreshSegment(p, t, at.pi, at.ti);
  }

  ghost predicate Mismatch(p: string, t: string, pi: nat, ti: nat)
    requires pi <= |p| && ti < |t|
  {
    pi == |p| || (p[pi] != '*' && !MatchesChar(p[pi], t[ti]))
  }

  /** A mismatch rules out the current starting point of the last star. */
  lemma MismatchAdvances(p: string, t: string, at: Pos)
    requires Valid(p, t, at) && Reachable(p, t, at) && at.star.Some? && at.ti < |t| && Mismatch(p, t, at.pi, at.ti)
    ensures Reachable(p, t, Pos(at.star.value + 1, at.starTi + 1, at.star, at.starTi + 1))
  {
    var sp := at.star.value + 1;
    var k :| at.starTi <= k <= |t| && Matches(p[sp..], t[k..]);
    if k == at.starTi {
      SkipSegment(p, t, sp, at.pi, k);
    }
    FreshSegment(p, t, at.star.value, at.starTi + 1);
  }

  lemma MismatchWithoutStar(p: string, t: string, pi: nat, ti: nat)
    requires pi <= |p| && ti < |t| && Mismatch(p, t, pi, ti)
    ensures !Matches(p[pi..], t[ti..])
  {}

  /** No round of the loop loses the match, and none gives up while one is within reach. */
  lemma NextKeepsReach(p: string, t: string, at: Pos)
    requires StarFree(t) && Valid(p, t, at) && at.ti < |t| && Reachable(p, t, at)
    ensures Next(p, t, at).Some? && Reachable(p, t, Next(p, t, at).value)
  {
    if at.pi < |p| && MatchesChar(p[at.pi], t[at.ti]) {
      LiteralKeepsReach(p, t, at);
    } else if at.pi < |p| && p[at.pi] == '*' {
      LastStarIsEnough(p, t, at);
    } else if at.star.Some? {
      MismatchAdvances(p, t, at);
    } else {
      MismatchWithoutStar(p, t, at.pi, at.ti);
    }
  }

  lemma ReachableAtEnd(p: string, t: string, at: Pos)
    requires Valid(p, t, at) && Reachable(p, t, at) && at.ti == |t|
    ensures AllStars(p[at.pi..])
  {
    MatchesEmptyText(p[at.pi..]);
    if at.star.Some? {
      var sp := at.star.value + 1;
      var k :| at.starTi <= k <= |t| && Matches(p[sp..], t[k..]);
      SkipSegment(p, t, sp, at.pi, k);
      assert t[k + (at.pi - sp)..] == "";
    } else {
      assert t[at.ti..] == "";
    }
  }

  lemma {:induction false} ScanComplete(p: string, t: string, at: Pos)
    requires StarFree(t) && Valid(p, t, at) && Reachable(p, t, at)
    ensures Scan(p, t, at)
    decreases Unstarred(p, at), |t| - at.starTi, |t| - at.ti
  {
    if at.ti == |t| {
      ReachableAtEnd(p, t, at);
    } else {
      NextKeepsReach(p, t, at);
      ScanComplete(p, t, Next(p, t, at).value);
    }
  }

  /** For every pattern and every text without a `*`: every match is found. */
  lemma GlobMatchesComplete(p: string, t: string)
    requires StarFree(t)
    ensures Matches(p, t) ==> GlobMatches(p, t)
  {
    if Matches(p, t) {
      if p != "*" && ('*' in p || '?' in p) {
        assert p[0..] == p && t[0..] == t;
        ScanComplete(p, t, START);
      } else if p != "*" {
        MatchesLiteral(p, t);
      }
    }
  }

  lemma Meaning(p: string, t: string)
    ensures GlobMatches(p, t) ==> Matches(p, t)
    ensures StarFree(t) ==> (GlobMatches(p, t) <==> Matches(p, t))
  {
    GlobMatchesSound(p, t);
    if StarFree(t) { GlobMatchesComplete(p, t); }
  }

  // ---------------------------------------------------------------------------------------------
  // Exactly where the loop meets its documentation
  // ---------------------------------------------------------------------------------------------

  /** While pattern and text agree character by character, no star is ever recorded. */
  lemma {:induction false} LiteralRun(p: string, t: string, n: nat)
    requires n <= |p| && n <= |t| && forall i :: 0 <= i < n ==> MatchesChar(p[i], t[i])
    ensures Scan(p, t, START) == Scan(p, t, Pos(n, n, None, 0))
  {
    if n > 0 {
      LiteralRun(p, t, n - 1);
    }
  }

  /** A star-free rest that is longer than the text left cannot be matched. */
  lemma {:induction false} TooLong(p: string, t: string, pi: nat, ti: nat)
    requires pi <= |p| && ti <= |t| && StarFree(p[pi..]) && |p| - pi > |t| - ti
    ensures !Scan(p, t, Pos(pi, ti, None, 0))
    decreases |t| - ti
  {
    assert p[pi] == p[pi..][0];
    if ti < |t| && MatchesChar(p[pi], t[ti]) {
      assert p[pi..][1..] == p[pi + 1..];
      TooLong(p, t, pi + 1, ti + 1);
    }
  }

  /** The last `*` of a string that has one. */
  lemma {:induction false} LastStar(t: string) returns (k: nat)
    requires !StarFree(t)
    ensures k < |t| && t[k] == '*' && StarFree(t[k + 1..])
    decreases |t|
  {
    if t[|t| - 1] == '*' {
      k := |t| - 1;
    } else {
      var u := t[..|t| - 1];
      k := LastStar(u);
      assert t[k + 1..] == u[k + 1..] + [t[|t| - 1]];
    }
  }

  /** For a text whose last `*` is at k, this pattern matches it and the loop says no: every
    * character up to k is spelled `?`, then comes a `*`, which has to stand for nothing. */
  function MissedPattern(t: string, k: nat): string
    requires k < |t|
  {
    seq(k, _ => '?') + "*" + (['?'] + t[k + 1..])
  }

  lemma {:induction false} MissedPatternMatches(t: string, k: nat)
    requires k < |t| && t[k] == '*'
    ensures Matches(MissedPattern(t, k), t)
  {
    MatchesPointwise(seq(k, _ => '?'), t[..k]);
    MatchesPointwise(['?'] + t[k + 1..], t[k..]);
    MatchesAroundStar(seq(k, _ => '?'), ['?'] + t[k + 1..], t[..k], "", t[k..]);
    assert t[..k] + "" + t[k..] == t;
  }

  lemma MissedPatternFails(t: string, k: nat)
    requires k < |t| && t[k] == '*' && StarFree(t[k + 1..])
    ensures !GlobMatches(MissedPattern(t, k), t)
  {
    var p := MissedPattern(t, k);
    assert p[k] == '*' && |p| >= 2;
    LiteralRun(p, t, k + 1);
    assert p[k + 1..] == ['?'] + t[k + 1..];
    TooLong(p, t, k + 1, k + 1);
  }

  /** A text is matched correctly by every pattern exactly when it holds no `*`. */
  lemma ExactForText(t: string)
    ensures (forall p :: GlobMatches(p, t) <==> Matches(p, t)) <==> StarFree(t)
  {
    if StarFree(t) {
      forall p ensures GlobMatches(p, t) <==> Matches(p, t) {
        Meaning(p, t);
      }
    } else {
      var k := LastStar(t);
      MissedPatternMatches(t, k);
      MissedPatternFails(t, k);
    }
  }

  /** For a pattern whose last `*` is at k, this text matches it and the loop says no: the pattern
    * itself, then what follows that star once more (or any character when nothing follows). */
  function MissedText(p: string, k: nat): string
    requires k < |p|
  {
    p[..k] + ("*" + if k + 1 == |p| then "a" else p[k + 1..]) + p[k + 1..]
  }

  lemma SelfAroundStar(u: string, v: string, any: string)
    ensures Matches(u + "*" + v, u + any + v)
  {
    MatchesPointwise(u, u);
    MatchesPointwise(v, v);
    MatchesAroundStar(u, v, u, any, v);
  }

  lemma MissedTextMatches(p: string, k: nat)
    requires k < |p| && p[k] == '*'
    ensures Matches(p, MissedText(p, k))
  {
    var any := "*" + if k + 1 == |p| then "a" else p[k + 1..];
    SelfAroundStar(p[..k], p[k + 1..], any);
    AroundStar(p, k);
  }

  lemma AroundStar(p: string, k: nat)
    requires k < |p| && p[k] == '*'
    ensures p[..k] + "*" + p[k + 1..] == p
  {}

  lemma MissedTextFails(p: string, k: nat)
    requires k < |p| && p[k] == '*' && p != "*"
    ensures !GlobMatches(p, MissedText(p, k))
  {
    LiteralRun(p, MissedText(p, k), |p|);
  }

  /** A pattern is applied correctly to every text exactly when it holds no `*` or is the lone `*`. */
  lemma ExactForPattern(p: string)
    ensures (forall t :: GlobMatches(p, t) <==> Matches(p, t)) <==> (p == "*" || StarFree(p))
  {
    if p == "*" {
      forall t ensures GlobMatches(p, t) <==> Matches(p, t) {
        MatchesStar(t);
      }
    } else if StarFree(p) {
      forall t ensures GlobMatches(p, t) <==> Matches(p, t) {
        StarFreePattern(p, t);
      }
    } else {
      var k := LastStar(p);
      MissedTextMatches(p, k);
      MissedTextFails(p, k);
    }
  }

  lemma StarFreePattern(p: string, t: string)
    requires StarFree(p)
    ensures GlobMatches(p, t) <==> Matches(p, t)
  {
    GlobMatchesSound(p, t);
    if Matches(p, t) {
      if '?' !in p {
        MatchesLiteral(p, t);
      } else {
        assert p[..|p|] == p;
        StarFreePrefix(p, t, |p|);
        assert p[|p|..] == [] && t[|p|..] == [];
        LiteralRun(p, t, |p|);
      }
    }
  }
}
