/** Counting recorded instants inside a moving time window (used by the rate limiter of
  * crates/clawdesk-acp/src/policy.rs). Instants are integers in nanoseconds. */
module Windows {
  import opened Sets

  ghost predicate Sorted(h: seq<int>) {
    forall i, j :: 0 <= i <= j < |h| ==> h[i] <= h[j]
  }

  /** The positions of h whose instant lies in (hi - width, hi]. */
  ghost function Inside(h: seq<int>, hi: int, width: nat): set<int> {
    set i | 0 <= i < |h| && hi - width < h[i] <= hi
  }

  ghost function CountIn(h: seq<int>, hi: int, width: nat): nat {
    |Inside(h, hi, width)|
  }

  /** An instant counts from when it is recorded until it is a whole window old. */
  lemma CountsWhileYoung(at: int, hi: int, width: nat)
    ensures CountIn([at], hi, width) == if 0 <= hi - at < width then 1 else 0
  {
    assert Inside([at], hi, width) == if 0 <= hi - at < width then {0} else {};
  }

  /** Any quota + 1 entries in a row reach across at least a whole window. */
  ghost predicate Spaced(h: seq<int>, quota: nat, width: nat) {
    forall i :: 0 <= i < |h| - quota ==> h[i] + width <= h[i + quota]
  }

  ghost function Interval(a: int, b: int): (s: set<int>)
    ensures forall i :: i in s <==> a <= i < b
    ensures |s| == if a <= b then b - a else 0
    decreases b - a
  {
    if a < b then Interval(a, b - 1) + {b - 1} else {}
  }

  lemma {:induction false} Least(s: set<int>, x: int) returns (m: int)
    requires x in s
    ensures m in s && forall x :: x in s ==> m <= x
    decreases s
  {
    var rest := s - {x};
    if y :| y in rest {
      m := Least(rest, y);
      m := if m < x then m else x;
      assert forall z :: z in s ==> z == x || z in rest;
    } else {
      m := x;
      assert forall z :: z in s && z != x ==> z in rest;
    }
  }

  /** The entries from position d on, and only those, lie in the window. */
  lemma CountSuffix(h: seq<int>, d: nat, hi: int, width: nat)
    requires d <= |h|
    requires forall i :: 0 <= i < d ==> h[i] <= hi - width
    requires forall i :: d <= i < |h| ==> hi - width < h[i] <= hi
    ensures CountIn(h, hi, width) == |h| - d
  {
    assert Inside(h, hi, width) == Interval(d, |h|);
  }

  /** A spaced log never has more than quota entries in one window. Instants are integers, so the
    * windows (hi - width, hi] are all half-open windows of that width, closed at either end. */
  lemma WindowBound(h: seq<int>, quota: nat, width: nat, hi: int)
    requires Sorted(h) && Spaced(h, quota, width)
    ensures CountIn(h, hi, width) <= quota
  {
    var s := Inside(h, hi, width);
    if x :| x in s {
      var m := Least(s, x);
      forall j | j in s ensures j in Interval(m, m + quota) {
        assert m <= j;
        assert j < m + quota by {
          if j >= m + quota {
            SpacedApart(h, quota, width, m, j);
          }
        }
      }
      SubsetSize(s, Interval(m, m + quota));
    }
  }

  lemma SpacedApart(h: seq<int>, quota: nat, width: nat, i: nat, j: nat)
    requires Sorted(h) && Spaced(h, quota, width) && i + quota <= j < |h|
    ensures h[i] + width <= h[j]
  {
    assert h[i + quota] <= h[j];
  }

  ghost predicate NeverOverfull(h: seq<int>, quota: nat, width: nat) {
    forall hi :: CountIn(h, hi, width) <= quota
  }

  /** For a sorted log, being spaced is the same as no window being overfull. */
  lemma SpacedIsNeverOverfull(h: seq<int>, quota: nat, width: nat)
    requires Sorted(h)
    ensures Spaced(h, quota, width) <==> NeverOverfull(h, quota, width)
  {
    if Spaced(h, quota, width) {
      forall hi ensures CountIn(h, hi, width) <= quota {
        WindowBound(h, quota, width, hi);
      }
    }
    if NeverOverfull(h, quota, width) {
      forall i | 0 <= i < |h| - quota ensures h[i] + width <= h[i + quota] {
        var hi := h[i] - 1 + width;
        assert CountIn(h, hi, width) <= quota;
        if h[i + quota] < h[i] + width {
          SubsetSize(Interval(i, i + quota + 1), Inside(h, hi, width));
        }
      }
    }
  }

  /** A grant made while the window ending at checkedAt was below quota keeps the log spaced, even
    * when it is stamped later than the check. */
  lemma GrantKeepsSpacing(h: seq<int>, quota: nat, width: nat, checkedAt: int, grantedAt: int)
    requires Sorted(h) && Spaced(h, quota, width) && checkedAt <= grantedAt
    requires forall i :: 0 <= i < |h| ==> h[i] <= checkedAt
    requires CountIn(h, checkedAt, width) < quota
    ensures Sorted(h + [grantedAt]) && Spaced(h + [grantedAt], quota, width)
  {
    var g := h + [grantedAt];
    forall i | 0 <= i < |g| - quota ensures g[i] + width <= g[i + quota] {
      if i + quota == |h| && checkedAt < h[i] + width {
        SubsetSize(Interval(i, |h|), Inside(h, checkedAt, width));
      }
    }
  }
}
