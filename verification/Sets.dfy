/** Finite sets. */
module Sets {
  /** The members of a list of numbers. */
  ghost function SetOf(s: seq<nat>): set<nat> {
    set x | x in s
  }

  lemma {:induction false} SubsetSize<T>(a: set<T>, b: set<T>)
    requires a <= b
    ensures |a| <= |b|
    decreases a
  {
    if a != {} {
      var x :| x in a;
      SubsetSize(a - {x}, b - {x});
    }
  }
}
