/** The implication hierarchy of capabilities (crates/clawdesk-acp/src/capability.rs): every
  * capability has at most one parent, and parents form no cycle. Statements are about any such
  * forest; `CAPABILITIES` is the one the source defines.
  */
module Taxonomy {
  import opened Wrappers

  type Cap = nat

  /** parents[i] is the parent of capability i; ranks witness that there is no cycle. */
  datatype Registry = Registry(parents: seq<Option<Cap>>, ranks: seq<nat>) {
    ghost predicate Valid() {
      && |ranks| == |parents|
      && forall i :: 0 <= i < |parents| && parents[i].Some? ==> ParentOk(i)
    }

    ghost predicate ParentOk(i: Cap)
      requires |ranks| == |parents| && i < |parents| && parents[i].Some?
    {
      parents[i].value < |parents| && ranks[parents[i].value] < ranks[i]
    }

    function Size(): nat { |parents| }

    function Parent(c: Cap): Option<Cap> {
      if c < |parents| then parents[c] else None
    }

    /** Bounds the length of the parent chain from c. */
    ghost function Height(c: Cap): nat {
      if c < |ranks| then ranks[c] else 0
    }

    lemma ParentIsLower(c: Cap)
      requires Valid() && Parent(c).Some?
      ensures Parent(c).value < Size() && Height(Parent(c).value) < Height(c)
    {}
  }

  /** The capability and everything it implies. */
  ghost function Ancestors(reg: Registry, c: Cap): set<Cap>
    requires reg.Valid()
    decreases reg.Height(c)
  {
    match reg.Parent(c)
    case None => {c}
    case Some(p) => reg.ParentIsLower(c); {c} + Ancestors(reg, p)
  }

  /** What is implied from an optional starting point. */
  ghost function Chain(reg: Registry, c: Option<Cap>): set<Cap>
    requires reg.Valid()
  {
    match c
    case None => {}
    case Some(x) => Ancestors(reg, x)
  }

  lemma AncestorsUnfold(reg: Registry, c: Cap)
    requires reg.Valid()
    ensures Ancestors(reg, c) == {c} + Chain(reg, reg.Parent(c))
  {}

  lemma {:induction false} AncestorsTransitive(reg: Registry, c: Cap, a: Cap)
    requires reg.Valid() && a in Ancestors(reg, c)
    ensures Ancestors(reg, a) <= Ancestors(reg, c)
    decreases reg.Height(c)
  {
    if a != c {
      reg.ParentIsLower(c);
      AncestorsTransitive(reg, reg.Parent(c).value, a);
    }
  }

  /** An ancestor other than the capability itself has a strictly smaller rank. */
  lemma {:induction false} AncestorsAreLower(reg: Registry, c: Cap, a: Cap)
    requires reg.Valid() && a in Ancestors(reg, c)
    ensures a == c || (a < reg.Size() && reg.Height(a) < reg.Height(c))
    decreases reg.Height(c)
  {
    if a != c {
      reg.ParentIsLower(c);
      AncestorsAreLower(reg, reg.Parent(c).value, a);
    }
  }

  // ---------------------------------------------------------------------------------------------
  // Closure
  // ---------------------------------------------------------------------------------------------

  ghost predicate Closed(reg: Registry, s: set<Cap>) {
    forall c :: c in s && reg.Parent(c).Some? ==> reg.Parent(c).value in s
  }

  ghost predicate Implied(reg: Registry, s: set<Cap>, a: Cap)
    requires reg.Valid()
  {
    exists c :: c in s && a in Ancestors(reg, c)
  }

  /** Everything the members imply. */
  ghost function Closure(reg: Registry, s: set<Cap>): (r: set<Cap>)
    requires reg.Valid()
    ensures forall a :: a in r <==> Implied(reg, s, a)
  {
    AncestorsBounded(reg, s);
    s + set a: Cap | a < reg.Size() && Implied(reg, s, a)
  }

  lemma AncestorsBounded(reg: Registry, s: set<Cap>)
    requires reg.Valid()
    ensures forall a: Cap :: Implied(reg, s, a) ==> a in s || a < reg.Size()
    ensures forall a: Cap :: a in s ==> Implied(reg, s, a)
  {
    forall a: Cap | Implied(reg, s, a) ensures a in s || a < reg.Size() {
      var c :| c in s && a in Ancestors(reg, c);
      AncestorsAreLower(reg, c, a);
    }
    forall a | a in s ensures Implied(reg, s, a) {
      SelfAndParent(reg, a);
    }
  }

  lemma {:induction false} ClosedHasAncestors(reg: Registry, s: set<Cap>, c: Cap)
    requires reg.Valid() && Closed(reg, s) && c in s
    ensures Ancestors(reg, c) <= s
    decreases reg.Height(c)
  {
    if reg.Parent(c).Some? {
      reg.ParentIsLower(c);
      ClosedHasAncestors(reg, s, reg.Parent(c).value);
    }
  }

  lemma SelfAndParent(reg: Registry, c: Cap)
    requires reg.Valid()
    ensures c in Ancestors(reg, c)
    ensures reg.Parent(c).Some? ==> reg.Parent(c).value in Ancestors(reg, c)
  {}

  lemma ClosureExtends(reg: Registry, s: set<Cap>)
    requires reg.Valid()
    ensures s <= Closure(reg, s)
  {}

  lemma ImpliedParent(reg: Registry, s: set<Cap>, a: Cap)
    requires reg.Valid() && Implied(reg, s, a) && reg.Parent(a).Some?
    ensures Implied(reg, s, reg.Parent(a).value)
  {
    var c :| c in s && a in Ancestors(reg, c);
    AncestorsTransitive(reg, c, a);
    SelfAndParent(reg, a);
  }

  lemma ClosureClosed(reg: Registry, s: set<Cap>)
    requires reg.Valid()
    ensures Closed(reg, Closure(reg, s))
  {
    forall a | a in Closure(reg, s) && reg.Parent(a).Some? ensures reg.Parent(a).value in Closure(reg, s) {
      ImpliedParent(reg, s, a);
    }
  }

  /** Every closed superset contains the closure. */
  lemma ClosureIsLeast(reg: Registry, s: set<Cap>, t: set<Cap>)
    requires reg.Valid() && s <= t && Closed(reg, t)
    ensures Closure(reg, s) <= t
  {
    forall a | Implied(reg, s, a) ensures a in t {
      var c :| c in s && a in Ancestors(reg, c);
      ClosedHasAncestors(reg, t, c);
    }
  }

  lemma ClosureMonotone(reg: Registry, s: set<Cap>, t: set<Cap>)
    requires reg.Valid() && s <= t
    ensures Closure(reg, s) <= Closure(reg, t)
  {
    ClosureExtends(reg, t);
    ClosureClosed(reg, t);
    ClosureIsLeast(reg, s, Closure(reg, t));
  }

  lemma ClosureOfClosed(reg: Registry, s: set<Cap>)
    requires reg.Valid() && Closed(reg, s)
    ensures Closure(reg, s) == s
  {
    ClosureExtends(reg, s);
    ClosureIsLeast(reg, s, s);
    SameSet(Closure(reg, s), s);
  }

  /** Extensive, closed, monotone and idempotent. */
  lemma ClosureLaws(reg: Registry, s: set<Cap>, t: set<Cap>)
    requires reg.Valid()
    ensures s <= Closure(reg, s) && Closed(reg, Closure(reg, s))
    ensures s <= t ==> Closure(reg, s) <= Closure(reg, t)
    ensures Closure(reg, Closure(reg, s)) == Closure(reg, s)
  {
    ClosureExtends(reg, s);
    ClosureClosed(reg, s);
    ClosureOfClosed(reg, Closure(reg, s));
    if s <= t { ClosureMonotone(reg, s, t); }
  }

  /** Closing distributes over union. */
  lemma ClosureUnion(reg: Registry, s: set<Cap>, t: set<Cap>)
    requires reg.Valid()
    ensures Closure(reg, s + t) == Closure(reg, s) + Closure(reg, t)
  {}

  lemma SameSet<T>(x: set<T>, y: set<T>)
    requires x <= y && y <= x
    ensures x == y
  {}

  // ---------------------------------------------------------------------------------------------
  // The source's hierarchy
  // ---------------------------------------------------------------------------------------------

  const MEDIA: Cap := 9
  const AUDIO: Cap := 11

  /** Text generation is 0, media processing 9, audio processing 11; parents always come first. */
  const CAPABILITIES: Registry := Registry(
    [None, None, None, None, None, None, None, None, None, None,
     Some(9), Some(9), Some(9), Some(9), Some(11), Some(11), Some(0), Some(0), Some(0), None, None, None],
    [0, 1, 2, 3, 4, 5, 6, 7, 8, 9, 10, 11, 12, 13, 14, 15, 16, 17, 18, 19, 20, 21])

  lemma CapabilitiesValid()
    ensures CAPABILITIES.Valid() && CAPABILITIES.Size() == 22
    ensures CAPABILITIES.Parent(AUDIO) == Some(MEDIA) && CAPABILITIES.Parent(MEDIA) == None
  {}

  /** Image, audio, video and document processing (10 to 13) imply media processing; voice understanding and
    * speech (14, 15) imply audio and media; code generation, summaries and translation (16 to 18) imply text;
    * every other capability implies itself alone. */
  lemma WhatIsImplied(c: Cap)
    ensures CAPABILITIES.Valid()
    ensures Ancestors(CAPABILITIES, c) ==
      if 10 <= c <= 13 then {c, 9} else if 14 <= c <= 15 then {c, 11, 9} else if 16 <= c <= 18 then {c, 0} else {c}
  {
    forall x: Cap ensures CAPABILITIES.Parent(x) == Above(x) {
      ParentIs(x);
    }
    ImpliedBy(CAPABILITIES, c);
  }

  function Above(c: Cap): Option<Cap> {
    if 10 <= c <= 13 then Some(9) else if 14 <= c <= 15 then Some(11) else if 16 <= c <= 18 then Some(0) else None
  }

  lemma ImpliedBy(reg: Registry, c: Cap)
    requires reg.Valid() && forall x: Cap :: reg.Parent(x) == Above(x)
    ensures Ancestors(reg, c) ==
      if 10 <= c <= 13 then {c, 9} else if 14 <= c <= 15 then {c, 11, 9} else if 16 <= c <= 18 then {c, 0} else {c}
  {
    match reg.Parent(c)
    case None => RootAlone(reg, c);
    case Some(p) => if p == 11 { TwoAbove(reg, c, 11, 9); } else { OneAbove(reg, c, p); }
  }

  lemma RootAlone(reg: Registry, c: Cap)
    requires reg.Valid() && reg.Parent(c) == None
    ensures Ancestors(reg, c) == {c}
  {}

  lemma OneAbove(reg: Registry, c: Cap, p: Cap)
    requires reg.Valid() && reg.Parent(c) == Some(p) && reg.Parent(p) == None
    ensures Ancestors(reg, c) == {c, p}
  {
    RootAlone(reg, p);
  }

  lemma TwoAbove(reg: Registry, c: Cap, p: Cap, q: Cap)
    requires reg.Valid() && reg.Parent(c) == Some(p) && reg.Parent(p) == Some(q) && reg.Parent(q) == None
    ensures Ancestors(reg, c) == {c, p, q}
  {
    OneAbove(reg, p, q);
  }

  lemma ParentIs(c: Cap)
    ensures CAPABILITIES.Parent(c) == Above(c)
  {}
}
