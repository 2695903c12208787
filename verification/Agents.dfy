/** Agent names, and lists of them read from the back. */
module Agents {
  datatype AgentId = AgentId(name: string)

  function Front(s: seq<AgentId>): seq<AgentId>
    requires s != []
  {
    s[..|s| - 1]
  }

  function Last(s: seq<AgentId>): AgentId
    requires s != []
  {
    s[|s| - 1]
  }

  predicate NoDuplicates(s: seq<AgentId>)
    decreases |s|
  {
    s == [] || (Last(s) !in Front(s) && NoDuplicates(Front(s)))
  }

  lemma Split(s: seq<AgentId>)
    requires s != []
    ensures s == Front(s) + [Last(s)] && forall x :: x in s <==> x == Last(s) || x in Front(s)
  {}
}
