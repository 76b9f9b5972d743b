/** Work lists and the sets of their elements. */
module Sequences {
  function Elements(s: seq<nat>): set<nat>
  {
    set x | x in s
  }

  ghost predicate Distinct(s: seq<nat>)
  {
    forall i, j | 0 <= i < j < |s| :: s[i] != s[j]
  }

  lemma NoElements()
    ensures Elements([]) == {}
  {
  }

  lemma ElementsPlus(s: seq<nat>, x: nat)
    ensures Elements(s + [x]) == Elements(s) + {x}
  {
  }

  lemma ElementsTail(s: seq<nat>, i: nat)
    requires i < |s|
    ensures Elements(s[i..]) == Elements(s[i + 1..]) + {s[i]}
  {
    assert s[i..] == [s[i]] + s[i + 1..];
  }

  /** A work list that is walked once more makes progress by what was found on the way. */
  lemma LessIsLeft(all: set<nat>, before: set<nat>, after: set<nat>)
    requires before <= after <= all
    ensures before == after || all - after < all - before
  {
    if before != after {
      var x :| x in after && x !in before;
      assert x in all - before && x !in all - after;
    }
  }
}
