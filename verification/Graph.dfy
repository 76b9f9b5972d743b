/** Reachability in a finite directed graph whose nodes are object addresses. */
module Graph {
  type Addr = nat

  type Edges = map<Addr, set<Addr>>

  ghost predicate Closed(e: Edges, s: set<Addr>)
  {
    forall a | a in s && a in e :: e[a] <= s
  }

  /** s is the least set that holds the roots and every successor of its members. */
  ghost predicate ReachSet(e: Edges, roots: set<Addr>, s: set<Addr>)
  {
    && roots <= s
    && Closed(e, s)
    && forall t: set<Addr> | roots <= t && Closed(e, t) :: s <= t
  }

  ghost predicate IsPath(e: Edges, p: seq<Addr>)
  {
    p != [] && forall i | 0 <= i < |p| - 1 :: p[i] in e && p[i + 1] in e[p[i]]
  }

  ghost predicate HasPath(e: Edges, roots: set<Addr>, x: Addr)
  {
    exists p :: IsPath(e, p) && p[0] in roots && p[|p| - 1] == x
  }

  lemma {:induction false} PathStaysIn(e: Edges, s: set<Addr>, p: seq<Addr>)
    requires Closed(e, s) && IsPath(e, p) && p[0] in s
    ensures p[|p| - 1] in s
    decreases |p|
  {
    if |p| > 1 {
      assert p[1] in e[p[0]];
      assert IsPath(e, p[1..]) by {
        forall i | 0 <= i < |p[1..]| - 1 ensures p[1..][i] in e && p[1..][i + 1] in e[p[1..][i]] {
          assert p[i + 1] in e && p[i + 2] in e[p[i + 1]];
        }
      }
      PathStaysIn(e, s, p[1..]);
    }
  }

  /** The least closed set is exactly the set of nodes at the end of some path from a root. */
  lemma ReachSetIsPaths(e: Edges, roots: set<Addr>, s: set<Addr>)
    requires ReachSet(e, roots, s)
    ensures forall x :: x in s <==> HasPath(e, roots, x)
  {
    var t := set x | x in s && HasPath(e, roots, x);
    forall x | x in roots ensures x in t {
      assert IsPath(e, [x]) && [x][|[x]| - 1] == x;
    }
    forall a, b | a in t && a in e && b in e[a] ensures b in t {
      var p :| IsPath(e, p) && p[0] in roots && p[|p| - 1] == a;
      var q := p + [b];
      assert IsPath(e, q) && q[0] in roots && q[|q| - 1] == b;
    }
    assert roots <= t && Closed(e, t);
    forall x | HasPath(e, roots, x) ensures x in s {
      var p :| IsPath(e, p) && p[0] in roots && p[|p| - 1] == x;
      PathStaysIn(e, s, p);
    }
  }
}
