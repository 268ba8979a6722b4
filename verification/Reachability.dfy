/**
 Reachability over a finite adjacency map. Every walk of the server (commit
 discovery, tree collection, push validation, graph rebuild) is stated against
 this one definition: a node is reachable when a path of edges leads to it.
 */
module Reachability {

  /** Object ids, ordered as the byte strings they stand for are. */
  type Oid = nat

  type Edges = map<Oid, seq<Oid>>

  function Elements(s: seq<Oid>): set<Oid> {
    set x | x in s
  }

  ghost predicate IsPath(e: Edges, p: seq<Oid>) {
    && |p| > 0
    && forall i :: 0 <= i < |p| - 1 ==> p[i] in e && p[i + 1] in e[p[i]]
  }

  ghost predicate Reachable(e: Edges, roots: set<Oid>, x: Oid) {
    exists p :: IsPath(e, p) && p[0] in roots && p[|p| - 1] == x
  }

  lemma ReachRoot(e: Edges, roots: set<Oid>, x: Oid)
    requires x in roots
    ensures Reachable(e, roots, x)
  {
    assert IsPath(e, [x]);
  }

  lemma ReachStep(e: Edges, roots: set<Oid>, x: Oid, y: Oid)
    requires Reachable(e, roots, x) && x in e && y in e[x]
    ensures Reachable(e, roots, y)
  {
    var p :| IsPath(e, p) && p[0] in roots && p[|p| - 1] == x;
    assert IsPath(e, p + [y]);
  }

  /** A set that holds the roots and is closed under the edges holds everything reachable. */
  lemma ReachClosed(e: Edges, roots: set<Oid>, s: iset<Oid>)
    requires forall x :: x in roots ==> x in s
    requires forall x, y :: x in s && x in e && y in e[x] ==> y in s
    ensures forall x :: Reachable(e, roots, x) ==> x in s
  {
    forall x | Reachable(e, roots, x)
      ensures x in s
    {
      var p :| IsPath(e, p) && p[0] in roots && p[|p| - 1] == x;
      for i := 0 to |p| - 1
        invariant p[i] in s
      {
      }
    }
  }

  /** What is reachable from reachable nodes is reachable. */
  lemma ReachTrans(e: Edges, f: Edges, roots: set<Oid>, mid: set<Oid>)
    requires forall x :: x in mid ==> Reachable(f, roots, x)
    requires forall x, y :: x in e && y in e[x] ==> x in f && y in f[x]
    ensures forall x :: Reachable(e, mid, x) ==> Reachable(f, roots, x)
  {
    forall x, y | Reachable(f, roots, x) && x in e && y in e[x]
      ensures Reachable(f, roots, y)
    {
      ReachStep(f, roots, x, y);
    }
    ReachClosed(e, mid, iset x | Reachable(f, roots, x));
  }

  /** Nothing is reachable from no roots. */
  lemma ReachNothing(e: Edges, x: Oid)
    ensures !Reachable(e, {}, x)
  {
  }
}
