/** Finite directed graphs over names, with reachability along walks.
    Message types linked by their message fields and files linked by their
    imports are both such graphs. */
module Graphs {
  type Graph = map<string, set<string>>

  function Succ(g: Graph, a: string): set<string> {
    if a in g then g[a] else {}
  }

  ghost predicate Walk(g: Graph, p: seq<string>) {
    && |p| > 0
    && forall i :: 0 <= i < |p| - 1 ==> p[i + 1] in Succ(g, p[i])
  }

  ghost predicate WalkFrom(g: Graph, p: seq<string>, a: string, b: string) {
    Walk(g, p) && p[0] == a && p[|p| - 1] == b
  }

  ghost predicate Reaches(g: Graph, a: string, b: string) {
    exists p :: WalkFrom(g, p, a, b)
  }

  /** No edge lies on a cycle. */
  ghost predicate Acyclic(g: Graph) {
    forall a, b :: b in Succ(g, a) ==> !Reaches(g, b, a)
  }

  ghost predicate Closed(g: Graph, s: set<string>) {
    forall a :: a in s ==> Succ(g, a) <= s
  }

  lemma ReachesSelf(g: Graph, a: string)
    ensures Reaches(g, a, a)
  {
    assert WalkFrom(g, [a], a, a);
  }

  lemma ReachesBefore(g: Graph, a: string, b: string, c: string)
    requires b in Succ(g, a) && Reaches(g, b, c)
    ensures Reaches(g, a, c)
  {
    var p :| WalkFrom(g, p, b, c);
    assert WalkFrom(g, [a] + p, a, c);
  }

  lemma ReachesAfter(g: Graph, a: string, b: string, c: string)
    requires Reaches(g, a, b) && c in Succ(g, b)
    ensures Reaches(g, a, c)
  {
    var p :| WalkFrom(g, p, a, b);
    assert WalkFrom(g, p + [c], a, c);
  }

  /** A closed set that holds the start of a walk holds the whole walk. */
  lemma {:induction false} ClosedHoldsWalk(g: Graph, s: set<string>, p: seq<string>, i: nat)
    requires Closed(g, s) && Walk(g, p) && p[0] in s && i < |p|
    ensures p[i] in s
  {
    if i > 0 {
      ClosedHoldsWalk(g, s, p, i - 1);
      assert p[i - 1 + 1] in Succ(g, p[i - 1]);
    }
  }

  lemma ClosedHoldsReach(g: Graph, s: set<string>, a: string)
    requires Closed(g, s) && a in s
    ensures forall b :: Reaches(g, a, b) ==> b in s
  {
    forall b | Reaches(g, a, b) ensures b in s {
      var p :| WalkFrom(g, p, a, b);
      ClosedHoldsWalk(g, s, p, |p| - 1);
    }
  }

  /** `larger` keeps every node of `g` with the same successors. */
  ghost predicate Extends(g: Graph, larger: Graph) {
    forall a :: a in g ==> a in larger && larger[a] == g[a]
  }

  /** Adding nodes to a graph that is closed on its own nodes changes no
      reachability from the old ones. */
  lemma ExtensionKeepsReach(g: Graph, larger: Graph, a: string)
    requires Extends(g, larger) && Closed(g, g.Keys) && a in g
    ensures forall b :: Reaches(g, a, b) <==> Reaches(larger, a, b)
  {
    forall p | p != [] && p[0] == a && (Walk(g, p) || Walk(larger, p))
      ensures Walk(g, p) && Walk(larger, p)
    {
      var h := if Walk(g, p) then g else larger;
      assert Closed(h, g.Keys);
      forall i | 0 <= i < |p| - 1 ensures p[i + 1] in Succ(g, p[i]) && p[i + 1] in Succ(larger, p[i]) {
        ClosedHoldsWalk(h, g.Keys, p, i);
      }
    }
    forall b ensures Reaches(g, a, b) <==> Reaches(larger, a, b) {
      if p :| WalkFrom(g, p, a, b) { assert WalkFrom(larger, p, a, b); }
      if p :| WalkFrom(larger, p, a, b) { assert WalkFrom(g, p, a, b); }
    }
  }
}
