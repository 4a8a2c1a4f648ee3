/** Undirected multigraphs given by a list of links, and the argument that an
    elimination order rules out cycles. */
module Graph {

  type Node = string

  datatype Link = Link(src: Node, dst: Node)

  /** Some link joins u and v, in either direction; parallel links are merged. */
  ghost predicate Joined(links: seq<Link>, u: Node, v: Node) {
    Link(u, v) in links || Link(v, u) in links
  }

  ghost predicate Distinct(s: seq<Node>) {
    forall i, j | 0 <= i < j < |s| :: s[i] != s[j]
  }

  ghost predicate IsWalk(links: seq<Link>, w: seq<Node>) {
    |w| > 0 && forall i | 0 < i < |w| :: Joined(links, w[i - 1], w[i])
  }

  /** A self-loop, or a simple cycle through at least three nodes. */
  ghost predicate IsCycle(links: seq<Link>, c: seq<Node>) {
    && IsWalk(links, c)
    && Distinct(c)
    && (|c| == 1 || |c| >= 3)
    && Joined(links, c[|c| - 1], c[0])
  }

  ghost predicate HasCycle(links: seq<Link>) {
    exists c :: IsCycle(links, c)
  }

  /** The walk w leads from a root to the first node of the cycle c. */
  ghost predicate LeadsToCycle(links: seq<Link>, roots: set<Node>, w: seq<Node>, c: seq<Node>) {
    && IsWalk(links, w)
    && IsCycle(links, c)
    && w[0] in roots
    && w[|w| - 1] == c[0]
  }

  ghost predicate CycleReachable(links: seq<Link>, roots: set<Node>) {
    exists w, c :: LeadsToCycle(links, roots, w, c)
  }

  function Endpoints(links: seq<Link>): set<Node> {
    (set l | l in links :: l.src) + (set l | l in links :: l.dst)
  }

  // ----- elimination orders -----

  /** All neighbours of order[i] come earlier in the order, except possibly one
      other node. */
  ghost predicate Eliminated(links: seq<Link>, order: seq<Node>, i: nat)
    requires i < |order|
  {
    exists p :: p != order[i] && EliminatedBut(links, order, i, p)
  }

  ghost predicate EliminatedBut(links: seq<Link>, order: seq<Node>, i: nat, p: Node)
    requires i < |order|
  {
    forall nb | Joined(links, order[i], nb) :: nb == p || nb in order[..i]
  }

  ghost predicate IsElimination(links: seq<Link>, order: seq<Node>) {
    forall i | 0 <= i < |order| :: Eliminated(links, order, i)
  }

  /** The two neighbours of a node on a cycle: itself on a self-loop, else two
      different nodes. */
  lemma CycleNeighbours(links: seq<Link>, c: seq<Node>, k: nat) returns (next: Node, prev: Node)
    requires IsCycle(links, c) && k < |c|
    ensures next in c && prev in c && Joined(links, c[k], next) && Joined(links, c[k], prev)
    ensures next != prev || next == c[k]
  {
    next := if k + 1 < |c| then c[k + 1] else c[0];
    prev := if k > 0 then c[k - 1] else c[|c| - 1];
  }

  /** No node of a cycle can be among the first n of an elimination order: the
      first one would have two distinct neighbours that are not earlier. */
  lemma {:induction false} CycleAvoidsPrefix(links: seq<Link>, order: seq<Node>, c: seq<Node>, n: nat)
    requires IsElimination(links, order) && IsCycle(links, c)
    requires n <= |order|
    ensures forall x | x in c :: x !in order[..n]
  {
    if n > 0 {
      CycleAvoidsPrefix(links, order, c, n - 1);
      assert order[..n] == order[..n - 1] + [order[n - 1]];
      assert Eliminated(links, order, n - 1);
      if order[n - 1] in c {
        var k :| 0 <= k < |c| && c[k] == order[n - 1];
        var next, prev := CycleNeighbours(links, c, k);
        assert false;
      }
    }
  }

  lemma EliminationHasNoCycle(links: seq<Link>, order: seq<Node>, c: seq<Node>)
    requires IsElimination(links, order) && IsCycle(links, c)
    ensures c[0] !in order
  {
    CycleAvoidsPrefix(links, order, c, |order|);
    assert order[..|order|] == order;
  }

  /** A walk never leaves a set closed under Joined. */
  lemma {:induction false} WalkStaysInside(links: seq<Link>, closed: set<Node>, w: seq<Node>)
    requires forall u, v | u in closed && Joined(links, u, v) :: v in closed
    requires IsWalk(links, w) && w[0] in closed
    ensures w[|w| - 1] in closed
  {
    if |w| > 1 {
      var init := w[..|w| - 1];
      WalkStaysInside(links, closed, init);
      assert Joined(links, w[|w| - 2], w[|w| - 1]);
    }
  }
}
