/** The in-memory loop detector of server/sandbox.py: a recursive depth-first
    search over an adjacency table built from the proposed topology. */
module LoopDetector {
  import opened Graph

  datatype TopologyNode = TopologyNode(id: Node, name: string)

  datatype Topology = Topology(nodes: seq<TopologyNode>, links: seq<Link>)

  function NodeIds(t: Topology): set<Node> {
    set n | n in t.nodes :: n.id
  }

  /** What the detector is for: a cycle that some listed node leads to. */
  ghost predicate LoopFound(t: Topology) {
    CycleReachable(t.links, NodeIds(t))
  }

  type Adjacency = map<Node, seq<Node>>

  /** adj.setdefault(u, []).append(v) */
  function Appended(adj: Adjacency, u: Node, v: Node): Adjacency {
    adj[u := (if u in adj then adj[u] else []) + [v]]
  }

  /** One turn of the loop over the links; a self-loop is entered once. */
  function WithLink(adj: Adjacency, l: Link): Adjacency {
    var once := Appended(adj, l.src, l.dst);
    if l.src != l.dst then Appended(once, l.dst, l.src) else once
  }

  ghost predicate Represents(adj: Adjacency, links: seq<Link>) {
    && (forall u, v | Joined(links, u, v) :: u in adj)
    && (forall u, v | u in adj :: v in adj[u] <==> Joined(links, u, v))
  }

  lemma WithLinkRepresents(adj: Adjacency, links: seq<Link>, l: Link)
    requires Represents(adj, links)
    ensures Represents(WithLink(adj, l), links + [l])
    ensures WithLink(adj, l).Keys == adj.Keys + {l.src, l.dst}
  {
    var after := WithLink(adj, l);
    forall u, v | Joined(links + [l], u, v) ensures u in after {
      assert Joined(links, u, v) || l == Link(u, v) || l == Link(v, u);
    }
    forall u, v | u in after ensures v in after[u] <==> Joined(links + [l], u, v) {
      assert Joined(links + [l], u, v) <==> Joined(links, u, v) || l == Link(u, v) || l == Link(v, u);
      if u !in adj {
        assert !Joined(links, u, v);
      }
    }
  }

  lemma EndpointsOfExtended(links: seq<Link>, l: Link)
    ensures Endpoints(links + [l]) == Endpoints(links) + {l.src, l.dst}
  {
    assert forall m :: m in links + [l] <==> m in links || m == l;
  }

  method BuildAdjacency(t: Topology) returns (adj: Adjacency)
    ensures adj.Keys == NodeIds(t) + Endpoints(t.links)
    ensures Represents(adj, t.links)
  {
    adj := map n | n in NodeIds(t) :: [];
    for k := 0 to |t.links|
      invariant adj.Keys == NodeIds(t) + Endpoints(t.links[..k])
      invariant Represents(adj, t.links[..k])
    {
      var Link(s, d) := t.links[k];
      assert t.links[..k + 1] == t.links[..k] + [t.links[k]];
      WithLinkRepresents(adj, t.links[..k], t.links[k]);
      EndpointsOfExtended(t.links[..k], t.links[k]);
      adj := Appended(adj, s, d);
      if s != d {
        adj := Appended(adj, d, s);
      }
    }
    assert t.links[..|t.links|] == t.links;
  }

  // ----- the invariant of the search -----

  /** The nodes on the recursion stack, outermost first, and the nodes whose call
      has returned False, in that order. */
  datatype Trail = Trail(path: seq<Node>, finished: seq<Node>) {
    ghost predicate PathOk(links: seq<Link>, roots: set<Node>) {
      && Distinct(path)
      && (path != [] ==> IsWalk(links, path) && path[0] in roots)
      && (forall n | n in path :: n !in finished)
    }

    predicate Seen(n: Node) {
      n in path || n in finished
    }

    ghost predicate FinishedOk(links: seq<Link>) {
      && IsElimination(links, finished)
      && (forall u, v | u in finished && Joined(links, u, v) :: Seen(v))
    }

    ghost predicate Ok(links: seq<Link>, roots: set<Node>) {
      PathOk(links, roots) && FinishedOk(links)
    }

    /** The caller's node, or the sentinel of the outermost call. */
    function Parent(): Node {
      if path == [] then "" else path[|path| - 1]
    }

    function Enter(v: Node): Trail {
      Trail(path + [v], finished)
    }

    function Leave(): Trail
      requires path != []
    {
      Trail(path[..|path| - 1], finished + [path[|path| - 1]])
    }

    lemma EnterOk(links: seq<Link>, roots: set<Node>, v: Node)
      requires Ok(links, roots) && !Seen(v)
      requires if path == [] then v in roots else Joined(links, Parent(), v)
      ensures Enter(v).Ok(links, roots)
    {
    }

    /** When every neighbour of the innermost node is its caller or finished, the
        node can be put at the end of the elimination order. */
    lemma LeaveOk(links: seq<Link>, roots: set<Node>, parent: Node)
      requires Ok(links, roots) && path != []
      requires parent != path[|path| - 1] && (|path| >= 2 ==> parent == path[|path| - 2])
      requires |path| == 1 ==> !Joined(links, path[0], parent)
      requires forall nb | Joined(links, path[|path| - 1], nb) :: nb == parent || nb in finished
      ensures Leave().Ok(links, roots)
    {
      var v, order := path[|path| - 1], Leave().finished;
      assert path == Leave().path + [v];
      assert Leave().PathOk(links, roots);
      forall i | 0 <= i < |order| ensures Eliminated(links, order, i) {
        if i < |finished| {
          assert Eliminated(links, finished, i);
          var p :| p != finished[i] && EliminatedBut(links, finished, i, p);
          assert order[..i] == finished[..i];
          assert EliminatedBut(links, order, i, p);
        } else {
          assert order[..i] == finished;
          assert EliminatedBut(links, order, i, parent);
        }
      }
    }

    /** A link from the innermost node back to a node on the stack other than its
        caller closes a cycle. */
    lemma ClosesCycle(links: seq<Link>, roots: set<Node>, nb: Node)
      requires PathOk(links, roots) && nb in path
      requires Joined(links, path[|path| - 1], nb)
      requires |path| >= 2 ==> nb != path[|path| - 2]
      ensures CycleReachable(links, roots)
    {
      var k :| 0 <= k < |path| && path[k] == nb;
      var w, c := path[..k + 1], path[k..];
      assert LeadsToCycle(links, roots, w, c);
    }

    /** After an unsuccessful search from every root no cycle is reachable. */
    lemma Exhausted(links: seq<Link>, roots: set<Node>)
      requires FinishedOk(links) && path == []
      requires forall n | n in roots :: n in finished
      ensures !CycleReachable(links, roots)
    {
      forall w, c ensures !LeadsToCycle(links, roots, w, c) {
        if LeadsToCycle(links, roots, w, c) {
          WalkStaysInside(links, (set n | n in finished), w);
          EliminationHasNoCycle(links, finished, c);
        }
      }
    }
  }

  /** The variables shared by the nested calls of the search. */
  class Search {
    const adj: Adjacency
    var visited: set<Node>
    var recStack: set<Node>
    ghost const links: seq<Link>
    ghost const roots: set<Node>
    ghost var trail: Trail

    constructor (adj: Adjacency, ghost links: seq<Link>, ghost roots: set<Node>)
      requires Represents(adj, links) && "" !in adj && roots <= adj.Keys
      ensures Valid() && trail == Trail([], []) && visited == {}
      ensures this.adj == adj && this.links == links && this.roots == roots
    {
      this.adj := adj;
      this.links := links;
      this.roots := roots;
      visited, recStack := {}, {};
      trail := Trail([], []);
    }

    ghost predicate Valid()
      reads this
    {
      && Represents(adj, links) && "" !in adj && roots <= adj.Keys
      && visited <= adj.Keys
      && (forall n :: n in recStack <==> n in trail.path)
      && (forall n :: n in visited <==> trail.Seen(n))
      && trail.Ok(links, roots)
    }

    /** v goes on the stack. */
    method Enter(v: Node)
      requires Valid() && v in adj && v !in visited
      requires if trail.path == [] then v in roots else Joined(links, trail.Parent(), v)
      modifies this
      ensures Valid() && trail == old(trail).Enter(v) && visited == old(visited) + {v}
    {
      trail.EnterOk(links, roots, v);
      trail := trail.Enter(v);
      visited := visited + {v};
      recStack := recStack + {v};
    }

    /** v leaves it, once every neighbour but its caller is finished. */
    method Leave(v: Node, parent: Node)
      requires Valid() && v in adj && trail.path != [] && v == trail.path[|trail.path| - 1]
      requires parent == if |trail.path| == 1 then "" else trail.path[|trail.path| - 2]
      requires forall m | 0 <= m < |adj[v]| :: adj[v][m] == parent || adj[v][m] in trail.finished
      modifies this
      ensures Valid() && trail == old(trail).Leave() && visited == old(visited)
    {
      forall nb | Joined(links, v, nb) ensures nb == parent || nb in trail.finished {
        assert nb in adj[v];
      }
      assert !Joined(links, "", v);
      trail.LeaveOk(links, roots, parent);
      trail := trail.Leave();
      recStack := recStack - {v};
    }

    method Dfs(v: Node, parent: Node) returns (found: bool)
      requires Valid() && v in adj && v !in visited && parent == trail.Parent()
      requires if trail.path == [] then v in roots else Joined(links, parent, v)
      modifies this
      ensures found ==> CycleReachable(links, roots)
      ensures !found ==> Valid() && trail.path == old(trail.path)
      ensures !found ==> v in trail.finished && old(trail.finished) <= trail.finished
      ensures !found ==> old(visited) <= visited
      decreases adj.Keys - visited
    {
      Enter(v);
      ghost var here := trail.path;
      for k := 0 to |adj[v]|
        invariant Valid() && trail.path == here && old(trail.finished) <= trail.finished
        invariant old(visited) + {v} <= visited
        invariant forall m | 0 <= m < k :: adj[v][m] == parent || adj[v][m] in trail.finished
      {
        var nb := adj[v][k];
        assert nb in adj[v];
        assert Joined(links, nb, v);
        if nb == parent {
          continue;
        }
        if nb !in visited {
          found := Dfs(nb, v);
          if found {
            return true;
          }
        } else if nb in recStack {
          trail.ClosesCycle(links, roots, nb);
          return true;
        }
      }
      Leave(v, parent);
      return false;
    }
  }

  /** The verdict of the stage, for every order of visiting the listed nodes. */
  method DetectLoop(t: Topology) returns (loopFound: bool)
    requires "" !in NodeIds(t) + Endpoints(t.links)
    ensures loopFound <==> LoopFound(t)
  {
    var nodes := NodeIds(t);
    var adj := BuildAdjacency(t);
    var search := new Search(adj, t.links, nodes);
    loopFound := false;
    var todo := nodes;
    while todo != {}
      invariant search.Valid() && search.trail.path == [] && search.adj == adj
      invariant search.links == t.links && search.roots == nodes
      invariant todo <= nodes && nodes - todo <= search.visited
      decreases todo
    {
      var n :| n in todo;
      todo := todo - {n};
      if n !in search.visited {
        loopFound := search.Dfs(n, "");
        if loopFound {
          return;
        }
      }
    }
    assert forall n | n in nodes :: n in search.visited && search.trail.Seen(n);
    search.trail.Exhausted(t.links, nodes);
  }

  /** When every endpoint is a listed node, the verdict is about the whole graph. */
  lemma LoopFoundIffCycle(t: Topology)
    requires Endpoints(t.links) <= NodeIds(t)
    ensures LoopFound(t) <==> HasCycle(t.links)
  {
    if c :| IsCycle(t.links, c) {
      assert Joined(t.links, c[|c| - 1], c[0]);
      assert c[0] in Endpoints(t.links);
      assert LeadsToCycle(t.links, NodeIds(t), [c[0]], c);
    }
  }
}
