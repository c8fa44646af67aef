/** Walks, delays and the invariant of Dijkstra's algorithm as ryu_multipath_yens.py runs it. */
module ShortestPaths {
  import opened Options
  import opened Seqs
  import opened SimplePaths

  /** The switches the controller knows, the links it may use, and the measured delays */
  datatype Net = Net(switches: seq<Node>, graph: Adjacency, delay: map<Node, map<Node, real>>)

  function Delay(net: Net, u: Node, v: Node): real {
    if u in net.delay && v in net.delay[u] then net.delay[u][v] else 0.0
  }

  ghost predicate NonNegative(net: Net) {
    forall u, v :: u in net.delay && v in net.delay[u] ==> net.delay[u][v] >= 0.0
  }

  predicate Link(net: Net, u: Node, v: Node) {
    u in net.switches && v in net.switches && Edge(net.graph, u, v)
  }

  /** A walk between switches, listed from its end back to its start */
  datatype Walk = Here(start: Node) | Then(before: Walk, node: Node)

  function End(w: Walk): Node {
    if w.Here? then w.start else w.node
  }

  function Begin(w: Walk): Node {
    if w.Here? then w.start else Begin(w.before)
  }

  ghost predicate Legal(net: Net, w: Walk) {
    w.Then? ==> Legal(net, w.before) && Link(net, End(w.before), w.node)
  }

  /** Total delay */
  function Cost(net: Net, w: Walk): real {
    if w.Here? then 0.0 else Cost(net, w.before) + Delay(net, End(w.before), w.node)
  }

  function Stops(w: Walk): (p: Path)
    ensures p != [] && p[|p| - 1] == End(w) && p[0] == Begin(w)
  {
    if w.Here? then [w.start] else Stops(w.before) + [w.node]
  }

  ghost predicate WalkTo(net: Net, start: Node, v: Node, w: Walk) {
    Legal(net, w) && Begin(w) == start && End(w) == v
  }

  /** What the stops of a legal walk are, in map entries alone: switches of the net, each linked to the
      next, along which the delays from each to the next add up to the cost of the walk. */
  lemma {:induction false} InStops(net: Net, start: Node, v: Node, w: Walk) returns (p: Path, c: seq<real>)
    requires WalkTo(net, start, v, w)
    ensures p == Stops(w) && p[0] == start && p[|p| - 1] == v
    ensures |c| == |p| && c[0] == 0.0 && c[|p| - 1] == Cost(net, w)
    ensures forall i {:trigger p[i]} :: 0 <= i < |p| - 1 ==>
      && p[i] in net.switches && p[i + 1] in net.switches && p[i] in net.graph && p[i + 1] in net.graph[p[i]]
      && c[i + 1] == c[i] + if p[i] in net.delay && p[i + 1] in net.delay[p[i]] then net.delay[p[i]][p[i + 1]] else 0.0
    decreases w
  {
    if w.Here? {
      p, c := [w.start], [0.0];
    } else {
      var p0, c0 := InStops(net, start, End(w.before), w.before);
      p, c := p0 + [w.node], c0 + [Cost(net, w)];
      var n := |p0|;
      assert p[n - 1] == End(w.before) && c[n - 1] == Cost(net, w.before) && c[n] == c[n - 1] + Delay(net, p[n - 1], w.node);
      assert Link(net, p[n - 1], w.node);
    }
  }

  /** Conversely, such a sequence of switches is a walk, and costs what the delays along it add up to. */
  lemma {:induction false} OfStops(net: Net, p: Path, c: seq<real>) returns (w: Walk)
    requires |c| == |p| > 0 && c[0] == 0.0
    requires forall i {:trigger p[i]} :: 0 <= i < |p| - 1 ==>
      p[i] in net.switches && p[i + 1] in net.switches && p[i] in net.graph && p[i + 1] in net.graph[p[i]]
    requires forall i {:trigger p[i]} :: 0 <= i < |p| - 1 ==>
      c[i + 1] == c[i] + if p[i] in net.delay && p[i + 1] in net.delay[p[i]] then net.delay[p[i]][p[i + 1]] else 0.0
    ensures Stops(w) == p && WalkTo(net, p[0], p[|p| - 1], w) && Cost(net, w) == c[|p| - 1]
  {
    var n := |p| - 1;
    if n == 0 {
      w := Here(p[0]);
    } else {
      var b := OfStops(net, p[..n], c[..n]);
      w := Then(b, p[n]);
      assert p[n - 1 + 1] == p[n] && Link(net, p[n - 1], p[n]);
      assert c[n] == c[n - 1] + Delay(net, p[n - 1], p[n]);
      assert p == p[..n] + [p[n]];
    }
  }

  ghost predicate Reachable(net: Net, start: Node, v: Node) {
    exists w :: WalkTo(net, start, v, w)
  }

  /** A distance; the default of the distances dictionary is infinity. */
  datatype Dist = Inf | Fin(d: real)

  type Distances = map<Node, Dist>
  type Previous = map<Node, Node>

  function Get(dist: Distances, v: Node): Dist {
    if v in dist then dist[v] else Inf
  }

  predicate Less(a: Dist, b: Dist) {
    a.Fin? && (b.Inf? || a.d < b.d)
  }

  function Add(a: Dist, w: real): Dist {
    if a.Fin? then Fin(a.d + w) else Inf
  }

  /** The smallest total delay of a walk, or infinity when there is none */
  ghost predicate Shortest(net: Net, start: Node, v: Node, d: Dist) {
    && (d.Inf? ==> !Reachable(net, start, v))
    && (d.Fin? ==>
      && (exists w :: WalkTo(net, start, v, w) && Cost(net, w) == d.d)
      && (forall w :: WalkTo(net, start, v, w) ==> d.d <= Cost(net, w)))
  }

  lemma LeastOfAll(net: Net, start: Node, v: Node, d: Dist)
    requires Shortest(net, start, v, d)
    ensures forall w :: WalkTo(net, start, v, w) ==> d.Fin? && d.d <= Cost(net, w)
    ensures d.Fin? ==> exists w :: WalkTo(net, start, v, w) && Cost(net, w) == d.d
  {
  }

  // ---- the invariant ----

  /** The order in which the switches were settled, that is, taken out of Q */
  type Rank = map<Node, nat>

  /** `v` was last improved over the link from `prev[v]`, which is settled, and was before `v`. */
  ghost predicate Supported(net: Net, start: Node, dist: Distances, prev: Previous, rank: Rank, v: Node) {
    if v == start then Get(dist, v) == Fin(0.0) && v !in prev
    else if v !in prev then Get(dist, v) == Inf
    else
      && prev[v] in rank && Link(net, prev[v], v)
      && Get(dist, prev[v]).Fin? && Get(dist, v) == Add(Get(dist, prev[v]), Delay(net, prev[v], v))
      && (v in rank ==> rank[prev[v]] < rank[v])
  }

  ghost predicate Relaxed(net: Net, dist: Distances, u: Node, v: Node) {
    Link(net, u, v) ==> !Less(Add(Get(dist, u), Delay(net, u, v)), Get(dist, v))
  }

  /** No settled switch is farther than `u`. */
  ghost predicate Farthest(dist: Distances, rank: Rank, u: Node) {
    forall v :: v in rank ==> !Less(Get(dist, u), Get(dist, v))
  }

  /** Settled switches are not farther than the others, and every link out of `expanded`, the settled
      switches whose links have been followed, is relaxed. */
  ghost predicate Inv(net: Net, start: Node, dist: Distances, prev: Previous, rank: Rank, expanded: set<Node>) {
    && expanded <= rank.Keys
    && (forall v :: v in rank ==> v in net.switches && rank[v] < |rank|)
    && (forall v :: Supported(net, start, dist, prev, rank, v))
    && (forall v :: Get(dist, v).Fin? ==> Get(dist, v).d >= 0.0)
    && (forall v :: v !in rank && v in net.switches ==> Farthest(dist, rank, v))
    && (forall u, v :: u in expanded ==> Relaxed(net, dist, u, v))
    && (forall v :: v in rank && Get(dist, v) == Inf ==> v == 0)
  }

  lemma Init(net: Net, start: Node)
    ensures Inv(net, start, map[start := Fin(0.0)], map[], map[], {})
  {
  }

  /** Settling a nearest unsettled switch */
  lemma Settle(net: Net, start: Node, dist: Distances, prev: Previous, rank: Rank, expanded: set<Node>, u: Node)
    requires Inv(net, start, dist, prev, rank, expanded)
    requires u in net.switches && u !in rank && (Get(dist, u) == Inf ==> u == 0)
    requires forall v :: v in net.switches && v !in rank ==> !Less(Get(dist, v), Get(dist, u))
    ensures Inv(net, start, dist, prev, rank[u := |rank|], expanded)
    ensures Farthest(dist, rank[u := |rank|], u)
  {
    var rank' := rank[u := |rank|];
    forall v ensures Supported(net, start, dist, prev, rank', v) {
      assert Supported(net, start, dist, prev, rank, v);
    }
    forall v | v !in rank' && v in net.switches ensures Farthest(dist, rank', v) {
      assert Farthest(dist, rank, v);
    }
    assert Farthest(dist, rank, u);
  }

  /** Improving the distance of `p` over the link from the switch settled last */
  lemma Improve(net: Net, start: Node, dist: Distances, prev: Previous, rank: Rank, expanded: set<Node>, u: Node, p: Node)
    requires NonNegative(net) && Inv(net, start, dist, prev, rank, expanded)
    requires u in rank && Farthest(dist, rank, u) && Link(net, u, p)
    requires Less(Add(Get(dist, u), Delay(net, u, p)), Get(dist, p))
    ensures p !in rank
    ensures var dist' := dist[p := Add(Get(dist, u), Delay(net, u, p))];
      Inv(net, start, dist', prev[p := u], rank, expanded) && Farthest(dist', rank, u)
  {
    assert Delay(net, u, p) >= 0.0;
    assert p !in rank;
    assert Supported(net, start, dist, prev, rank, p);
    var dist', prev' := dist[p := Add(Get(dist, u), Delay(net, u, p))], prev[p := u];
    forall v ensures Supported(net, start, dist', prev', rank, v) {
      assert Supported(net, start, dist, prev, rank, v);
    }
    assert Get(dist, u).d >= 0.0 && p != start;
    forall v | v !in rank && v in net.switches ensures Farthest(dist', rank, v) {
      assert Farthest(dist, rank, v);
      forall x | x in rank ensures !Less(Get(dist', v), Get(dist', x)) {
        assert !Less(Get(dist, v), Get(dist, x)) && !Less(Get(dist, u), Get(dist, x));
      }
    }
    assert Farthest(dist', rank, u);
    forall v | Get(dist', v).Fin? ensures Get(dist', v).d >= 0.0 {
      assert v != p ==> Get(dist', v) == Get(dist, v);
    }
    forall a, b | a in expanded ensures Relaxed(net, dist', a, b) {
      assert Relaxed(net, dist, a, b);
    }
  }

  // ---- what the invariant means at the end ----

  /** With every link out of a settled switch relaxed and every unsettled switch at infinity, no walk
      is shorter than the distance of its end. */
  lemma {:induction false} NoShorterWalk(net: Net, start: Node, dist: Distances, prev: Previous, rank: Rank, w: Walk)
    requires Inv(net, start, dist, prev, rank, rank.Keys) && Legal(net, w) && Begin(w) == start
    requires forall v :: v in net.switches && v !in rank ==> Get(dist, v) == Inf
    ensures Get(dist, End(w)).Fin? && Get(dist, End(w)).d <= Cost(net, w)
  {
    if w.Here? {
      assert Supported(net, start, dist, prev, rank, start);
    } else {
      NoShorterWalk(net, start, dist, prev, rank, w.before);
      assert Relaxed(net, dist, End(w.before), w.node);
    }
  }

  /** Every step of the walk is recorded in the previous map, up to where the map has no entry. */
  ghost predicate Follows(prev: Previous, start: Node, w: Walk) {
    if w.Here? then w.start !in prev
    else w.node != start && w.node in prev && End(w.before) == prev[w.node] && Follows(prev, start, w.before)
  }

  /** The walk along the previous map back from `v` */
  lemma {:induction false} WalkBack(net: Net, start: Node, dist: Distances, prev: Previous, rank: Rank, expanded: set<Node>, v: Node)
    returns (w: Walk)
    requires Inv(net, start, dist, prev, rank, expanded) && Get(dist, v).Fin?
    ensures WalkTo(net, start, v, w) && Cost(net, w) == Get(dist, v).d && Follows(prev, start, w)
    decreases v !in rank, if v in rank then rank[v] else 0
  {
    assert Supported(net, start, dist, prev, rank, v);
    if v == start {
      w := Here(start);
    } else {
      var b := WalkBack(net, start, dist, prev, rank, expanded, prev[v]);
      w := Then(b, v);
    }
  }

  lemma SettledIsShortest(net: Net, start: Node, dist: Distances, prev: Previous, rank: Rank, v: Node)
    requires Inv(net, start, dist, prev, rank, rank.Keys)
    requires forall v :: v in net.switches && v !in rank ==> Get(dist, v) == Inf
    ensures Shortest(net, start, v, Get(dist, v))
  {
    forall w | WalkTo(net, start, v, w) ensures Get(dist, v).Fin? && Get(dist, v).d <= Cost(net, w) {
      NoShorterWalk(net, start, dist, prev, rank, w);
    }
    if Get(dist, v).Fin? {
      var w := WalkBack(net, start, dist, prev, rank, rank.Keys, v);
    }
  }
}
