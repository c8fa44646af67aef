/** Dijkstra's algorithm and the walk back along the previous map, ryu_multipath_yens.py. */
module Yen {
  import opened Options
  import opened Seqs
  import opened SimplePaths
  import opened PathRanking
  import opened ShortestPaths

  /** The node that minimum_distance returns when every distance is infinite */
  const PLACEHOLDER: Node := 0

  /** minimum_distance: a nearest switch of Q, or the placeholder when all of Q is at infinity */
  method MinimumDistance(dist: Distances, Q: set<Node>) returns (node: Node)
    ensures (exists v :: v in Q && Get(dist, v).Fin?) ==> node in Q && Get(dist, node).Fin?
    ensures (forall v :: v in Q ==> Get(dist, v) == Inf) ==> node == 0
    ensures node in Q ==> forall v :: v in Q ==> !Less(Get(dist, v), Get(dist, node))
  {
    var order := Enumerate(Q);
    var min := Inf;
    node := PLACEHOLDER;
    for i := 0 to |order|
      invariant min.Fin? ==> node in Q && Get(dist, node) == min
      invariant min.Inf? ==> node == PLACEHOLDER
      invariant forall j :: 0 <= j < i ==> !Less(Get(dist, order[j]), min)
    {
      assert order[i] in order;
      if Less(Get(dist, order[i]), min) {
        min := Get(dist, order[i]);
        node := order[i];
      }
    }
    forall v | v in Q ensures !Less(Get(dist, v), min) {
      assert v in order;
    }
  }

  /** The inner loop of dijkstra: follow every link out of the switch settled last. */
  method RelaxLinks(net: Net, start: Node, u: Node, dist0: Distances, prev0: Previous, ghost rank: Rank, ghost expanded: set<Node>)
    returns (dist: Distances, prev: Previous)
    requires NonNegative(net) && u in rank && Farthest(dist0, rank, u)
    requires Inv(net, start, dist0, prev0, rank, expanded)
    ensures Inv(net, start, dist, prev, rank, expanded + {u})
    ensures forall v :: v in rank ==> Get(dist, v) == Get(dist0, v)
    ensures forall v :: u in net.switches && v in net.switches && u in net.graph && v in net.graph[u] && Get(dist0, u).Fin? ==>
      && v in dist && dist[v].Fin?
      && dist[v].d <= Get(dist0, u).d + if u in net.delay && v in net.delay[u] then net.delay[u][v] else 0.0
  {
    hide Inv, Farthest, NonNegative;
    dist, prev := dist0, prev0;
    for i := 0 to |net.switches|
      invariant Inv(net, start, dist, prev, rank, expanded) && Farthest(dist, rank, u)
      invariant forall v :: v in rank ==> Get(dist, v) == Get(dist0, v)
      invariant forall j :: 0 <= j < i ==> Relaxed(net, dist, u, net.switches[j])
    {
      var p := net.switches[i];
      ghost var before := dist;
      if Edge(net.graph, u, p) && Less(Add(Get(dist, u), Delay(net, u, p)), Get(dist, p)) {
        SettledIsSwitch(net, start, dist, prev, rank, expanded, u);
        Improve(net, start, dist, prev, rank, expanded, u, p);
        dist := dist[p := Add(Get(dist, u), Delay(net, u, p))];
        prev := prev[p := u];
      }
      forall j | 0 <= j < i + 1 ensures Relaxed(net, dist, u, net.switches[j]) {
        if j < i {
          assert Relaxed(net, before, u, net.switches[j]);
        }
      }
    }
    AllRelaxed(net, start, dist, prev, rank, expanded, u);
    forall v | Link(net, u, v) ensures !Less(Add(Get(dist, u), Delay(net, u, v)), Get(dist, v)) {
      assert Relaxed(net, dist, u, v);
    }
  }

  lemma SettledIsSwitch(net: Net, start: Node, dist: Distances, prev: Previous, rank: Rank, expanded: set<Node>, u: Node)
    requires Inv(net, start, dist, prev, rank, expanded) && u in rank
    ensures u in net.switches
  {
  }

  lemma AllRelaxed(net: Net, start: Node, dist: Distances, prev: Previous, rank: Rank, expanded: set<Node>, u: Node)
    requires Inv(net, start, dist, prev, rank, expanded) && u in rank
    requires forall j :: 0 <= j < |net.switches| ==> Relaxed(net, dist, u, net.switches[j])
    ensures Inv(net, start, dist, prev, rank, expanded + {u}) && forall v :: Relaxed(net, dist, u, v)
  {
    forall v ensures Relaxed(net, dist, u, v) {
      if v in net.switches {
        var j :| 0 <= j < |net.switches| && net.switches[j] == v;
      }
    }
    forall a, v | a in expanded + {u} ensures Relaxed(net, dist, a, v) {
    }
  }

  /** dijkstra: shortest distances and the switches before, for all switches. The placeholder makes the
      removal from Q fail (KeyError) exactly when a switch other than it cannot be reached. */
  method Dijkstra(net: Net, start: Node) returns (ok: bool, dist: Distances, prev: Previous, ghost rank: Rank)
    requires NonNegative(net)
    ensures ok <==> forall v :: v in net.switches && !Reachable(net, start, v) ==> v == 0
    ensures ok ==> forall v, w :: v in net.switches && WalkTo(net, start, v, w) ==>
      v in dist && dist[v].Fin? && dist[v].d <= Cost(net, w)
    ensures ok ==> forall v :: v in net.switches && v in dist && dist[v].Fin? ==>
      exists w :: WalkTo(net, start, v, w) && Cost(net, w) == dist[v].d
    ensures ok ==> Inv(net, start, dist, prev, rank, rank.Keys) && forall v :: v in net.switches ==> v in rank
  {
    hide Inv, Farthest, NonNegative, Shortest, Reachable;
    dist, prev, rank := map[start := Fin(0.0)], map[], map[];
    Init(net, start);
    assert rank.Keys == {};
    var Q := set v | v in net.switches;
    while Q != {}
      invariant forall v :: v in Q <==> v in net.switches && v !in rank
      invariant Inv(net, start, dist, prev, rank, rank.Keys)
      decreases |Q|
    {
      var u := MinimumDistance(dist, Q);
      if u !in Q {
        Unreached(net, start, dist, prev, rank, Q);
        return false, dist, prev, rank;
      }
      Q := Q - {u};
      ghost var expanded := rank.Keys;
      Settle(net, start, dist, prev, rank, expanded, u);
      rank := rank[u := |rank|];
      dist, prev := RelaxLinks(net, start, u, dist, prev, rank, expanded);
      assert rank.Keys == expanded + {u};
    }
    forall v | v in net.switches ensures Shortest(net, start, v, Get(dist, v)) {
      SettledIsShortest(net, start, dist, prev, rank, v);
    }
    forall v | v in net.switches
      ensures forall w :: WalkTo(net, start, v, w) ==> v in dist && dist[v].Fin? && dist[v].d <= Cost(net, w)
      ensures v in dist && dist[v].Fin? ==> exists w :: WalkTo(net, start, v, w) && Cost(net, w) == dist[v].d
    {
      LeastOfAll(net, start, v, Get(dist, v));
    }
    AllReached(net, start, dist, prev, rank);
    ok := true;
  }

  /** When the rest of Q is at infinity, none of it can be reached. */
  lemma Unreached(net: Net, start: Node, dist: Distances, prev: Previous, rank: Rank, Q: set<Node>)
    requires Inv(net, start, dist, prev, rank, rank.Keys)
    requires Q != {} && PLACEHOLDER !in Q && forall v :: v in Q <==> v in net.switches && v !in rank
    requires forall v :: v in Q ==> Get(dist, v) == Inf
    ensures !(forall v :: v in net.switches && !Reachable(net, start, v) ==> v == PLACEHOLDER)
  {
    var v := SomeElement(Q);
    SettledIsShortest(net, start, dist, prev, rank, v);
    assert !Reachable(net, start, v);
  }

  lemma AllReached(net: Net, start: Node, dist: Distances, prev: Previous, rank: Rank)
    requires Inv(net, start, dist, prev, rank, rank.Keys)
    requires forall v :: v in net.switches ==> v in rank && Shortest(net, start, v, Get(dist, v))
    ensures forall v :: v in net.switches && !Reachable(net, start, v) ==> v == PLACEHOLDER
  {
    forall v | v in net.switches && !Reachable(net, start, v) ensures v == PLACEHOLDER {
      assert Shortest(net, start, v, Get(dist, v));
    }
  }

  function Lookup(prev: Previous, v: Node): Option<Node> {
    if v in prev then Some(prev[v]) else None
  }

  /** All but the last stop */
  function Front(p: Path): Path
    requires p != []
  {
    p[..|p| - 1]
  }

  /** path: walk back along the previous map, and reverse what was collected. From what Dijkstra leaves
      it ends, with the stops of a shortest walk in order when the end can be reached. */
  method PathTo(prev: Previous, start: Node, end: Node, ghost net: Net, ghost dist: Distances, ghost rank: Rank)
    returns (path: Path)
    requires Inv(net, start, dist, prev, rank, rank.Keys)
    ensures Get(dist, end).Fin? ==>
      exists w :: WalkTo(net, start, end, w) && Stops(w) == path && Cost(net, w) == Get(dist, end).d
    ensures Get(dist, end).Inf? ==> path == [end] && end != start
  {
    assert Supported(net, start, dist, prev, rank, end);
    ghost var whole := Here(end);
    if Get(dist, end).Fin? {
      whole := WalkBack(net, start, dist, prev, rank, rank.Keys, end);
    }
    path := Collect(prev, start, end, whole);
  }

  /** dijkstra with a destination: the cost and the path, or none for the KeyError. */
  method DijkstraTo(net: Net, start: Node, end: Node) returns (r: Option<(Dist, Path)>)
    requires NonNegative(net)
    ensures r.Some? <==> forall v :: v in net.switches && !Reachable(net, start, v) ==> v == 0
    ensures r.Some? ==> forall w :: WalkTo(net, start, end, w) ==> r.value.0.Fin? && r.value.0.d <= Cost(net, w)
    ensures r.Some? && r.value.0.Fin? ==>
      exists w :: WalkTo(net, start, end, w) && Stops(w) == r.value.1 && Cost(net, w) == r.value.0.d
    ensures r.Some? && r.value.0.Inf? ==> r.value.1 == [end] && end != start
  {
    var ok, dist, prev;
    ghost var rank;
    ok, dist, prev, rank := Dijkstra(net, start);
    if !ok {
      return None;
    }
    SettledIsShortest(net, start, dist, prev, rank, end);
    LeastOfAll(net, start, end, Get(dist, end));
    var path := PathTo(prev, start, end, net, dist, rank);
    return Some((Get(dist, end), path));
  }

  method Collect(prev: Previous, start: Node, end: Node, ghost whole: Walk) returns (path: Path)
    requires Follows(prev, start, whole) && End(whole) == end
    ensures path == Stops(whole)
  {
    hide Stops, Front, Reverse;
    ghost var w := whole;
    var p := end;
    var r := [p];
    var q := Lookup(prev, p);
    LastStop(whole);
    while q.Some?
      invariant Follows(prev, start, w) && q == Lookup(prev, End(w))
      invariant Front(Stops(w)) + Reverse(r) == Stops(whole)
      decreases w
    {
      CollectNext(w, r, whole);
      w := w.before;
      if q.value == start {
        r := r + [q.value];
        break;
      }
      p := q.value;
      r := r + [p];
      q := Lookup(prev, p);
    }
    LastStop(w);
    path := Reverse(r);
    assert [] + path == path;
  }

  lemma LastStop(w: Walk)
    ensures Front(Stops(w)) + Reverse([End(w)]) == Stops(w)
    ensures w.Here? ==> Front(Stops(w)) == []
  {
    var last: Path := [End(w)];
    assert last[1..] == [] && [] + last == last;
    assert Reverse(last) == last;
    SplitLast(Stops(w));
  }

  lemma SplitLast(p: Path)
    requires p != []
    ensures Front(p) + [p[|p| - 1]] == p
  {
  }

  lemma FrontOf(p: Path, n: Node)
    ensures Front(p + [n]) == p
  {
  }

  lemma Regroup(a: Path, b: Path, c: Path)
    ensures (a + b) + c == a + (b + c)
  {
  }

  lemma CollectNext(w: Walk, r: Path, whole: Walk)
    requires w.Then? && Front(Stops(w)) + Reverse(r) == Stops(whole)
    ensures Front(Stops(w.before)) + Reverse(r + [End(w.before)]) == Stops(whole)
  {
    hide Front, Reverse;
    var before := Stops(w.before);
    ReverseSnoc(r, End(w.before));
    assert Front(Stops(w)) == before by {
      FrontOf(before, w.node);
    }
    SplitLast(before);
    Regroup(Front(before), [End(w.before)], Reverse(r));
  }

  lemma {:induction false} ReverseSnoc(p: Path, n: Node)
    ensures Reverse(p + [n]) == [n] + Reverse(p)
  {
    if p != [] {
      assert (p + [n])[1..] == p[1..] + [n];
      ReverseSnoc(p[1..], n);
    }
  }

  /** Two switches without a link between them */
  const ISLANDS: Net := Net([1, 2], map[], map[])

  lemma {:induction false} NoWayOut(w: Walk)
    requires Legal(ISLANDS, w)
    ensures End(w) == Begin(w)
  {
  }

  /** From switch 1 dijkstra ends in the KeyError. */
  method Islands() returns (ok: bool)
    ensures !ok
  {
    var dist, prev;
    ghost var rank;
    ok, dist, prev, rank := Dijkstra(ISLANDS, 1);
    IslandsApart();
  }

  lemma IslandsApart()
    ensures NonNegative(ISLANDS) && 2 in ISLANDS.switches && !Reachable(ISLANDS, 1, 2)
  {
    forall w | Legal(ISLANDS, w) ensures End(w) == Begin(w) {
      NoWayOut(w);
    }
  }
}
