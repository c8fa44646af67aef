/** Per-switch port maps of paths, the links that keep the adjacency, and forwarding by ports. */
module PortMaps {
  import opened Options
  import opened Seqs
  import opened SimplePaths
  import opened PathRanking

  /** The port a packet enters a switch by, and the port it leaves by */
  type Ports = (Port, Port)

  /** Every link of the path exists in both directions. */
  ghost predicate TwoWay(adj: Adjacency, p: Path) {
    forall i :: 0 <= i < |p| - 1 ==> HopBothWays(adj, p, i)
  }

  ghost predicate HopBothWays(adj: Adjacency, p: Path, i: int)
    requires 0 <= i < |p| - 1
  {
    Edge(adj, p[i], p[i + 1]) && Edge(adj, p[i + 1], p[i])
  }

  /** The in-port at position `i` of a path */
  function InPort(adj: Adjacency, p: Path, first: Port, i: int): Port
    requires 0 <= i < |p|
  {
    if i > 0 && Edge(adj, p[i], p[i - 1]) then adj[p[i]][p[i - 1]] else first
  }

  /** The out-port at position `i` of a path */
  function OutPort(adj: Adjacency, p: Path, last: Port, i: int): Port
    requires 0 <= i < |p|
  {
    if i < |p| - 1 && Edge(adj, p[i], p[i + 1]) then adj[p[i]][p[i + 1]] else last
  }

  /** `m` is the port map of the path: each of its switches, and nothing else, with its two ports. */
  ghost predicate IsPortMap(adj: Adjacency, p: Path, first: Port, last: Port, m: map<Node, Ports>) {
    && (forall s :: s in m <==> s in p)
    && (forall i :: 0 <= i < |p| ==> p[i] in m)
    && (forall i {:trigger m[p[i]]} :: 0 <= i < |p| ==>
      m[p[i]] == (InPort(adj, p, first, i), OutPort(adj, p, last, i)))
  }

  /** What a port map is, in map entries alone: the first switch has the first port for in-port, the last
      one the last port for out-port, and between neighbours on the path the ports are those of their link. */
  lemma PortMapMeans(adj: Adjacency, p: Path, first: Port, last: Port, m: map<Node, Ports>)
    requires p != []
    requires forall i {:trigger p[i]} :: 0 <= i < |p| - 1 ==>
      p[i] in adj && p[i + 1] in adj[p[i]] && p[i + 1] in adj && p[i] in adj[p[i + 1]]
    ensures TwoWay(adj, p)
    ensures IsPortMap(adj, p, first, last, m) <==>
      && (forall s :: s in m <==> s in p)
      && m[p[0]].0 == first && m[p[|p| - 1]].1 == last
      && (forall i {:trigger p[i]} :: 0 <= i < |p| - 1 ==>
        m[p[i]].1 == adj[p[i]][p[i + 1]] && m[p[i + 1]].0 == adj[p[i + 1]][p[i]])
  {
    if IsPortMap(adj, p, first, last, m) {
      forall i | 0 <= i < |p| - 1
        ensures m[p[i]].1 == adj[p[i]][p[i + 1]] && m[p[i + 1]].0 == adj[p[i + 1]][p[i]]
      {
        assert m[p[i]].1 == OutPort(adj, p, last, i) && m[p[i + 1]].0 == InPort(adj, p, first, i + 1);
      }
    } else if forall s :: s in m <==> s in p {
      var i :| 0 <= i < |p| && m[p[i]] != (InPort(adj, p, first, i), OutPort(adj, p, last, i));
      assert i > 0 ==> p[i - 1] in p && p[i] == p[i - 1 + 1];
    }
  }

  /** The port map of the first `k` switches of the path */
  ghost predicate PartialPortMap(adj: Adjacency, p: Path, first: Port, last: Port, m: map<Node, Ports>, k: int)
    requires 0 <= k <= |p|
  {
    && (forall s :: s in m <==> s in p[..k])
    && (forall i :: 0 <= i < k ==> p[i] in m)
    && (forall i {:trigger m[p[i]]} :: 0 <= i < k ==>
      m[p[i]] == (InPort(adj, p, first, i), OutPort(adj, p, last, i)))
  }

  lemma EmptyPortMap(adj: Adjacency, p: Path, first: Port, last: Port)
    ensures PartialPortMap(adj, p, first, last, map[], 0)
  {
  }

  lemma PartialPortMapNext(adj: Adjacency, p: Path, first: Port, last: Port, m: map<Node, Ports>, k: int)
    requires 0 <= k < |p| && PartialPortMap(adj, p, first, last, m, k) && Distinct(p)
    ensures PartialPortMap(adj, p, first, last, m[p[k] := (InPort(adj, p, first, k), OutPort(adj, p, last, k))], k + 1)
  {
    hide Distinct, InPort, OutPort;
    NotBefore(p, k);
    TakeNext(p, k);
    var m' := m[p[k] := (InPort(adj, p, first, k), OutPort(adj, p, last, k))];
    forall i | 0 <= i < k + 1
      ensures p[i] in m' && m'[p[i]] == (InPort(adj, p, first, i), OutPort(adj, p, last, i))
    {
      if i < k {
        assert p[i] in p[..k] && m[p[i]] == (InPort(adj, p, first, i), OutPort(adj, p, last, i));
      }
    }
  }

  lemma WholePortMap(adj: Adjacency, p: Path, first: Port, last: Port, m: map<Node, Ports>)
    requires PartialPortMap(adj, p, first, last, m, |p|)
    ensures IsPortMap(adj, p, first, last, m)
  {
    assert p[..|p|] == p;
  }

  /** No two neighbours of a switch are behind one port. */
  ghost predicate PortsInjective(adj: Adjacency) {
    forall s, a, b :: Edge(adj, s, a) && Edge(adj, s, b) && a != b ==> adj[s][a] != adj[s][b]
  }

  /** The neighbour behind a port of a switch, if the port leads to one */
  ghost predicate Leads(adj: Adjacency, s: Node, port: Port, t: Node) {
    Edge(adj, s, t) && adj[s][t] == port
  }

  /** Where a packet is: entering a switch by a port, or out of the network by a port of a switch */
  datatype Place = At(node: Node, inPort: Port) | Left(node: Node, outPort: Port) | Lost

  /** A switch with an entry for the in-port sends the packet out, and the link delivers it. */
  ghost function Forward(adj: Adjacency, m: map<Node, Ports>, at: Place): Place {
    if !at.At? || at.node !in m || m[at.node].0 != at.inPort then Lost
    else
      var out := m[at.node].1;
      if t :| Leads(adj, at.node, out, t) then (if Edge(adj, t, at.node) then At(t, adj[t][at.node]) else Lost)
      else Left(at.node, out)
  }

  ghost function After(adj: Adjacency, m: map<Node, Ports>, at: Place, hops: nat): Place {
    if hops == 0 then at else Forward(adj, m, After(adj, m, at, hops - 1))
  }

  lemma SimpleIsTwoWay(adj: Adjacency, src: Node, dst: Node, p: Path)
    requires Symmetric(adj) && SimplePath(adj, src, dst, p)
    ensures TwoWay(adj, p)
  {
    forall i | 0 <= i < |p| - 1 ensures HopBothWays(adj, p, i) {
      assert Hop(adj, p, i);
    }
  }

  /** One hop along the path: the port of switch `i` delivers the packet to switch `i + 1`, on the
      in-port recorded there. */
  lemma NextOnPath(adj: Adjacency, p: Path, first: Port, last: Port, m: map<Node, Ports>, i: int)
    requires PortsInjective(adj) && TwoWay(adj, p) && IsPortMap(adj, p, first, last, m)
    requires 0 <= i < |p| - 1
    ensures Forward(adj, m, At(p[i], InPort(adj, p, first, i))) == At(p[i + 1], InPort(adj, p, first, i + 1))
  {
    assert HopBothWays(adj, p, i);
    assert Leads(adj, p[i], OutPort(adj, p, last, i), p[i + 1]);
  }

  /** Following the port map of a path from its first switch and port visits exactly the path: behind
      the out-port of a switch is no switch but the next one. */
  lemma {:induction false} FollowsPath(adj: Adjacency, p: Path, first: Port, last: Port, m: map<Node, Ports>, k: nat)
    requires PortsInjective(adj) && TwoWay(adj, p) && IsPortMap(adj, p, first, last, m)
    requires k < |p|
    ensures After(adj, m, At(p[0], first), k) == At(p[k], InPort(adj, p, first, k))
    ensures forall n, t :: n == p[k] && n in adj && t in adj[n] && adj[n][t] == m[n].1 && k < |p| - 1 ==> t == p[k + 1]
  {
    if k < |p| - 1 {
      assert HopBothWays(adj, p, k);
      assert Edge(adj, p[k], p[k + 1]);
    }
    hide PortsInjective, TwoWay, IsPortMap, Forward;
    if k > 0 {
      FollowsPath(adj, p, first, last, m, k - 1);
      NextOnPath(adj, p, first, last, m, k - 1);
    }
  }

  /** Delivery: over any simple path the packet is at dst after one hop less than the path has
      switches, and leaves it on the last port, which is the host's when no switch is behind it. */
  lemma Delivered(adj: Adjacency, src: Node, dst: Node, p: Path, first: Port, last: Port, m: map<Node, Ports>)
    requires Symmetric(adj) && PortsInjective(adj) && SimplePath(adj, src, dst, p)
    requires IsPortMap(adj, p, first, last, m)
    ensures After(adj, m, At(src, first), |p| - 1) == At(dst, m[dst].0) && m[dst].1 == last
    ensures (forall t :: !Leads(adj, dst, last, t)) ==> After(adj, m, At(src, first), |p|) == Left(dst, last)
  {
    SimpleIsTwoWay(adj, src, dst, p);
    FollowsPath(adj, p, first, last, m, |p| - 1);
  }

  function Swap(q: Ports): Ports {
    (q.1, q.0)
  }

  function Mirror(m: map<Node, Ports>): map<Node, Ports> {
    map s | s in m :: Swap(m[s])
  }

  /** The reversed path with its end ports swapped has the mirrored port map. */
  lemma MirroredMap(adj: Adjacency, p: Path, first: Port, last: Port, m: map<Node, Ports>)
    requires TwoWay(adj, p) && IsPortMap(adj, p, first, last, m)
    ensures IsPortMap(adj, Reverse(p), last, first, Mirror(m))
  {
    var r, m' := Reverse(p), Mirror(m);
    forall i | 0 <= i < |r|
      ensures r[i] in m' && m'[r[i]] == (InPort(adj, r, last, i), OutPort(adj, r, first, i))
    {
      MirroredAt(adj, p, first, last, i);
    }
    forall s ensures s in m' <==> s in r {
      ReverseMembers(p, s);
    }
  }

  lemma TwoWayAt(adj: Adjacency, p: Path, i: int)
    requires TwoWay(adj, p) && 0 <= i < |p| - 1
    ensures HopBothWays(adj, p, i)
  {
  }

  lemma MirroredAt(adj: Adjacency, p: Path, first: Port, last: Port, i: int)
    requires TwoWay(adj, p) && 0 <= i < |p|
    ensures var r, j := Reverse(p), |p| - 1 - i;
      && r[i] == p[j]
      && InPort(adj, r, last, i) == OutPort(adj, p, last, j)
      && OutPort(adj, r, first, i) == InPort(adj, p, first, j)
  {
    hide TwoWay, Edge, Reverse;
    var j := |p| - 1 - i;
    ReverseAt(p, i);
    if i > 0 {
      ReverseAt(p, i - 1);
      TwoWayAt(adj, p, j);
    }
    if i < |p| - 1 {
      ReverseAt(p, i + 1);
      TwoWayAt(adj, p, j - 1);
    }
  }

  // ---- links ----

  function SetPort(adj: Adjacency, a: Node, b: Node, port: Port): Adjacency {
    adj[a := (if a in adj then adj[a] else map[])[b := port]]
  }

  function DropPort(adj: Adjacency, a: Node, b: Node): Adjacency {
    if a in adj then adj[a := adj[a] - {b}] else adj
  }

  lemma EdgeAfterSet(adj: Adjacency, a: Node, b: Node, port: Port, x: Node, y: Node)
    ensures Edge(SetPort(adj, a, b, port), x, y) <==> Edge(adj, x, y) || (x == a && y == b)
    ensures Edge(SetPort(adj, a, b, port), x, y) ==>
      SetPort(adj, a, b, port)[x][y] == if x == a && y == b then port else adj[x][y]
  {
  }

  lemma EdgeAfterDrop(adj: Adjacency, a: Node, b: Node, x: Node, y: Node)
    ensures Edge(DropPort(adj, a, b), x, y) <==> Edge(adj, x, y) && !(x == a && y == b)
    ensures Edge(DropPort(adj, a, b), x, y) ==> DropPort(adj, a, b)[x][y] == adj[x][y]
  {
  }

  /** A port is free for a link from `s` to `t` when no other neighbour of `s` is behind it. */
  ghost predicate PortFree(adj: Adjacency, s: Node, t: Node, port: Port) {
    forall x :: Edge(adj, s, x) && x != t ==> adj[s][x] != port
  }

  /** Adding a link between two switches keeps every port leading to one neighbour exactly when both
      its ports are free for it. */
  lemma AddKeepsPorts(adj: Adjacency, a: Node, pa: Port, b: Node, pb: Port)
    requires PortsInjective(adj) && a != b
    ensures PortsInjective(SetPort(SetPort(adj, a, b, pa), b, a, pb)) <==> PortFree(adj, a, b, pa) && PortFree(adj, b, a, pb)
  {
    var adj1 := SetPort(adj, a, b, pa);
    SetKeepsPorts(adj, a, b, pa);
    var adj2 := SetPort(adj1, b, a, pb);
    assert forall x :: Edge(adj1, b, x) <==> Edge(adj, b, x);
    assert forall x :: Edge(adj1, b, x) ==> adj1[b][x] == adj[b][x];
    assert PortFree(adj1, b, a, pb) <==> PortFree(adj, b, a, pb);
    if PortFree(adj, a, b, pa) {
      SetKeepsPorts(adj1, b, a, pb);
    } else {
      var x :| Edge(adj, a, x) && x != b && adj[a][x] == pa;
      assert Edge(adj2, a, x) && Edge(adj2, a, b) && adj2[a][x] == adj2[a][b];
    }
  }

  lemma SetKeepsPorts(adj: Adjacency, a: Node, b: Node, port: Port)
    requires PortsInjective(adj)
    ensures PortsInjective(SetPort(adj, a, b, port)) <==> PortFree(adj, a, b, port)
  {
    var adj' := SetPort(adj, a, b, port);
    forall x, y ensures Edge(adj', x, y) <==> Edge(adj, x, y) || (x == a && y == b) {
      EdgeAfterSet(adj, a, b, port, x, y);
    }
    if PortsInjective(adj') {
      forall x | Edge(adj, a, x) && x != b ensures adj[a][x] != port {
        assert Edge(adj', a, x) && Edge(adj', a, b);
      }
    }
  }
}
