/** The switch graph, its simple paths, and the invariant of a depth-first search that enumerates
    them with an explicit stack of partial paths. */
module SimplePaths {
  import opened Seqs

  type Node = int
  type Port = int
  type Path = seq<Node>

  /** adjacency[s1][s2] is the port of s1 that leads to s2. */
  type Adjacency = map<Node, map<Node, Port>>

  function Neighbours(adj: Adjacency, n: Node): set<Node> {
    if n in adj then adj[n].Keys else {}
  }

  predicate Edge(adj: Adjacency, a: Node, b: Node) {
    a in adj && b in adj[a]
  }

  ghost predicate Walk(adj: Adjacency, p: Path) {
    forall i :: 0 <= i < |p| - 1 ==> Hop(adj, p, i)
  }

  /** Position `i` of the path is joined to the next. */
  predicate Hop(adj: Adjacency, p: Path, i: int)
    requires 0 <= i < |p| - 1
  {
    Edge(adj, p[i], p[i + 1])
  }

  ghost predicate SimplePath(adj: Adjacency, src: Node, dst: Node, p: Path) {
    && p != [] && p[0] == src && p[|p| - 1] == dst
    && Walk(adj, p) && Distinct(p)
  }

  /** What a simple path is, in map entries alone: it starts and ends where it should, each switch has
      a port to the next, and no switch comes twice. */
  lemma SimplePathMeans(adj: Adjacency, src: Node, dst: Node, p: Path)
    ensures SimplePath(adj, src, dst, p) <==>
      && |p| > 0 && p[0] == src && p[|p| - 1] == dst
      && (forall i {:trigger p[i]} :: 0 <= i < |p| - 1 ==> p[i] in adj && p[i + 1] in adj[p[i]])
      && (forall i, j :: 0 <= i < j < |p| ==> p[i] != p[j])
  {
    if SimplePath(adj, src, dst, p) {
      DistinctAt(p);
      forall i | 0 <= i < |p| - 1 ensures p[i] in adj && p[i + 1] in adj[p[i]] {
        assert Hop(adj, p, i);
      }
    } else if forall i, j :: 0 <= i < j < |p| ==> p[i] != p[j] {
      DistinctIntro(p);
    }
  }

  /** A partial path of the search: simple, and through `dst` at most at its end */
  ghost predicate Partial(adj: Adjacency, src: Node, dst: Node, q: Path) {
    && q != [] && q[0] == src
    && Walk(adj, q) && Distinct(q)
    && dst !in q[..|q| - 1]
  }

  ghost predicate Covered(pending: seq<Path>, r: Path) {
    exists i :: 0 <= i < |pending| && pending[i] <= r
  }

  /** No path of a stack is a prefix of another. */
  ghost predicate Antichain(stack: seq<Path>) {
    forall i, j :: 0 <= i < |stack| && 0 <= j < |stack| && i != j ==> !(stack[i] <= stack[j])
  }

  /** The search invariant. Every simple path has been found or extends exactly one pending partial
      path; no path is found twice, and none that is found can be found again. */
  ghost predicate Frontier(adj: Adjacency, src: Node, dst: Node, pending: seq<Path>, found: seq<Path>) {
    && (forall i :: 0 <= i < |pending| ==> Partial(adj, src, dst, pending[i]))
    && Antichain(pending)
    && (forall r :: r in found ==> SimplePath(adj, src, dst, r) && !Covered(pending, r))
    && Distinct(found)
    && (forall r :: SimplePath(adj, src, dst, r) ==> r in found || Covered(pending, r))
  }

  /** The one-step extensions of a partial path */
  function Children(q: Path, next: seq<Node>): (c: seq<Path>)
    ensures |c| == |next|
    ensures forall i :: 0 <= i < |c| ==> c[i] == q + [next[i]]
  {
    if next == [] then [] else [q + [next[0]]] + Children(q, next[1..])
  }

  /** `next` lists, in some order, the neighbours of the end of `q` that `q` does not visit. */
  ghost predicate Expansion(adj: Adjacency, q: Path, next: seq<Node>) {
    && q != [] && Distinct(next)
    && forall n :: n in next <==> Edge(adj, q[|q| - 1], n) && n !in q
  }

  lemma Start(adj: Adjacency, src: Node, dst: Node)
    requires src != dst
    ensures Frontier(adj, src, dst, [[src]], [])
  {
    DistinctIntro([src]);
    forall r | SimplePath(adj, src, dst, r) ensures Covered([[src]], r) {
      assert [[src]][0] <= r;
    }
  }

  lemma ChildPartial(adj: Adjacency, src: Node, dst: Node, q: Path, n: Node)
    requires Partial(adj, src, dst, q) && dst !in q && Edge(adj, q[|q| - 1], n) && n !in q
    ensures Partial(adj, src, dst, q + [n])
  {
    DistinctIntro([n]);
    DistinctConcat(q, [n]);
    var c := q + [n];
    assert c[..|c| - 1] == q;
    forall i | 0 <= i < |c| - 1 ensures Hop(adj, c, i) {
      if i < |q| - 1 {
        assert Hop(adj, q, i);
      }
    }
  }

  /** A simple path that extends a partial path not through `dst` extends one of its children. */
  lemma ChildCovers(adj: Adjacency, src: Node, dst: Node, q: Path, next: seq<Node>, r: Path)
    requires Partial(adj, src, dst, q) && dst !in q && Expansion(adj, q, next)
    requires SimplePath(adj, src, dst, r) && q <= r
    ensures Covered(Children(q, next), r)
  {
    assert r[|r| - 1] in r && q != r;
    var n := r[|q|];
    DistinctAt(r);
    assert forall i :: 0 <= i < |q| ==> q[i] == r[i];
    assert Hop(adj, r, |q| - 1);
    var i := IndexOf(next, n);
    assert Children(q, next)[i] <= r;
  }

  /** Replacing a pending path by its children keeps the invariant. */
  lemma Expand(adj: Adjacency, src: Node, dst: Node, rest: seq<Path>, q: Path, next: seq<Node>, found: seq<Path>)
    requires Frontier(adj, src, dst, rest + [q], found) && dst !in q && Expansion(adj, q, next)
    ensures Frontier(adj, src, dst, rest + Children(q, next), found)
  {
    var old_, new_ := rest + [q], rest + Children(q, next);
    var k := |rest|;
    assert old_[k] == q;
    forall i | 0 <= i < |new_| ensures Partial(adj, src, dst, new_[i]) {
      if i < k {
        assert new_[i] == old_[i];
      } else {
        assert next[i - k] in next;
        ChildPartial(adj, src, dst, q, next[i - k]);
      }
    }
    forall i, j | 0 <= i < |new_| && 0 <= j < |new_| && i != j ensures !(new_[i] <= new_[j]) {
      ExpandAntichain(rest, q, next, i, j);
    }
    forall r | r in found ensures !Covered(new_, r) {
      ExpandUncovered(rest, q, next, r);
    }
    forall r | SimplePath(adj, src, dst, r) && r !in found ensures Covered(new_, r) {
      ExpandCovered(adj, src, dst, rest, q, next, r);
    }
  }

  lemma ExpandUncovered(rest: seq<Path>, q: Path, next: seq<Node>, r: Path)
    requires !Covered(rest + [q], r)
    ensures !Covered(rest + Children(q, next), r)
  {
    var old_, new_, k := rest + [q], rest + Children(q, next), |rest|;
    forall i | 0 <= i < |new_| ensures !(new_[i] <= r) {
      assert !(old_[if i < k then i else k] <= r);
    }
  }

  lemma ExpandCovered(adj: Adjacency, src: Node, dst: Node, rest: seq<Path>, q: Path, next: seq<Node>, r: Path)
    requires Partial(adj, src, dst, q) && dst !in q && Expansion(adj, q, next)
    requires SimplePath(adj, src, dst, r) && Covered(rest + [q], r)
    ensures Covered(rest + Children(q, next), r)
  {
    var old_, new_, k := rest + [q], rest + Children(q, next), |rest|;
    var i :| 0 <= i < |old_| && old_[i] <= r;
    if i < k {
      assert new_[i] <= r;
    } else {
      ChildCovers(adj, src, dst, q, next, r);
      var j :| 0 <= j < |next| && Children(q, next)[j] <= r;
      assert new_[k + j] <= r;
    }
  }

  lemma AntichainAt(stack: seq<Path>, a: nat, b: nat)
    requires Antichain(stack) && a < |stack| && b < |stack| && a != b
    ensures !(stack[a] <= stack[b]) && !(stack[b] <= stack[a])
  {
  }

  lemma PrefixesApart(a: Path, b: Path, a': Path, b': Path)
    requires a <= a' && b <= b' && !(a <= b) && !(b <= a)
    ensures !(a' <= b')
  {
    if |a| <= |b| {
      assert a != b[..|a|];
      assert a'[..|a|] == a && b'[..|a|] == b[..|a|];
    } else {
      assert b != a[..|b|];
      assert b'[..|b|] == b && a'[..|b|] == a[..|b|];
    }
  }

  lemma ExpandAntichain(rest: seq<Path>, q: Path, next: seq<Node>, i: int, j: int)
    requires Distinct(next) && Antichain(rest + [q])
    requires 0 <= i < |rest| + |next| && 0 <= j < |rest| + |next| && i != j
    ensures !((rest + Children(q, next))[i] <= (rest + Children(q, next))[j])
  {
    hide Antichain, Distinct;
    var k := |rest|;
    if i >= k && j >= k {
      DistinctPair(next, i - k, j - k);
      SiblingsApart(q, next[i - k], next[j - k]);
    } else {
      var a, b := if i < k then i else k, if j < k then j else k;
      AntichainAt(rest + [q], a, b);
      FamilyApart(rest, q, next, i, j);
    }
  }

  lemma SiblingsApart(q: Path, a: Node, b: Node)
    requires a != b
    ensures !(q + [a] <= q + [b])
  {
    assert (q + [a])[|q|] != (q + [b])[|q|];
  }

  /** What comes from different pending paths stays apart. */
  lemma FamilyApart(rest: seq<Path>, q: Path, next: seq<Node>, i: int, j: int)
    requires 0 <= i < |rest| + |next| && 0 <= j < |rest| + |next|
    requires var (a, b, k) := (if i < |rest| then i else |rest|, if j < |rest| then j else |rest|, rest + [q]);
      !(k[a] <= k[b]) && !(k[b] <= k[a])
    ensures !((rest + Children(q, next))[i] <= (rest + Children(q, next))[j])
  {
    var old_, new_, k := rest + [q], rest + Children(q, next), |rest|;
    var a, b := if i < k then i else k, if j < k then j else k;
    assert old_[a] <= new_[i] && old_[b] <= new_[j];
    PrefixesApart(old_[a], old_[b], new_[i], new_[j]);
  }

  /** A pending path that has reached `dst` is moved to the paths found. */
  lemma Found(adj: Adjacency, src: Node, dst: Node, stack: seq<Path>, q: Path, rest: seq<Path>, found: seq<Path>)
    requires Frontier(adj, src, dst, stack + [q] + rest, found) && q != [] && q[|q| - 1] == dst
    ensures Frontier(adj, src, dst, stack + rest, found + [q])
  {
    var old_, new_, k := stack + [q] + rest, stack + rest, |stack|;
    assert old_[k] == q;
    assert forall i :: 0 <= i < |new_| ==> new_[i] == old_[if i < k then i else i + 1];
    assert Covered(old_, q);
    DistinctIntro([q]);
    DistinctConcat(found, [q]);
    forall r | r in found + [q] ensures SimplePath(adj, src, dst, r) && !Covered(new_, r) {
      forall i | 0 <= i < |new_| ensures !(new_[i] <= r) {
        assert !(old_[if i < k then i else i + 1] <= r);
      }
    }
    forall r | SimplePath(adj, src, dst, r) && r !in found + [q] ensures Covered(new_, r) {
      StillCovered(adj, src, dst, stack, q, rest, r);
    }
  }

  lemma StillCovered(adj: Adjacency, src: Node, dst: Node, stack: seq<Path>, q: Path, rest: seq<Path>, r: Path)
    requires q != [] && q[|q| - 1] == dst && SimplePath(adj, src, dst, r) && r != q && Covered(stack + [q] + rest, r)
    ensures Covered(stack + rest, r)
  {
    var old_, new_, k := stack + [q] + rest, stack + rest, |stack|;
    var i :| 0 <= i < |old_| && old_[i] <= r;
    if i == k {
      OnlyItself(adj, src, dst, q, r);
    }
    assert new_[if i < k then i else i - 1] <= r;
  }

  lemma OnlyItself(adj: Adjacency, src: Node, dst: Node, q: Path, r: Path)
    requires q != [] && q[|q| - 1] == dst && SimplePath(adj, src, dst, r) && q <= r
    ensures q == r
  {
    DistinctAt(r);
    assert r[|q| - 1] == dst == r[|r| - 1];
  }

  // ---- termination ----

  function Nodes(adj: Adjacency, src: Node): set<Node> {
    {src} + adj.Keys + set a, b | a in adj.Keys && b in adj[a].Keys :: b
  }

  function Power(b: nat, e: nat): nat {
    if e == 0 then 1 else b * Power(b, e - 1)
  }

  /** What a partial path of the given length may still cost, in a graph of `n` nodes */
  function Weight(n: nat, length: nat): nat {
    if length > n then 0 else Power(n + 1, n - length)
  }

  function TotalWeight(n: nat, pending: seq<Path>): nat {
    if pending == [] then 0 else Weight(n, |pending[0]|) + TotalWeight(n, pending[1..])
  }

  lemma {:induction false} WeightConcat(n: nat, s: seq<Path>, t: seq<Path>)
    ensures TotalWeight(n, s + t) == TotalWeight(n, s) + TotalWeight(n, t)
  {
    if s == [] {
      assert s + t == t;
    } else {
      assert (s + t)[1..] == s[1..] + t;
      WeightConcat(n, s[1..], t);
    }
  }

  lemma {:induction false} WeightChildren(n: nat, q: Path, next: seq<Node>)
    ensures TotalWeight(n, Children(q, next)) == |next| * Weight(n, |q| + 1)
  {
    if next != [] {
      WeightChildren(n, q, next[1..]);
      assert Children(q, next)[1..] == Children(q, next[1..]);
      assert |next| * Weight(n, |q| + 1) == Weight(n, |q| + 1) + (|next| - 1) * Weight(n, |q| + 1);
    }
  }

  lemma {:induction false} PowerPositive(b: nat, e: nat)
    requires b > 0
    ensures Power(b, e) > 0
  {
    if e > 0 {
      PowerPositive(b, e - 1);
    }
  }

  lemma WalkInside(adj: Adjacency, src: Node, q: Path)
    requires q != [] && q[0] == src && Walk(adj, q)
    ensures Elems(q) <= Nodes(adj, src)
  {
    forall i | 0 <= i < |q| ensures q[i] in Nodes(adj, src) {
      if i > 0 {
        assert Hop(adj, q, i - 1);
      }
    }
  }

  lemma SubsetSize<T>(a: set<T>, b: set<T>)
    requires a <= b
    ensures |a| <= |b|
  {
    assert b == a + (b - a);
  }

  /** The children of a partial path together weigh less than the path. */
  lemma ExpansionIsLighter(adj: Adjacency, src: Node, dst: Node, q: Path, next: seq<Node>)
    requires Partial(adj, src, dst, q) && Expansion(adj, q, next)
    ensures var n := |Nodes(adj, src)|; TotalWeight(n, Children(q, next)) < TotalWeight(n, [q])
  {
    var n := |Nodes(adj, src)|;
    WalkInside(adj, src, q);
    DistinctCard(q);
    SubsetSize(Elems(q), Nodes(adj, src));
    forall e | e in Elems(next) ensures e in Nodes(adj, src) {
      assert Edge(adj, q[|q| - 1], e);
    }
    DistinctCard(next);
    SubsetSize(Elems(next), Nodes(adj, src));
    WeightChildren(n, q, next);
    PowerPositive(n + 1, n - |q|);
    LighterProduct(n, |next|, Weight(n, |q| + 1), |q|);
    assert TotalWeight(n, [q]) == Weight(n, |q|);
  }

  lemma LighterProduct(n: nat, k: nat, w: nat, length: nat)
    requires k <= n && length <= n && w == Weight(n, length + 1)
    ensures k * w < Weight(n, length)
  {
    PowerPositive(n + 1, n - length);
    if length < n {
      PowerPositive(n + 1, n - length - 1);
      assert k * w <= n * w < (n + 1) * w;
    }
  }
}
