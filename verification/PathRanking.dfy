/** Link and path costs, and the ranking of paths by cost. */
module PathRanking {
  import opened Options
  import opened Seqs
  import opened SimplePaths

  type Bandwidths = map<Node, map<Port, nat>>

  const REFERENCE_BW: nat := 10000000
  const DEFAULT_BW: nat := 10000000

  function Bandwidth(bw: Bandwidths, s: Node, e: Port): nat {
    if s in bw && e in bw[s] then bw[s][e] else DEFAULT_BW
  }

  /** get_link_cost: none when a direction of the link is missing (KeyError) or has no bandwidth
      (ZeroDivisionError) */
  function LinkCost(adj: Adjacency, bw: Bandwidths, s1: Node, s2: Node): Option<nat> {
    if !Edge(adj, s1, s2) || !Edge(adj, s2, s1) then None
    else
      var b1, b2 := Bandwidth(bw, s1, adj[s1][s2]), Bandwidth(bw, s2, adj[s2][s1]);
      var bl := if b1 <= b2 then b1 else b2;
      if bl == 0 then None else Some(REFERENCE_BW / bl)
  }

  function Plus(a: Option<nat>, b: Option<nat>): Option<nat> {
    if a.Some? && b.Some? then Some(a.value + b.value) else None
  }

  function PathCost(adj: Adjacency, bw: Bandwidths, p: Path): Option<nat> {
    if |p| <= 1 then Some(0) else Plus(LinkCost(adj, bw, p[0], p[1]), PathCost(adj, bw, p[1..]))
  }

  /** The cost of one link, in ports and bandwidths alone: none when a direction is not recorded or
      either end has no bandwidth, and otherwise how often the smaller of the two bandwidths fits into
      10 000 000, which also stands for a bandwidth that is not recorded. */
  lemma OneLink(adj: Adjacency, bw: Bandwidths, a: Node, b: Node)
    ensures a !in adj || b !in adj[a] || b !in adj || a !in adj[b] ==> PathCost(adj, bw, [a, b]).None?
    ensures a in adj && b in adj[a] && b in adj && a in adj[b] ==>
      var cost := PathCost(adj, bw, [a, b]);
      var b1 := if a in bw && adj[a][b] in bw[a] then bw[a][adj[a][b]] else 10_000_000;
      var b2 := if b in bw && adj[b][a] in bw[b] then bw[b][adj[b][a]] else 10_000_000;
      var m := if b1 < b2 then b1 else b2;
      && (cost.None? <==> b1 == 0 || b2 == 0)
      && (cost.Some? ==> cost.value * m <= 10_000_000 < (cost.value + 1) * m)
  {
    var link := LinkCost(adj, bw, a, b);
    assert PathCost(adj, bw, [a, b][1..]) == Some(0);
    assert PathCost(adj, bw, [a, b]) == link;
    if link.Some? {
      var b1, b2 := Bandwidth(bw, a, adj[a][b]), Bandwidth(bw, b, adj[b][a]);
      QuotientFits(10_000_000, if b1 <= b2 then b1 else b2);
    }
  }

  lemma QuotientFits(n: nat, m: nat)
    requires m > 0
    ensures n / m * m <= n < (n / m + 1) * m
  {
  }

  /** A path has a cost exactly when each of its links has. */
  lemma {:induction false} CostDefined(adj: Adjacency, bw: Bandwidths, p: Path)
    ensures PathCost(adj, bw, p).Some? <==>
      forall i {:trigger p[i]} :: 0 <= i < |p| - 1 ==> PathCost(adj, bw, [p[i], p[i + 1]]).Some?
  {
    LinksHaveCost(adj, bw, p);
    forall a, b ensures PathCost(adj, bw, [a, b]) == LinkCost(adj, bw, a, b) {
      assert PathCost(adj, bw, [a, b][1..]) == Some(0);
    }
  }

  lemma {:induction false} LinksHaveCost(adj: Adjacency, bw: Bandwidths, p: Path)
    ensures PathCost(adj, bw, p).Some? <==>
      forall i {:trigger p[i]} :: 0 <= i < |p| - 1 ==> LinkCost(adj, bw, p[i], p[i + 1]).Some?
  {
    if |p| > 1 {
      var t := p[1..];
      LinksHaveCost(adj, bw, t);
      if PathCost(adj, bw, p).Some? {
        forall i | 0 <= i < |p| - 1 ensures LinkCost(adj, bw, p[i], p[i + 1]).Some? {
          if i > 0 {
            assert t[i - 1] == p[i] && t[i] == p[i + 1];
          }
        }
      } else if LinkCost(adj, bw, p[0], p[1]).Some? {
        var i :| 0 <= i < |t| - 1 && LinkCost(adj, bw, t[i], t[i + 1]).None?;
        assert p[i + 1] == t[i] && p[i + 2] == t[i + 1];
      }
    }
  }

  function Reverse(p: Path): (r: Path)
    ensures |r| == |p|
  {
    if p == [] then [] else Reverse(p[1..]) + [p[0]]
  }

  lemma {:induction false} ReverseAt(p: Path, i: int)
    requires 0 <= i < |p|
    ensures Reverse(p)[i] == p[|p| - 1 - i]
  {
    if i < |p| - 1 {
      ReverseAt(p[1..], i);
    }
  }

  lemma {:induction false} ReverseMembers(p: Path, n: Node)
    ensures n in Reverse(p) <==> n in p
  {
    if p != [] {
      ReverseMembers(p[1..], n);
    }
  }

  lemma {:induction false} CostOfExtension(adj: Adjacency, bw: Bandwidths, p: Path, n: Node)
    requires p != []
    ensures PathCost(adj, bw, p + [n]) == Plus(PathCost(adj, bw, p), LinkCost(adj, bw, p[|p| - 1], n))
  {
    if |p| > 1 {
      assert (p + [n])[1..] == p[1..] + [n];
      CostOfExtension(adj, bw, p[1..], n);
    }
  }

  /** The cost of a path is the sum of the costs of its links: none for a single switch, and one more
      link adds its own cost. */
  lemma SumOfLinks(adj: Adjacency, bw: Bandwidths, p: Path, n: Node)
    ensures PathCost(adj, bw, [n]) == Some(0)
    ensures p != [] ==>
      var whole, start, link := PathCost(adj, bw, p + [n]), PathCost(adj, bw, p), PathCost(adj, bw, [p[|p| - 1], n]);
      && (whole.Some? <==> start.Some? && link.Some?)
      && (whole.Some? ==> whole.value == start.value + link.value)
  {
    if p != [] {
      CostOfExtension(adj, bw, p, n);
      assert PathCost(adj, bw, [p[|p| - 1], n][1..]) == Some(0);
    }
  }

  /** A path costs the same in either direction. */
  lemma {:induction false} ReverseCost(adj: Adjacency, bw: Bandwidths, p: Path)
    ensures PathCost(adj, bw, Reverse(p)) == PathCost(adj, bw, p)
  {
    if |p| > 1 {
      ReverseCost(adj, bw, p[1..]);
      ReverseAt(p[1..], |p| - 2);
      CostOfExtension(adj, bw, Reverse(p[1..]), p[0]);
      assert LinkCost(adj, bw, p[1], p[0]) == LinkCost(adj, bw, p[0], p[1]);
    }
  }

  ghost predicate Symmetric(adj: Adjacency) {
    forall a, b :: Edge(adj, a, b) ==> Edge(adj, b, a)
  }

  /** In a symmetric graph the simple paths from dst to src are the reversals of those from src to dst. */
  lemma ReverseSimple(adj: Adjacency, src: Node, dst: Node, p: Path)
    requires Symmetric(adj) && SimplePath(adj, src, dst, p)
    ensures SimplePath(adj, dst, src, Reverse(p))
  {
    var r := Reverse(p);
    ReverseAt(p, 0);
    ReverseAt(p, |p| - 1);
    DistinctAt(p);
    forall i, j | 0 <= i < j < |r| ensures r[i] != r[j] {
      ReverseAt(p, i);
      ReverseAt(p, j);
    }
    DistinctIntro(r);
    forall i | 0 <= i < |r| - 1 ensures Hop(adj, r, i) {
      ReverseAt(p, i);
      ReverseAt(p, i + 1);
      assert Hop(adj, p, |p| - 2 - i);
    }
  }

  // ---- ranking ----

  function Key(adj: Adjacency, bw: Bandwidths, p: Path): nat {
    var c := PathCost(adj, bw, p);
    if c.Some? then c.value else 0
  }

  function Insert(adj: Adjacency, bw: Bandwidths, p: Path, s: seq<Path>): seq<Path> {
    if s == [] || Key(adj, bw, p) <= Key(adj, bw, s[0]) then [p] + s
    else [s[0]] + Insert(adj, bw, p, s[1..])
  }

  /** What Python's sorted does with the path cost as its key */
  function SortByCost(adj: Adjacency, bw: Bandwidths, s: seq<Path>): seq<Path> {
    if s == [] then [] else Insert(adj, bw, s[0], SortByCost(adj, bw, s[1..]))
  }

  ghost predicate Ranked(adj: Adjacency, bw: Bandwidths, s: seq<Path>) {
    forall i, j :: 0 <= i < j < |s| ==> Key(adj, bw, s[i]) <= Key(adj, bw, s[j])
  }

  lemma {:induction false} InsertMultiset(adj: Adjacency, bw: Bandwidths, p: Path, s: seq<Path>)
    ensures multiset(Insert(adj, bw, p, s)) == multiset(s) + multiset{p}
  {
    if !(s == [] || Key(adj, bw, p) <= Key(adj, bw, s[0])) {
      InsertMultiset(adj, bw, p, s[1..]);
      assert s == [s[0]] + s[1..];
    }
  }

  lemma {:induction false} InsertRanked(adj: Adjacency, bw: Bandwidths, p: Path, s: seq<Path>)
    requires Ranked(adj, bw, s)
    ensures Ranked(adj, bw, Insert(adj, bw, p, s))
  {
    if !(s == [] || Key(adj, bw, p) <= Key(adj, bw, s[0])) {
      InsertRanked(adj, bw, p, s[1..]);
      var t := Insert(adj, bw, p, s[1..]);
      forall i | 0 <= i < |t| ensures Key(adj, bw, s[0]) <= Key(adj, bw, t[i]) {
        InsertedFrom(adj, bw, p, s[1..], i);
      }
    }
  }

  lemma InsertedFrom(adj: Adjacency, bw: Bandwidths, p: Path, s: seq<Path>, i: nat)
    requires i < |Insert(adj, bw, p, s)|
    ensures Insert(adj, bw, p, s)[i] == p || Insert(adj, bw, p, s)[i] in s
  {
    InsertMultiset(adj, bw, p, s);
    assert Insert(adj, bw, p, s)[i] in multiset(Insert(adj, bw, p, s));
  }

  lemma {:induction false} SortRanked(adj: Adjacency, bw: Bandwidths, s: seq<Path>)
    ensures Ranked(adj, bw, SortByCost(adj, bw, s))
    ensures multiset(SortByCost(adj, bw, s)) == multiset(s)
  {
    if s != [] {
      SortRanked(adj, bw, s[1..]);
      InsertRanked(adj, bw, s[0], SortByCost(adj, bw, s[1..]));
      InsertMultiset(adj, bw, s[0], SortByCost(adj, bw, s[1..]));
      assert s == [s[0]] + s[1..];
    }
  }

  /** A prefix of the ranking: none of the paths left out is cheaper than one that is kept. */
  lemma RankedPrefix(adj: Adjacency, bw: Bandwidths, s: seq<Path>, k: nat, p: Path, q: Path)
    requires Ranked(adj, bw, s) && k <= |s| && p in s && p !in s[..k] && q in s[..k]
    ensures Key(adj, bw, q) <= Key(adj, bw, p)
  {
    var i, j := IndexOf(s, p), IndexOf(s[..k], q);
    assert forall t :: 0 <= t < k ==> s[t] in s[..k];
  }
}
