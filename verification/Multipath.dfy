/** Path computation of the multipath controller, ryu_multipath.py. */
module Multipath {
  import opened Seqs
  import opened Options
  import opened SimplePaths
  import opened PathRanking
  import opened PortMaps

  const MAX_PATHS: nat := 2

  /** An entry of the search stack: the switch reached and the path that leads to it */
  datatype Entry = Entry(node: Node, path: Path)

  ghost function Pending(stack: seq<Entry>): (p: seq<Path>)
    ensures |p| == |stack|
  {
    seq(|stack|, i requires 0 <= i < |stack| => stack[i].path)
  }

  ghost predicate StackOk(dst: Node, stack: seq<Entry>) {
    forall i :: 0 <= i < |stack| ==>
      stack[i].path != [] && stack[i].node == stack[i].path[|stack[i].path| - 1] && dst !in stack[i].path
  }

  lemma PendingPush(stack: seq<Entry>, e: Entry)
    ensures Pending(stack + [e]) == Pending(stack) + [e.path]
  {
  }

  lemma SameSwitch(adj: Adjacency, src: Node, p: Path)
    ensures SimplePath(adj, src, src, p) <==> p == [src]
  {
    DistinctIntro([src]);
    if SimplePath(adj, src, src, p) {
      DistinctAt(p);
    }
  }

  /** One turn of the inner loop: the next child is either found or pushed. */
  lemma ChildStep(adj: Adjacency, src: Node, dst: Node, pending: seq<Path>, q: Path, next: seq<Node>, i: int,
                  found: seq<Path>)
    requires 0 <= i < |next| && Frontier(adj, src, dst, pending + Children(q, next[i..]), found)
    ensures var child := q + [next[i]];
      if next[i] == dst then
        && Frontier(adj, src, dst, pending + Children(q, next[i + 1..]), found + [child])
        && TotalWeight(|Nodes(adj, src)|, pending + Children(q, next[i + 1..]))
           <= TotalWeight(|Nodes(adj, src)|, pending + Children(q, next[i..]))
      else pending + Children(q, next[i..]) == pending + [child] + Children(q, next[i + 1..])
  {
    var child, rest, n := q + [next[i]], Children(q, next[i + 1..]), |Nodes(adj, src)|;
    assert next[i..][1..] == next[i + 1..];
    assert pending + Children(q, next[i..]) == pending + [child] + rest;
    if next[i] == dst {
      Found(adj, src, dst, pending, child, rest, found);
      WeightConcat(n, pending + [child], rest);
      WeightConcat(n, pending, [child]);
      WeightConcat(n, pending, rest);
    }
  }

  lemma PopStep(adj: Adjacency, src: Node, dst: Node, rest: seq<Path>, q: Path, next: seq<Node>, found: seq<Path>)
    requires Frontier(adj, src, dst, rest + [q], found) && dst !in q && Expansion(adj, q, next)
    ensures Frontier(adj, src, dst, rest + Children(q, next), found)
    ensures var n := |Nodes(adj, src)|;
      TotalWeight(n, rest + Children(q, next)) < TotalWeight(n, rest + [q])
  {
    Expand(adj, src, dst, rest, q, next, found);
    assert (rest + [q])[|rest|] == q;
    ExpansionIsLighter(adj, src, dst, q, next);
    var n := |Nodes(adj, src)|;
    WeightConcat(n, rest, Children(q, next));
    WeightConcat(n, rest, [q]);
  }

  class ProjectController {
    var adjacency: Adjacency
    var bandwidths: Bandwidths

    /** Every simple path from src to dst, only such paths, and each exactly once; the search ends on
        every finite graph. */
    method GetPaths(src: Node, dst: Node) returns (paths: seq<Path>)
      ensures Distinct(paths) && forall i, j :: 0 <= i < j < |paths| ==> paths[i] != paths[j]
      ensures forall p :: p in paths <==> SimplePath(adjacency, src, dst, p)
    {
      if src == dst {
        DistinctIntro([[src]]);
        forall p ensures p in [[src]] <==> SimplePath(adjacency, src, dst, p) {
          SameSwitch(adjacency, src, p);
        }
        return [[src]];
      }
      paths := [];
      var stack := [Entry(src, [src])];
      Start(adjacency, src, dst);
      assert Pending(stack) == [[src]];
      while stack != []
        invariant StackOk(dst, stack)
        invariant Frontier(adjacency, src, dst, Pending(stack), paths)
        decreases TotalWeight(|Nodes(adjacency, src)|, Pending(stack))
      {
        stack, paths := Visit(src, dst, stack, paths);
      }
      forall p ensures p in paths <==> SimplePath(adjacency, src, dst, p) {
        assert !Covered(Pending(stack), p);
      }
      DistinctAt(paths);
    }

    /** One turn of the outer loop: pop an entry, and follow every link to a switch it has not visited. */
    method Visit(src: Node, dst: Node, stack0: seq<Entry>, paths0: seq<Path>) returns (stack: seq<Entry>, paths: seq<Path>)
      requires stack0 != [] && StackOk(dst, stack0)
      requires Frontier(adjacency, src, dst, Pending(stack0), paths0)
      ensures StackOk(dst, stack)
      ensures Frontier(adjacency, src, dst, Pending(stack), paths)
      ensures TotalWeight(|Nodes(adjacency, src)|, Pending(stack)) < TotalWeight(|Nodes(adjacency, src)|, Pending(stack0))
    {
      hide Frontier, TotalWeight, Distinct, Nodes;
      var top := stack0[|stack0| - 1];
      stack, paths := stack0[..|stack0| - 1], paths0;
      assert stack0 == stack + [top];
      PendingPush(stack, top);
      var q := top.path;
      var next := Enumerate(Neighbours(adjacency, top.node) - set x | x in q);
      ghost var n := |Nodes(adjacency, src)|;
      ghost var w := TotalWeight(n, Pending(stack0));
      PopStep(adjacency, src, dst, Pending(stack), q, next, paths);
      assert next[0..] == next;
      for i := 0 to |next|
        invariant StackOk(dst, stack)
        invariant Frontier(adjacency, src, dst, Pending(stack) + Children(q, next[i..]), paths)
        invariant TotalWeight(n, Pending(stack) + Children(q, next[i..])) < w
      {
        ChildStep(adjacency, src, dst, Pending(stack), q, next, i, paths);
        if next[i] == dst {
          paths := paths + [q + [next[i]]];
        } else {
          PendingPush(stack, Entry(next[i], q + [next[i]]));
          stack := stack + [Entry(next[i], q + [next[i]])];
        }
      }
      assert Pending(stack) + Children(q, next[|next|..]) == Pending(stack);
    }

    /** The cost of a path, or none where the program raises an exception for one of its links. */
    method GetPathCost(path: Path) returns (cost: Option<nat>)
      ensures cost == PathCost(adjacency, bandwidths, path)
    {
      var sum := 0;
      var links := if path == [] then 0 else |path| - 1;
      for i := 0 to links
        invariant Plus(Some(sum), PathCost(adjacency, bandwidths, path[i..])) == PathCost(adjacency, bandwidths, path)
      {
        assert path[i..][1..] == path[i + 1..];
        match LinkCost(adjacency, bandwidths, path[i], path[i + 1])
        case None => return None;
        case Some(c) => sum := sum + c;
      }
      return Some(sum);
    }

    /** The MAX_PATHS cheapest simple paths, or all of them when there are fewer, cheapest first. There
        is no result exactly when some simple path has no cost. */
    method GetOptimalPaths(src: Node, dst: Node) returns (best: Option<seq<Path>>)
      ensures best.None? <==> exists p :: SimplePath(adjacency, src, dst, p) && PathCost(adjacency, bandwidths, p).None?
      ensures best.Some? ==>
        && |best.value| <= 2
        && (forall p :: p in best.value ==> SimplePath(adjacency, src, dst, p))
        && (forall p :: SimplePath(adjacency, src, dst, p) && p !in best.value ==> |best.value| == 2)
        && (forall i, j :: 0 <= i < j < |best.value| ==> best.value[i] != best.value[j])
      ensures best.Some? ==>
        forall p :: SimplePath(adjacency, src, dst, p) ==> PathCost(adjacency, bandwidths, p).Some?
      ensures best.Some? ==>
        var adj, bw := adjacency, bandwidths;
        && (forall i, j :: 0 <= i < j < |best.value| ==>
          PathCost(adj, bw, best.value[i]).value <= PathCost(adj, bw, best.value[j]).value)
        && (forall p, q :: SimplePath(adj, src, dst, p) && p !in best.value && q in best.value ==>
          PathCost(adj, bw, q).value <= PathCost(adj, bw, p).value)
    {
      hide SimplePath, PathCost, SortByCost, Distinct;
      var paths := GetPaths(src, dst);
      for i := 0 to |paths|
        invariant forall j :: 0 <= j < i ==> PathCost(adjacency, bandwidths, paths[j]).Some?
      {
        var cost := GetPathCost(paths[i]);
        if cost.None? {
          assert paths[i] in paths;
          return None;
        }
      }
      var count := if |paths| < MAX_PATHS then |paths| else MAX_PATHS;
      Cheapest(adjacency, bandwidths, paths, count);
      return Some(SortByCost(adjacency, bandwidths, paths)[..count]);
    }

    /** The port map of every path. */
    method AddPortsToPaths(paths: seq<Path>, first: Port, last: Port) returns (maps: seq<map<Node, Ports>>)
      requires forall p :: p in paths ==> p != [] && Distinct(p) && TwoWay(adjacency, p)
      ensures |maps| == |paths|
      ensures forall k :: 0 <= k < |paths| ==> IsPortMap(adjacency, paths[k], first, last, maps[k])
    {
      maps := [];
      for k := 0 to |paths|
        invariant |maps| == k
        invariant forall j :: 0 <= j < k ==> IsPortMap(adjacency, paths[j], first, last, maps[j])
      {
        assert paths[k] in paths;
        var m := AddPorts(paths[k], first, last);
        maps := maps + [m];
      }
    }

    method AddPorts(path: Path, first: Port, last: Port) returns (m: map<Node, Ports>)
      requires path != [] && Distinct(path) && TwoWay(adjacency, path)
      ensures IsPortMap(adjacency, path, first, last, m)
    {
      hide IsPortMap, PartialPortMap;
      EmptyPortMap(adjacency, path, first, last);
      m := map[];
      var inPort := first;
      for i := 0 to |path| - 1
        invariant inPort == InPort(adjacency, path, first, i)
        invariant PartialPortMap(adjacency, path, first, last, m, i)
      {
        PartialPortMapNext(adjacency, path, first, last, m, i);
        assert HopBothWays(adjacency, path, i);
        var outPort := adjacency[path[i]][path[i + 1]];
        m := m[path[i] := (inPort, outPort)];
        inPort := adjacency[path[i + 1]][path[i]];
      }
      PartialPortMapNext(adjacency, path, first, last, m, |path| - 1);
      m := m[path[|path| - 1] := (inPort, last)];
      WholePortMap(adjacency, path, first, last, m);
    }

    /** A link event records both of its ends. */
    method LinkAdd(a: Node, pa: Port, b: Node, pb: Port)
      modifies `adjacency
      ensures adjacency == SetPort(SetPort(old(adjacency), a, b, pa), b, a, pb)
      ensures forall x, y :: x in adjacency && y in adjacency[x] <==>
        (x in old(adjacency) && y in old(adjacency)[x]) || (x == a && y == b) || (x == b && y == a)
      ensures forall x, y :: x in adjacency && y in adjacency[x] ==>
        adjacency[x][y] == if x == b && y == a then pb else if x == a && y == b then pa else old(adjacency)[x][y]
      ensures Symmetric(old(adjacency)) ==> Symmetric(adjacency)
    {
      AddSymmetric(adjacency, a, pa, b, pb);
      adjacency := adjacency[a := (if a in adjacency then adjacency[a] else map[])[b := pa]];
      adjacency := adjacency[b := (if b in adjacency then adjacency[b] else map[])[a := pb]];
    }

    /** Removes both ends; raises KeyError, and stops there, at the first that is not recorded. */
    method LinkDelete(a: Node, b: Node) returns (ok: bool)
      modifies `adjacency
      ensures ok <==> a != b && (a in old(adjacency) && b in old(adjacency)[a]) && (b in old(adjacency) && a in old(adjacency)[b])
      ensures forall x, y :: x in adjacency && y in adjacency[x] <==>
        (x in old(adjacency) && y in old(adjacency)[x]) && !(x == a && y == b) && !(ok && x == b && y == a)
      ensures forall x, y :: x in adjacency && y in adjacency[x] ==> adjacency[x][y] == old(adjacency)[x][y]
      ensures ok ==> adjacency == DropPort(DropPort(old(adjacency), a, b), b, a)
      ensures Symmetric(old(adjacency)) ==> Symmetric(adjacency)
      ensures !ok ==> adjacency == if Edge(old(adjacency), a, b) then DropPort(old(adjacency), a, b) else old(adjacency)
      ensures PortsInjective(old(adjacency)) ==> PortsInjective(adjacency)
    {
      DropKeeps(adjacency, a, b);
      DropKeeps(DropPort(adjacency, a, b), b, a);
      if !Edge(adjacency, a, b) {
        return false;
      }
      adjacency := DropPort(adjacency, a, b);
      if !Edge(adjacency, b, a) {
        return false;
      }
      adjacency := DropPort(adjacency, b, a);
      return true;
    }
  }

  /** The first `k` of the ranked paths: distinct, among the paths, cheapest first, none cheaper left out. */
  lemma Cheapest(adj: Adjacency, bw: Bandwidths, paths: seq<Path>, k: nat)
    requires k <= |paths| && Distinct(paths)
    requires forall p :: p in paths ==> PathCost(adj, bw, p).Some?
    ensures |SortByCost(adj, bw, paths)| == |paths|
    ensures var s := SortByCost(adj, bw, paths)[..k];
      && (forall p :: p in s ==> p in paths)
      && (forall p :: p in paths && p !in s ==> k < |paths|)
      && (forall i, j :: 0 <= i < j < k ==> s[i] != s[j])
      && (forall i, j :: 0 <= i < j < k ==> PathCost(adj, bw, s[i]).value <= PathCost(adj, bw, s[j]).value)
      && (forall p, q :: p in paths && p !in s && q in s ==> PathCost(adj, bw, q).value <= PathCost(adj, bw, p).value)
  {
    hide SortByCost, PathCost, Distinct;
    var s := SortByCost(adj, bw, paths);
    SortRanked(adj, bw, paths);
    PermutedPaths(paths, s);
    DistinctPermuted(paths, s);
    DistinctAt(s);
    assert s[..|s|] == s;
    assert forall i :: 0 <= i < k ==> s[..k][i] == s[i] && s[i] in paths;
    forall p, q | p in paths && p !in s[..k] && q in s[..k] ensures Key(adj, bw, q) <= Key(adj, bw, p) {
      RankedPrefix(adj, bw, s, k, p, q);
    }
  }

  lemma PermutedPaths(s: seq<Path>, t: seq<Path>)
    requires multiset(s) == multiset(t)
    ensures |s| == |t| && forall p :: p in s <==> p in t
  {
    assert |multiset(s)| == |multiset(t)|;
    forall p ensures p in s <==> p in t {
      assert p in multiset(s) <==> p in multiset(t);
    }
  }

  lemma AddSymmetric(adj: Adjacency, a: Node, pa: Port, b: Node, pb: Port)
    ensures Symmetric(adj) ==> Symmetric(SetPort(SetPort(adj, a, b, pa), b, a, pb))
  {
    var adj1 := SetPort(adj, a, b, pa);
    forall x, y ensures Edge(SetPort(adj1, b, a, pb), x, y) <==> Edge(adj, x, y) || (x == a && y == b) || (x == b && y == a) {
      EdgeAfterSet(adj, a, b, pa, x, y);
      EdgeAfterSet(adj1, b, a, pb, x, y);
    }
  }

  lemma DropKeeps(adj: Adjacency, a: Node, b: Node)
    ensures PortsInjective(adj) ==> PortsInjective(DropPort(adj, a, b))
    ensures Symmetric(adj) ==> Symmetric(DropPort(DropPort(adj, a, b), b, a))
    ensures Symmetric(adj) && a == b ==> Symmetric(DropPort(adj, a, b))
  {
    var adj1 := DropPort(adj, a, b);
    forall x, y
      ensures Edge(adj1, x, y) <==> Edge(adj, x, y) && !(x == a && y == b)
      ensures Edge(adj1, x, y) ==> adj1[x][y] == adj[x][y]
    {
      EdgeAfterDrop(adj, a, b, x, y);
    }
    forall x, y ensures Edge(DropPort(adj1, b, a), x, y) <==> Edge(adj1, x, y) && !(x == b && y == a) {
      EdgeAfterDrop(adj1, b, a, x, y);
    }
  }
}
