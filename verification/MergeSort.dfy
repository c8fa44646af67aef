/** The bottom-up merge sort of HASH_SRT. The functions say what one merge and one pass make of a
    sequence; the methods do it by relinking a doubly linked list in place. */
module MergeSort {
  import opened Seqs
  import opened DoublyLinked

  type Cmp = (Ref, Ref) -> int

  // ---- what is computed ----

  function Merge(cmp: Cmp, p: seq<Ref>, q: seq<Ref>): seq<Ref> {
    if p == [] then q
    else if q == [] then p
    else if Le(cmp, p[0], q[0]) then [p[0]] + Merge(cmp, p[1..], q)
    else [q[0]] + Merge(cmp, p, q[1..])
  }

  /** The test by which HASH_SRT takes the first of two elements */
  predicate Le(cmp: Cmp, a: Ref, b: Ref) {
    cmp(a, b) <= 0
  }

  function Min(a: int, b: int): int {
    if a <= b then a else b
  }

  /** One pass: merge neighbouring runs of length k. */
  function Pass(cmp: Cmp, s: seq<Ref>, k: nat): seq<Ref>
    requires k > 0
    decreases |s|
  {
    if s == [] then []
    else
      var a, b := Min(k, |s|), Min(2 * k, |s|);
      Merge(cmp, s[..a], s[a..b]) + Pass(cmp, s[b..], k)
  }

  // ---- what that means ----

  ghost predicate TotalPreorder(cmp: Cmp) {
    && (forall a, b :: cmp(a, b) <= 0 || cmp(b, a) <= 0)
    && (forall a, b, c :: cmp(a, b) <= 0 && cmp(b, c) <= 0 ==> cmp(a, c) <= 0)
  }

  ghost predicate Sorted(cmp: Cmp, s: seq<Ref>) {
    s == [] || ((forall x :: x in s[1..] ==> Le(cmp, s[0], x)) && Sorted(cmp, s[1..]))
  }

  /** The elements of `s` that compare equal to `g`, in the order in which they occur */
  ghost function Peers(cmp: Cmp, g: Ref, s: seq<Ref>): seq<Ref> {
    if s == [] then []
    else if Le(cmp, s[0], g) && Le(cmp, g, s[0]) then [s[0]] + Peers(cmp, g, s[1..])
    else Peers(cmp, g, s[1..])
  }

  ghost predicate Stable(cmp: Cmp, s: seq<Ref>, s': seq<Ref>) {
    forall g :: Peers(cmp, g, s') == Peers(cmp, g, s)
  }

  /** `out` is in the order of the comparison, and elements that compare equal both ways come in the order
      in which they are in `s`. */
  ghost predicate InOrder(cmp: Cmp, s: seq<Ref>, out: seq<Ref>) {
    && (forall i, j :: 0 <= i < j < |out| ==> cmp(out[i], out[j]) <= 0)
    && (forall a, b, i, j :: 0 <= a < b < |s| && 0 <= i < |out| && 0 <= j < |out| && out[i] == s[a] && out[j] == s[b] ==>
      cmp(s[a], s[b]) <= 0 && cmp(s[b], s[a]) <= 0 ==> i < j)
  }

  lemma {:induction false} SortedAt(cmp: Cmp, s: seq<Ref>, i: int, j: int)
    requires Sorted(cmp, s) && 0 <= i < j < |s|
    ensures cmp(s[i], s[j]) <= 0
  {
    if i == 0 {
      assert s[1..][j - 1] == s[j];
      assert Le(cmp, s[0], s[1..][j - 1]);
    } else {
      SortedAt(cmp, s[1..], i - 1, j - 1);
    }
  }

  /** Two peers are in the list of peers, the first of them first. */
  lemma {:induction false} PeersBefore(cmp: Cmp, g: Ref, s: seq<Ref>, i: int, j: int) returns (u: int, v: int)
    requires 0 <= i <= j < |s| && forall x :: x == s[i] || x == s[j] ==> cmp(x, g) <= 0 && cmp(g, x) <= 0
    ensures i < j ==> 0 <= u < v < |Peers(cmp, g, s)| && Peers(cmp, g, s)[u] == s[i] && Peers(cmp, g, s)[v] == s[j]
    ensures i == j ==> 0 <= v < |Peers(cmp, g, s)| && Peers(cmp, g, s)[v] == s[j]
  {
    if j == 0 {
      u, v := 0, 0;
    } else {
      u, v := PeersBefore(cmp, g, s[1..], if i == 0 then j - 1 else i - 1, j - 1);
      if Le(cmp, s[0], g) && Le(cmp, g, s[0]) {
        u, v := if i == 0 then 0 else u + 1, v + 1;
      }
    }
  }

  lemma {:induction false} PeersDistinct(cmp: Cmp, g: Ref, s: seq<Ref>)
    requires Distinct(s)
    ensures Distinct(Peers(cmp, g, s)) && forall x :: x in Peers(cmp, g, s) ==> x in s
  {
    if s != [] {
      PeersDistinct(cmp, g, s[1..]);
    }
  }

  /** A sorted and stable permutation is in order. */
  lemma SortedStableInOrder(cmp: Cmp, s: seq<Ref>, out: seq<Ref>)
    requires Distinct(s) && Sorted(cmp, out) && Stable(cmp, s, out) && TotalPreorder(cmp)
    ensures InOrder(cmp, s, out)
  {
    hide Sorted, Distinct, Peers;
    forall i, j | 0 <= i < j < |out| ensures cmp(out[i], out[j]) <= 0 {
      SortedAt(cmp, out, i, j);
    }
    forall a, b, i, j | 0 <= a < b < |s| && 0 <= i < |out| && 0 <= j < |out| && out[i] == s[a] && out[j] == s[b]
      ensures cmp(s[a], s[b]) <= 0 && cmp(s[b], s[a]) <= 0 ==> i < j
    {
      if cmp(s[a], s[b]) <= 0 && cmp(s[b], s[a]) <= 0 {
        PeersKeepOrder(cmp, s, out, a, b, i, j);
      }
    }
  }

  lemma PeersKeepOrder(cmp: Cmp, s: seq<Ref>, out: seq<Ref>, a: int, b: int, i: int, j: int)
    requires Distinct(s) && Stable(cmp, s, out) && TotalPreorder(cmp)
    requires 0 <= a < b < |s| && 0 <= i < |out| && 0 <= j < |out| && out[i] == s[a] && out[j] == s[b]
    requires cmp(s[a], s[b]) <= 0 && cmp(s[b], s[a]) <= 0
    ensures i < j
  {
    hide Distinct, Peers;
    var g := s[a];
    assert Peers(cmp, g, out) == Peers(cmp, g, s);
    assert Le(cmp, g, g);
    DistinctPair(s, a, b);
    PeersDistinct(cmp, g, s);
    DistinctAt(Peers(cmp, g, s));
    var u, v := PeersBefore(cmp, g, s, a, b);
    if j <= i {
      var u', v' := PeersBefore(cmp, g, out, j, i);
    }
  }

  lemma {:induction false} MergeMultiset(cmp: Cmp, p: seq<Ref>, q: seq<Ref>)
    ensures multiset(Merge(cmp, p, q)) == multiset(p) + multiset(q)
    decreases |p| + |q|
  {
    if p == [] || q == [] {
    } else if Le(cmp, p[0], q[0]) {
      assert p == [p[0]] + p[1..];
      MergeMultiset(cmp, p[1..], q);
    } else {
      assert q == [q[0]] + q[1..];
      MergeMultiset(cmp, p, q[1..]);
    }
  }

  lemma MergeMembers(cmp: Cmp, p: seq<Ref>, q: seq<Ref>)
    ensures forall x :: x in Merge(cmp, p, q) <==> x in p || x in q
  {
    MergeMultiset(cmp, p, q);
    forall x ensures x in Merge(cmp, p, q) <==> x in p || x in q {
      assert x in multiset(Merge(cmp, p, q)) <==> x in multiset(p) || x in multiset(q);
    }
  }

  lemma {:induction false} MergeSorted(cmp: Cmp, p: seq<Ref>, q: seq<Ref>)
    requires TotalPreorder(cmp) && Sorted(cmp, p) && Sorted(cmp, q)
    ensures Sorted(cmp, Merge(cmp, p, q))
    decreases |p| + |q|
  {
    if p == [] || q == [] {
    } else if Le(cmp, p[0], q[0]) {
      MergeSorted(cmp, p[1..], q);
      MergeMembers(cmp, p[1..], q);
      HeadLeast(cmp, q);
      SortedCons(cmp, p[0], Merge(cmp, p[1..], q));
    } else {
      MergeSorted(cmp, p, q[1..]);
      MergeMembers(cmp, p, q[1..]);
      HeadLeast(cmp, p);
      SortedCons(cmp, q[0], Merge(cmp, p, q[1..]));
    }
  }

  lemma SortedCons(cmp: Cmp, x: Ref, s: seq<Ref>)
    requires Sorted(cmp, s) && forall y :: y in s ==> Le(cmp, x, y)
    ensures Sorted(cmp, [x] + s)
  {
    assert ([x] + s)[1..] == s;
  }

  lemma HeadLeast(cmp: Cmp, s: seq<Ref>)
    requires TotalPreorder(cmp) && s != [] && Sorted(cmp, s)
    ensures forall x :: x in s ==> Le(cmp, s[0], x)
  {
    assert Le(cmp, s[0], s[0]);
    forall x | x in s ensures Le(cmp, s[0], x) {
      if x != s[0] {
        assert x in s[1..];
      }
    }
  }

  lemma {:induction false} PeersConcat(cmp: Cmp, g: Ref, s: seq<Ref>, t: seq<Ref>)
    ensures Peers(cmp, g, s + t) == Peers(cmp, g, s) + Peers(cmp, g, t)
  {
    if s == [] {
      assert s + t == t;
    } else {
      assert (s + t)[1..] == s[1..] + t;
      PeersConcat(cmp, g, s[1..], t);
    }
  }

  lemma {:induction false} NoPeers(cmp: Cmp, g: Ref, s: seq<Ref>)
    requires forall x :: x in s ==> !Le(cmp, x, g)
    ensures Peers(cmp, g, s) == []
  {
    if s != [] {
      NoPeers(cmp, g, s[1..]);
    }
  }

  lemma SortedTail(cmp: Cmp, s: seq<Ref>)
    requires Sorted(cmp, s) && s != []
    ensures Sorted(cmp, s[1..])
  {
  }

  /** A run that begins beyond a peer of g has no peers of g. */
  lemma PeerlessRun(cmp: Cmp, g: Ref, p: seq<Ref>, y: Ref)
    requires TotalPreorder(cmp) && Sorted(cmp, p) && p != [] && !Le(cmp, p[0], y) && Le(cmp, g, y)
    ensures Peers(cmp, g, p) == []
  {
    HeadLeast(cmp, p);
    var h := p[0];
    hide Sorted, Peers;
    forall x | x in p ensures !Le(cmp, x, g) {
      assert Le(cmp, x, g) ==> Le(cmp, h, g);
    }
    NoPeers(cmp, g, p);
  }

  lemma PeersOfCons(cmp: Cmp, g: Ref, x: Ref, s: seq<Ref>)
    ensures Peers(cmp, g, [x] + s) == (if Le(cmp, x, g) && Le(cmp, g, x) then [x] else []) + Peers(cmp, g, s)
  {
    assert ([x] + s)[1..] == s;
  }

  /** Merging keeps peers in order: those of the first run before those of the second. */
  lemma {:induction false} MergePeers(cmp: Cmp, g: Ref, p: seq<Ref>, q: seq<Ref>)
    requires TotalPreorder(cmp) && Sorted(cmp, p)
    ensures Peers(cmp, g, Merge(cmp, p, q)) == Peers(cmp, g, p) + Peers(cmp, g, q)
    decreases |p| + |q|
  {
    hide TotalPreorder, Sorted;
    if p == [] || q == [] {
    } else if Le(cmp, p[0], q[0]) {
      SortedTail(cmp, p);
      MergePeers(cmp, g, p[1..], q);
      PeersOfCons(cmp, g, p[0], Merge(cmp, p[1..], q));
      PeersOfCons(cmp, g, p[0], p[1..]);
      assert [p[0]] + p[1..] == p;
    } else {
      MergePeers(cmp, g, p, q[1..]);
      PeersOfCons(cmp, g, q[0], Merge(cmp, p, q[1..]));
      PeersOfCons(cmp, g, q[0], q[1..]);
      assert [q[0]] + q[1..] == q;
      if Le(cmp, q[0], g) && Le(cmp, g, q[0]) {
        PeerlessRun(cmp, g, p, q[0]);
      }
    }
  }

  /** Every aligned run of length k is sorted. */
  ghost predicate SortedRuns(cmp: Cmp, s: seq<Ref>, k: nat)
    requires k > 0
    decreases |s|
  {
    s == [] || (Sorted(cmp, s[..Min(k, |s|)]) && SortedRuns(cmp, s[Min(k, |s|)..], k))
  }

  lemma {:induction false} SingletonRuns(cmp: Cmp, s: seq<Ref>)
    ensures SortedRuns(cmp, s, 1)
  {
    if s != [] {
      SingletonRuns(cmp, s[1..]);
      assert s[..1][1..] == [];
    }
  }

  lemma {:induction false} PassMultiset(cmp: Cmp, s: seq<Ref>, k: nat)
    requires k > 0
    ensures multiset(Pass(cmp, s, k)) == multiset(s)
    decreases |s|
  {
    if s != [] {
      var a, b := Min(k, |s|), Min(2 * k, |s|);
      MergeMultiset(cmp, s[..a], s[a..b]);
      PassMultiset(cmp, s[b..], k);
      Split3(s, a, b);
    }
  }

  lemma Split3(s: seq<Ref>, a: int, b: int)
    requires 0 <= a <= b <= |s|
    ensures s == s[..a] + s[a..b] + s[b..]
    ensures multiset(s) == multiset(s[..a]) + multiset(s[a..b]) + multiset(s[b..])
  {
    assert s == s[..a] + s[a..b] + s[b..];
  }

  lemma PassLength(cmp: Cmp, s: seq<Ref>, k: nat)
    requires k > 0
    ensures |Pass(cmp, s, k)| == |s|
  {
    PassMultiset(cmp, s, k);
    assert |multiset(Pass(cmp, s, k))| == |multiset(s)|;
  }

  /** What the first merge of a pass works on: two sorted runs, and more of them behind. */
  lemma {:induction false} TwoRuns(cmp: Cmp, s: seq<Ref>, k: nat)
    requires k > 0 && s != [] && SortedRuns(cmp, s, k)
    ensures var a, b := Min(k, |s|), Min(2 * k, |s|);
      Sorted(cmp, s[..a]) && Sorted(cmp, s[a..b]) && SortedRuns(cmp, s[b..], k)
  {
    var a, b := Min(k, |s|), Min(2 * k, |s|);
    var t := s[a..];
    if t == [] {
      assert s[a..b] == [] && s[b..] == [];
    } else {
      assert t[..Min(k, |t|)] == s[a..b];
      assert t[Min(k, |t|)..] == s[b..];
    }
  }

  /** A pass doubles the length of the sorted runs. */
  lemma {:induction false} PassRuns(cmp: Cmp, s: seq<Ref>, k: nat)
    requires k > 0 && TotalPreorder(cmp) && SortedRuns(cmp, s, k)
    ensures SortedRuns(cmp, Pass(cmp, s, k), 2 * k)
    decreases |s|
  {
    if s != [] {
      var a, b := Min(k, |s|), Min(2 * k, |s|);
      TwoRuns(cmp, s, k);
      var m, rest := Merge(cmp, s[..a], s[a..b]), Pass(cmp, s[b..], k);
      MergeSorted(cmp, s[..a], s[a..b]);
      PassRuns(cmp, s[b..], k);
      MergeMultiset(cmp, s[..a], s[a..b]);
      PassLength(cmp, s[b..], k);
      assert |m| == b by { assert |multiset(m)| == |multiset(s[..a])| + |multiset(s[a..b])|; }
      assert (m + rest)[..b] == m && (m + rest)[b..] == rest;
      assert Min(2 * k, |m + rest|) == b;
    }
  }

  lemma {:induction false} PassPeers(cmp: Cmp, g: Ref, s: seq<Ref>, k: nat)
    requires k > 0 && TotalPreorder(cmp) && SortedRuns(cmp, s, k)
    ensures Peers(cmp, g, Pass(cmp, s, k)) == Peers(cmp, g, s)
    decreases |s|
  {
    if s != [] {
      var a, b := Min(k, |s|), Min(2 * k, |s|);
      TwoRuns(cmp, s, k);
      MergePeers(cmp, g, s[..a], s[a..b]);
      PassPeers(cmp, g, s[b..], k);
      PeersConcat(cmp, g, Merge(cmp, s[..a], s[a..b]), Pass(cmp, s[b..], k));
      PeersConcat(cmp, g, s[..a], s[a..b]);
      PeersConcat(cmp, g, s[..a] + s[a..b], s[b..]);
      Split3(s, a, b);
    }
  }

  lemma OneRun(cmp: Cmp, s: seq<Ref>, k: nat)
    requires k >= |s| > 0 && SortedRuns(cmp, s, k)
    ensures Sorted(cmp, s)
  {
    assert s[..|s|] == s;
  }

  // ---- how it is done in place ----

  /** The list built so far. The next link of its last element is still to be written. */
  ghost predicate Built(prev: Links, next: Links, out: seq<Ref>, list: Ref, tail: Ref) {
    && Distinct(out)
    && list == At(out, 0) && tail == At(out, |out| - 1)
    && (forall t :: 0 <= t < |out| ==> out[t] != NULL && out[t] in prev && out[t] in next)
    && (forall t {:trigger prev[out[t]]} :: 0 <= t < |out| ==> prev[out[t]] == At(out, t - 1))
    && (forall t {:trigger next[out[t]]} :: 0 <= t < |out| - 1 ==> next[out[t]] == At(out, t + 1))
  }

  /** The elements of `s` from position `lo` up to `hi` are still linked as they were. */
  ghost predicate Untouched(next: Links, s: seq<Ref>, out: seq<Ref>, lo: int, hi: int) {
    && (forall t :: lo <= t < hi && 0 <= t < |s| ==> s[t] != NULL && s[t] !in out && s[t] in next)
    && (forall t {:trigger next[s[t]]} :: lo <= t < hi && 0 <= t < |s| ==> next[s[t]] == At(s, t + 1))
  }

  /** In the middle of a merge: `out` is built, and s[i..pe] and s[j..] are still to come. */
  ghost predicate Merging(prev: Links, next: Links, list: Ref, tail: Ref, s: seq<Ref>, out: seq<Ref>, i: int, pe: int, j: int) {
    && Distinct(s) && 0 <= i <= pe <= j <= |s|
    && Built(prev, next, out, list, tail)
    && Untouched(next, s, out, i, pe)
    && Untouched(next, s, out, j, |s|)
  }

  /** The element taken next is not on the list yet, and leads on to the one behind it in its run. */
  lemma NextToEmit(prev: Links, next: Links, list: Ref, tail: Ref, s: seq<Ref>, out: seq<Ref>, i: int, pe: int, j: int, fromP: bool)
    requires Merging(prev, next, list, tail, s, out, i, pe, j) && if fromP then i < pe else j < |s|
    ensures var t := if fromP then i else j;
      s[t] != NULL && s[t] !in out && s[t] in next && next[s[t]] == At(s, t + 1)
    ensures Merging(prev, next, list, tail, s, out, if fromP then i + 1 else i, pe, if fromP then j else j + 1)
  {
  }

  lemma Emitted(prev: Links, next: Links, out: seq<Ref>, list: Ref, tail: Ref, e: Ref)
    requires Built(prev, next, out, list, tail) && e != NULL && e !in out && e in next
    ensures Built(prev[e := tail], if tail != NULL then next[tail := e] else next, out + [e],
                  if tail != NULL then list else e, e)
  {
    DistinctAt(out);
    var out', next' := out + [e], if tail != NULL then next[tail := e] else next;
    DistinctIntro(out');
    forall t {:trigger next'[out'[t]]} | 0 <= t < |out'| - 1 ensures next'[out'[t]] == At(out', t + 1) {
      assert out'[t] == out[t];
    }
  }

  lemma StillUntouched(next: Links, s: seq<Ref>, out: seq<Ref>, tail: Ref, e: int, lo: int, hi: int)
    requires Distinct(s) && Untouched(next, s, out, lo, hi) && 0 <= e < |s|
    requires tail == At(out, |out| - 1)
    requires !(lo <= e < hi)
    ensures Untouched(if tail != NULL then next[tail := s[e]] else next, s, out + [s[e]], lo, hi)
  {
    hide Distinct;
    DiffersAt(s, e);
    assert tail != NULL ==> tail in out;
  }

  /** What the list will be when the remainders of the two runs are merged onto it */
  ghost function Promise(cmp: Cmp, s: seq<Ref>, out: seq<Ref>, i: int, pe: int, j: int, qe: int): seq<Ref>
    requires 0 <= i <= pe <= j <= qe <= |s|
  {
    out + Merge(cmp, s[i..pe], s[j..qe])
  }

  /** Taking the first element of a run takes the first element of what the two runs merge to. */
  lemma TakeFirst(cmp: Cmp, s: seq<Ref>, out: seq<Ref>, i: int, pe: int, j: int, qe: int, fromP: bool)
    requires 0 <= i <= pe <= j <= qe <= |s|
    requires if fromP then i < pe && (j == qe || Le(cmp, s[i], s[j])) else j < qe && (i == pe || !Le(cmp, s[i], s[j]))
    ensures var e, i', j' := if fromP then s[i] else s[j], if fromP then i + 1 else i, if fromP then j else j + 1;
      Promise(cmp, s, out, i, pe, j, qe) == Promise(cmp, s, out + [e], i', pe, j', qe)
  {
    if fromP {
      assert s[i..pe][1..] == s[i + 1..pe];
    } else {
      assert s[j..qe][1..] == s[j + 1..qe];
    }
  }

  /** The variables of the merge loop: the list built so far and the two runs with their sizes */
  datatype Cursor = Cursor(list: Ref, tail: Ref, p: Ref, psize: nat, q: Ref, qsize: nat)

  ghost predicate InMerge(prev: Links, next: Links, c: Cursor, insize: nat,
                          s: seq<Ref>, out: seq<Ref>, i: int, pe: int, j: int, qe: int) {
    && Merging(prev, next, c.list, c.tail, s, out, i, pe, j)
    && j <= qe == Min(pe + insize, |s|)
    && c.psize == pe - i && c.qsize == insize - (j - pe)
    && (c.psize > 0 ==> c.p == s[i])
    && c.q == At(s, j)
  }

  /** One iteration of the merge loop: choose an element, advance its run, append it to the list. */
  method MergeStep(cmp: Cmp, prev0: Links, next0: Links, c0: Cursor, insize: nat,
                   ghost s: seq<Ref>, ghost out0: seq<Ref>, ghost i0: int, ghost pe: int, ghost j0: int, ghost qe: int)
    returns (prev: Links, next: Links, c: Cursor, ghost out: seq<Ref>, ghost i: int, ghost j: int)
    requires InMerge(prev0, next0, c0, insize, s, out0, i0, pe, j0, qe)
    requires c0.psize > 0 || (c0.qsize > 0 && c0.q != NULL)
    ensures InMerge(prev, next, c, insize, s, out, i, pe, j, qe)
    ensures Promise(cmp, s, out, i, pe, j, qe) == Promise(cmp, s, out0, i0, pe, j0, qe)
    ensures c.psize + c.qsize < c0.psize + c0.qsize
  {
    c, i, j := c0, i0, j0;
    var fromP :=
      if c.psize == 0 then false else if c.qsize == 0 || c.q == NULL then true else cmp(c.p, c.q) <= 0;
    TakeFirst(cmp, s, out0, i0, pe, j0, qe, fromP);
    NextToEmit(prev0, next0, c.list, c.tail, s, out0, i0, pe, j0, fromP);
    var e;
    if fromP {
      e := c.p;
      c := c.(p := next0[c.p], psize := c.psize - 1);
      i := i + 1;
    } else {
      e := c.q;
      c := c.(q := next0[c.q], qsize := c.qsize - 1);
      j := j + 1;
    }
    var list, tail;
    prev, next, list, tail, out := Emit(prev0, next0, c.list, c.tail, e, s, out0, if fromP then i0 else j0, i, pe, j);
    c := c.(list := list, tail := tail);
  }

  /** The merge loop of HASH_SRT: merge s[b..pe] and s[pe..qe] onto the list built so far. */
  method MergeRuns(cmp: Cmp, prev0: Links, next0: Links, c0: Cursor, insize: nat,
                   ghost s: seq<Ref>, ghost out0: seq<Ref>, ghost b: int)
    returns (prev: Links, next: Links, c: Cursor, ghost out: seq<Ref>)
    requires 0 <= b < |s| && insize > 0 && c0.qsize == insize
    requires InMerge(prev0, next0, c0, insize, s, out0, b, Min(b + insize, |s|), Min(b + insize, |s|), Min(b + 2 * insize, |s|))
    ensures var pe, qe := Min(b + insize, |s|), Min(b + 2 * insize, |s|);
      && out == out0 + Merge(cmp, s[b..pe], s[pe..qe])
      && c.q == At(s, qe)
      && Distinct(s) && Untouched(next, s, out, qe, |s|)
    ensures Built(prev, next, out, c.list, c.tail)
  {
    prev, next, c, out := prev0, next0, c0, out0;
    ghost var pe, qe := Min(b + insize, |s|), Min(b + 2 * insize, |s|);
    ghost var i, j := b, pe;
    while c.psize > 0 || (c.qsize > 0 && c.q != NULL)
      invariant InMerge(prev, next, c, insize, s, out, i, pe, j, qe)
      invariant Promise(cmp, s, out, i, pe, j, qe) == Promise(cmp, s, out0, b, pe, pe, qe)
      decreases c.psize + c.qsize
    {
      prev, next, c, out, i, j := MergeStep(cmp, prev, next, c, insize, s, out, i, pe, j, qe);
    }
    assert i == pe && j == qe;
    assert s[i..pe] == [] && s[j..qe] == [];
  }

  /** Append the element to the list built so far. */
  method Emit(prev0: Links, next0: Links, list0: Ref, tail0: Ref, e: Ref,
              ghost s: seq<Ref>, ghost out0: seq<Ref>, ghost t: int, ghost i: int, ghost pe: int, ghost j: int)
    returns (prev: Links, next: Links, list: Ref, tail: Ref, ghost out: seq<Ref>)
    requires 0 <= t < |s| && e == s[t] && (t < i || pe <= t < j)
    requires e != NULL && e !in out0 && e in next0 && Merging(prev0, next0, list0, tail0, s, out0, i, pe, j)
    ensures out == out0 + [e] && Merging(prev, next, list, tail, s, out, i, pe, j)
  {
    Emitted(prev0, next0, out0, list0, tail0, e);
    StillUntouched(next0, s, out0, tail0, t, i, pe);
    StillUntouched(next0, s, out0, tail0, t, j, |s|);
    prev, next, list := prev0, next0, list0;
    if tail0 != NULL {
      next := next[tail0 := e];
    } else {
      list := e;
    }
    prev := prev[e := tail0];
    tail := e;
    out := out0 + [e];
  }

  /** Step at most `insize` elements along the list from `p`, to where the second run begins. */
  method StepOff(next: Links, p: Ref, insize: nat, ghost s: seq<Ref>, ghost out: seq<Ref>, ghost b: int)
    returns (q: Ref, psize: nat)
    requires 0 <= b < |s| && insize > 0 && p == s[b] && Untouched(next, s, out, b, |s|)
    ensures psize == Min(insize, |s| - b) && q == At(s, Min(b + insize, |s|))
  {
    q, psize := p, 0;
    for i := 0 to insize
      invariant psize == i && b + psize < |s| && q == s[b + psize]
    {
      psize := psize + 1;
      q := next[q];
      if q == NULL {
        break;
      }
    }
  }

  /** Find the two runs that begin at `p0` and merge them onto the list built so far. */
  method MergeNext(cmp: Cmp, prev0: Links, next0: Links, list0: Ref, tail0: Ref, p0: Ref, insize: nat,
                   ghost s: seq<Ref>, ghost out0: seq<Ref>, ghost b: int)
    returns (prev: Links, next: Links, list: Ref, tail: Ref, p: Ref, ghost out: seq<Ref>)
    requires Distinct(s) && 0 <= b < |s| && insize > 0 && p0 == s[b]
    requires Built(prev0, next0, out0, list0, tail0) && Untouched(next0, s, out0, b, |s|)
    ensures var pe, qe := Min(b + insize, |s|), Min(b + 2 * insize, |s|);
      && out == out0 + Merge(cmp, s[b..pe], s[pe..qe])
      && p == At(s, qe)
      && Untouched(next, s, out, qe, |s|)
    ensures Built(prev, next, out, list, tail)
  {
    var q, psize := StepOff(next0, p0, insize, s, out0, b);
    var c := Cursor(list0, tail0, p0, psize, q, insize);
    StartMerge(prev0, next0, c, insize, s, out0, b);
    prev, next, c, out := MergeRuns(cmp, prev0, next0, c, insize, s, out0, b);
    list, tail, p := c.list, c.tail, c.q;
  }

  lemma PassStep(cmp: Cmp, s: seq<Ref>, b: int, k: nat)
    requires 0 <= b < |s| && k > 0
    ensures var pe, qe := Min(b + k, |s|), Min(b + 2 * k, |s|);
      Pass(cmp, s[b..], k) == Merge(cmp, s[b..pe], s[pe..qe]) + Pass(cmp, s[qe..], k)
  {
    var pe, qe, t := Min(b + k, |s|), Min(b + 2 * k, |s|), s[b..];
    assert t[..Min(k, |t|)] == s[b..pe];
    assert t[Min(k, |t|)..Min(2 * k, |t|)] == s[pe..qe];
    assert t[Min(2 * k, |t|)..] == s[qe..];
  }

  lemma StartMerge(prev: Links, next: Links, c: Cursor, insize: nat, s: seq<Ref>, out: seq<Ref>, b: int)
    requires Distinct(s) && 0 <= b < |s| && insize > 0 && c.qsize == insize
    requires Built(prev, next, out, c.list, c.tail) && Untouched(next, s, out, b, |s|)
    requires c.psize == Min(insize, |s| - b) && c.p == s[b] && c.q == At(s, Min(b + insize, |s|))
    ensures InMerge(prev, next, c, insize, s, out, b, Min(b + insize, |s|), Min(b + insize, |s|), Min(b + 2 * insize, |s|))
  {
  }

  /** Ending the list turns what was built into a well-formed list. */
  lemma Finish(prev: Links, next: Links, out: seq<Ref>, list: Ref, tail: Ref)
    requires Built(prev, next, out, list, tail) && out != []
    ensures DList(prev, next[tail := NULL], out)
  {
    DistinctAt(out);
  }

  /** Merge neighbouring runs of `insize` elements until the list is used up, and count the merges. */
  method MergeAll(cmp: Cmp, prev0: Links, next0: Links, list0: Ref, insize: nat, ghost s: seq<Ref>)
    returns (prev: Links, next: Links, list: Ref, tail: Ref, nmerges: nat, ghost out: seq<Ref>)
    requires Distinct(s) && Untouched(next0, s, [], 0, |s|) && list0 == At(s, 0) && insize > 0
    ensures out == Pass(cmp, s, insize) && Built(prev, next, out, list, tail)
    ensures nmerges <= 1 <==> |s| <= 2 * insize
  {
    hide Untouched, Merge, Built, Pass, Distinct;
    prev, next, list, tail, nmerges, out := prev0, next0, NULL, NULL, 0, [];
    var p := list0;
    ghost var b: int := 0;
    BuiltNothing(prev, next);
    assert s[0..] == s;
    while p != NULL
      invariant 0 <= b <= |s| && p == At(s, b)
      invariant Built(prev, next, out, list, tail)
      invariant Untouched(next, s, out, b, |s|)
      invariant out + Pass(cmp, s[b..], insize) == Pass(cmp, s, insize)
      invariant nmerges == 0 ==> b == 0
      invariant nmerges == 1 ==> b == Min(2 * insize, |s|)
      invariant nmerges > 1 ==> |s| > 2 * insize
      decreases |s| - b
    {
      nmerges := nmerges + 1;
      PassStep(cmp, s, b, insize);
      prev, next, list, tail, p, out := MergeNext(cmp, prev, next, list, tail, p, insize, s, out, b);
      b := Min(b + 2 * insize, |s|);
    }
    UsedUp(cmp, next, s, out, b, insize);
    assert out + [] == out;
  }

  lemma UsedUp(cmp: Cmp, next: Links, s: seq<Ref>, out: seq<Ref>, b: int, k: nat)
    requires 0 <= b <= |s| && At(s, b) == NULL && Untouched(next, s, out, b, |s|) && k > 0
    ensures b == |s| && Pass(cmp, s[b..], k) == []
  {
  }

  lemma BuiltNothing(prev: Links, next: Links)
    ensures Built(prev, next, [], NULL, NULL)
  {
  }

  /** One pass over the list. */
  method SortPass(cmp: Cmp, prev0: Links, next0: Links, list0: Ref, insize: nat, ghost s: seq<Ref>)
    returns (prev: Links, next: Links, list: Ref, tail: Ref, nmerges: nat, ghost out: seq<Ref>)
    requires DList(prev0, next0, s) && s != [] && list0 == s[0] && insize > 0
    ensures out == Pass(cmp, s, insize)
    ensures DList(prev, next, out) && list == At(out, 0) && tail == At(out, |out| - 1)
    ensures nmerges <= 1 <==> |s| <= 2 * insize
  {
    prev, next, list, tail, nmerges, out := MergeAll(cmp, prev0, next0, list0, insize, s);
    PassLength(cmp, s, insize);
    Finish(prev, next, out, list, tail);
    if tail != NULL {
      next := next[tail := NULL];
    }
  }

  /** HASH_SRT on the list alone. Whatever the comparison does, the result is a well-formed list of
      the same elements; under a total preorder it is sorted, and stable. */
  method SortList(cmp: Cmp, prev0: Links, next0: Links, list0: Ref, ghost s: seq<Ref>)
    returns (prev: Links, next: Links, list: Ref, tail: Ref, ghost out: seq<Ref>)
    requires DList(prev0, next0, s) && s != [] && list0 == s[0]
    ensures DList(prev, next, out) && list == At(out, 0) && tail == At(out, |out| - 1)
    ensures multiset(out) == multiset(s)
    ensures TotalPreorder(cmp) ==> Sorted(cmp, out) && Stable(cmp, s, out) && InOrder(cmp, s, out)
  {
    hide DList, Distinct, InOrder, Pass, Sorted, SortedRuns, TotalPreorder, Stable;
    var insize := 1;
    var looping := true;
    prev, next, list, tail, out := prev0, next0, list0, NULL, s;
    StartSorting(cmp, s);
    DistinctList(prev0, next0, s);
    while looping
      invariant insize > 0 && out != [] && list == out[0]
      invariant DList(prev, next, out)
      invariant multiset(out) == multiset(s)
      invariant TotalPreorder(cmp) ==> SortedRuns(cmp, out, insize) && Stable(cmp, s, out)
      invariant !looping ==> |out| <= insize && tail == At(out, |out| - 1)
      decreases looping, |s| - insize
    {
      ghost var before := out;
      var nmerges;
      prev, next, list, tail, nmerges, out := SortPass(cmp, prev, next, list, insize, out);
      PassImproves(cmp, s, before, insize);
      if nmerges <= 1 {
        looping := false;
      }
      insize := insize * 2;
    }
    if TotalPreorder(cmp) {
      OneRun(cmp, out, insize);
      SortedStableInOrder(cmp, s, out);
    }
  }

  lemma DistinctList(prev: Links, next: Links, s: seq<Ref>)
    requires DList(prev, next, s)
    ensures Distinct(s)
  {
  }

  lemma StartSorting(cmp: Cmp, s: seq<Ref>)
    ensures TotalPreorder(cmp) ==> SortedRuns(cmp, s, 1) && Stable(cmp, s, s)
  {
    SingletonRuns(cmp, s);
  }

  /** A pass permutes the elements, doubles the sorted runs and keeps equal elements in their order. */
  lemma PassImproves(cmp: Cmp, s: seq<Ref>, before: seq<Ref>, insize: nat)
    requires insize > 0 && multiset(before) == multiset(s)
    requires TotalPreorder(cmp) ==> SortedRuns(cmp, before, insize) && Stable(cmp, s, before)
    ensures var out := Pass(cmp, before, insize);
      && multiset(out) == multiset(s) && |out| == |before| == |s|
      && (TotalPreorder(cmp) ==> SortedRuns(cmp, out, insize * 2) && Stable(cmp, s, out))
  {
    hide Pass, Sorted, SortedRuns, TotalPreorder;
    PassMultiset(cmp, before, insize);
    SameCount(before, s);
    PassLength(cmp, before, insize);
    if TotalPreorder(cmp) {
      PassRuns(cmp, before, insize);
      forall g ensures Peers(cmp, g, Pass(cmp, before, insize)) == Peers(cmp, g, s) {
        PassPeers(cmp, g, before, insize);
      }
    }
  }

  lemma Permuted(s: seq<Ref>, t: seq<Ref>)
    requires multiset(s) == multiset(t)
    ensures forall e :: e in s <==> e in t
  {
    assert forall e :: e in s <==> e in multiset(s);
    assert forall e :: e in t <==> e in multiset(t);
  }

  lemma SameCount(s: seq<Ref>, t: seq<Ref>)
    requires multiset(s) == multiset(t)
    ensures |s| == |t|
  {
    assert |multiset(s)| == |multiset(t)|;
  }
}
