/** The chained hash table of uthash.h. Every element sits on two doubly linked lists at once: the
    application-order list (prev/next) and the chain of its bucket (hhPrev/hhNext). The user's head
    pointer and the UT_hash_table that it leads to are the fields of one object here; `head` is NULL
    exactly when no table is allocated. */
module UtHash {
  import opened Bits
  import opened Seqs
  import opened DoublyLinked
  import opened BucketAccounting
  import opened MergeSort

  const HASH_INITIAL_NUM_BUCKETS: nat := 32
  const HASH_INITIAL_NUM_BUCKETS_LOG2: nat := 5
  const HASH_BKT_CAPACITY_THRESH: nat := 10

  /** The hash handles of the elements, each field as a map from the element's address */
  datatype Handles<K> = Handles(key: map<Ref, K>, hashv: map<Ref, nat>,
                                prev: Links, next: Links, hhPrev: Links, hhNext: Links)

  /** HASH_TO_BKT */
  function ToBkt(hashv: nat, numBuckets: nat): (b: nat)
    requires numBuckets > 0
    ensures b < numBuckets
  {
    And(hashv, numBuckets - 1)
  }

  /** Bucket `b` of `n` holds the chain `c`: its head pointer and its count describe the chain, and
      every element on the chain hashes to this bucket. */
  ghost predicate ChainOk(hhPrev: Links, hhNext: Links, hashv: map<Ref, nat>, c: seq<Ref>, bkt: Bucket, b: nat, n: nat)
    requires n > 0
  {
    && DList(hhPrev, hhNext, c)
    && bkt.head == At(c, 0)
    && bkt.count == |c|
    && (forall e :: e in c ==> e in hashv && ToBkt(hashv[e], n) == b)
  }

  ghost predicate Chained(hhPrev: Links, hhNext: Links, hashv: map<Ref, nat>, chains: seq<seq<Ref>>, bkts: seq<Bucket>) {
    && |chains| == |bkts| > 0
    && (forall b :: 0 <= b < |bkts| ==> ChainOk(hhPrev, hhNext, hashv, chains[b], bkts[b], b, |bkts|))
  }

  /** The application-order list, with its head and tail pointers */
  ghost predicate AppListOk(prev: Links, next: Links, order: seq<Ref>, head: Ref, tail: Ref) {
    && DList(prev, next, order)
    && head == At(order, 0)
    && (order != [] ==> tail == At(order, |order| - 1))
  }

  lemma AppIsList(prev: Links, next: Links, order: seq<Ref>, head: Ref, tail: Ref)
    requires AppListOk(prev, next, order, head, tail) && head != NULL
    ensures DList(prev, next, order) && order != [] && head == order[0]
  {
  }

  lemma ListIsApp(prev: Links, next: Links, order: seq<Ref>, head: Ref, tail: Ref)
    requires DList(prev, next, order) && order != [] && head == At(order, 0) && tail == At(order, |order| - 1)
    ensures AppListOk(prev, next, order, head, tail) && head != NULL
  {
  }

  /** Unlinking one of several elements repairs the application-order list. */
  lemma AppUnlinked(prev: Links, next: Links, order: seq<Ref>, head: Ref, tail: Ref, i: int)
    requires AppListOk(prev, next, order, head, tail) && 0 <= i < |order| && |order| > 1
    ensures var x := order[i];
      && x in prev && x in next && x != prev[x] && x != next[x]
      && AppListOk(SkipBack(prev, prev[x], next[x]), SkipAhead(next, prev[x], next[x]), Without(order, i),
                   if prev[x] == NULL then next[x] else head, if x == tail then prev[x] else tail)
    ensures Without(order, i) != [] && At(Without(order, i), 0) != NULL
  {
    Unlink(prev, next, order, i);
    DistinctAt(order);
    assert prev[order[i]] == At(order, i - 1) && next[order[i]] == At(order, i + 1);
  }

  /** Every element carries the hash of its key. */
  ghost predicate Hashed<K>(hash: K -> nat, order: seq<Ref>, key: map<Ref, K>, hashv: map<Ref, nat>) {
    forall e :: e in order ==> e in key && e in hashv && hashv[e] == hash(key[e])
  }

  lemma HashedAppend<K>(hash: K -> nat, order: seq<Ref>, key: map<Ref, K>, hashv: map<Ref, nat>, x: Ref, k: K)
    requires Hashed(hash, order, key, hashv)
    ensures Hashed(hash, order + [x], key[x := k], hashv[x := hash(k)])
  {
  }

  lemma HashedSubset<K>(hash: K -> nat, whole: seq<Ref>, order: seq<Ref>, key: map<Ref, K>, hashv: map<Ref, nat>)
    requires Hashed(hash, whole, key, hashv) && forall e :: e in order ==> e in whole
    ensures Hashed(hash, order, key, hashv)
  {
  }

  /** Every element is on the chain of the bucket its hash selects, and the chains hold nothing else. */
  ghost predicate Filed(order: seq<Ref>, hashv: map<Ref, nat>, chains: seq<seq<Ref>>) {
    && |chains| > 0
    && (forall b, e :: 0 <= b < |chains| && e in chains[b] ==> e in order)
    && (forall e :: e in order ==> e in hashv && e in chains[ToBkt(hashv[e], |chains|)])
  }

  /** An element with NULL at both ends is the only one. */
  lemma OnlyElement(prev: Links, next: Links, order: seq<Ref>, i: int)
    requires DList(prev, next, order) && 0 <= i < |order|
    ensures order[i] in prev && order[i] in next
    ensures prev[order[i]] == NULL && next[order[i]] == NULL <==> |order| == 1
    ensures |order| == 1 ==> Without(order, i) == []
    ensures |Without(order, i)| == |order| - 1
    ensures forall e :: e in Without(order, i) <==> e in order && e != order[i]
    ensures DList(prev, next, []) && At(order, 0) != NULL
  {
    WithoutMembers(order, i);
    assert prev[order[i]] == At(order, i - 1) && next[order[i]] == At(order, i + 1);
  }

  lemma InitialBuckets()
    ensures Pow2(HASH_INITIAL_NUM_BUCKETS_LOG2) == HASH_INITIAL_NUM_BUCKETS
  {
    assert Pow2(3) == 8;
    assert Pow2(5) == 32;
  }

  /** The mask selects a bucket as the remainder does. */
  lemma BucketIs(hashv: nat, numBuckets: nat, lg: nat)
    requires numBuckets == Pow2(lg)
    ensures ToBkt(hashv, numBuckets) == hashv % numBuckets
  {
    AndLowMask(hashv, lg);
  }

  lemma ChainedLength(hhPrev: Links, hhNext: Links, hashv: map<Ref, nat>, chains: seq<seq<Ref>>, bkts: seq<Bucket>)
    requires Chained(hhPrev, hhNext, hashv, chains, bkts)
    ensures |chains| == |bkts| > 0
  {
  }

  lemma ChainMembers(hhPrev: Links, hhNext: Links, hashv: map<Ref, nat>, chains: seq<seq<Ref>>, bkts: seq<Bucket>)
    requires Chained(hhPrev, hhNext, hashv, chains, bkts)
    ensures forall c, e :: 0 <= c < |chains| && e in chains[c] ==> e in hashv && ToBkt(hashv[e], |chains|) == c
    ensures forall c :: 0 <= c < |chains| ==> Distinct(chains[c])
  {
    hide ToBkt, Distinct;
    forall c | 0 <= c < |chains|
      ensures Distinct(chains[c]) && forall e :: e in chains[c] ==> e in hashv && ToBkt(hashv[e], |chains|) == c
    {
      assert ChainOk(hhPrev, hhNext, hashv, chains[c], bkts[c], c, |bkts|);
    }
  }

  /** Pushing an element on the chain of its bucket keeps every chain well formed. */
  lemma PushChained(hhPrev: Links, hhNext: Links, hashv: map<Ref, nat>, chains: seq<seq<Ref>>, bkts: seq<Bucket>,
                    b: nat, x: Ref, expandMult: nat)
    requires Chained(hhPrev, hhNext, hashv, chains, bkts)
    requires b < |bkts| && x != NULL && x !in chains[b]
    requires x in hashv && ToBkt(hashv[x], |bkts|) == b
    ensures Chained(if bkts[b].head == NULL then hhPrev[x := NULL] else hhPrev[x := NULL][bkts[b].head := x],
                    hhNext[x := bkts[b].head], hashv,
                    chains[b := [x] + chains[b]], bkts[b := Bucket(x, bkts[b].count + 1, expandMult)])
  {
    var n := |bkts|;
    var h := bkts[b].head;
    var hhPrev' := if h == NULL then hhPrev[x := NULL] else hhPrev[x := NULL][h := x];
    var hhNext' := hhNext[x := h];
    var chains' := chains[b := [x] + chains[b]];
    var bkts' := bkts[b := Bucket(x, bkts[b].count + 1, expandMult)];
    forall i | 0 <= i < n ensures ChainOk(hhPrev', hhNext', hashv, chains'[i], bkts'[i], i, n) {
      assert ChainOk(hhPrev, hhNext, hashv, chains[i], bkts[i], i, n);
      assert ChainOk(hhPrev, hhNext, hashv, chains[b], bkts[b], b, n);
      if i == b {
        Push(hhPrev, hhNext, chains[b], x);
      } else {
        assert h != NULL ==> h in chains[b];
        Frame(hhPrev, hhNext, hhPrev', hhNext', chains[i]);
      }
    }
  }

  lemma PushFiled(rest: seq<Ref>, hashv: map<Ref, nat>, chains: seq<seq<Ref>>, x: Ref)
    requires Filed(rest, hashv, chains) && x !in rest && x in hashv
    ensures forall b :: 0 <= b < |chains| ==> x !in chains[b]
    ensures var b := ToBkt(hashv[x], |chains|); Filed(rest + [x], hashv, chains[b := [x] + chains[b]])
  {
    hide ToBkt;
  }

  /** Unlinking an element from the chain of its bucket keeps every chain well formed. */
  lemma UnlinkChained(hhPrev: Links, hhNext: Links, hashv: map<Ref, nat>, chains: seq<seq<Ref>>, bkts: seq<Bucket>,
                      b: nat, i: nat)
    requires Chained(hhPrev, hhNext, hashv, chains, bkts)
    requires b < |bkts| && i < |chains[b]|
    ensures var x := chains[b][i];
      && x in hhPrev && x in hhNext && bkts[b].count > 0
      && Chained(SkipBack(hhPrev, hhPrev[x], hhNext[x]), SkipAhead(hhNext, hhPrev[x], hhNext[x]), hashv,
                 chains[b := Without(chains[b], i)],
                 bkts[b := bkts[b].(head := if bkts[b].head == x then hhNext[x] else bkts[b].head, count := bkts[b].count - 1)])
  {
    var n := |bkts|;
    assert ChainOk(hhPrev, hhNext, hashv, chains[b], bkts[b], b, n);
    var c := chains[b];
    var x := c[i];
    var p, q := hhPrev[x], hhNext[x];
    var chains' := chains[b := Without(c, i)];
    var bkts' := bkts[b := bkts[b].(head := if bkts[b].head == x then q else bkts[b].head, count := bkts[b].count - 1)];
    forall j | 0 <= j < n
      ensures ChainOk(SkipBack(hhPrev, p, q), SkipAhead(hhNext, p, q), hashv, chains'[j], bkts'[j], j, n)
    {
      assert ChainOk(hhPrev, hhNext, hashv, chains[j], bkts[j], j, n);
      if j == b {
        Unlink(hhPrev, hhNext, c, i);
        WithoutMembers(c, i);
      } else {
        assert (p != NULL ==> p in c) && (q != NULL ==> q in c);
        Frame(hhPrev, hhNext, SkipBack(hhPrev, p, q), SkipAhead(hhNext, p, q), chains[j]);
      }
    }
  }

  /** The expansion loop has reached element `e` of old bucket `b`: its chain comes before `i`, or it
      is among the first `j` of chain `i`, which is `c`. */
  ghost predicate Reached(e: Ref, b: nat, i: nat, c: seq<Ref>, j: nat)
    requires j <= |c|
  {
    b < i || e in c[..j]
  }

  /** The state between two steps of the redistribution: the elements reached are exactly those on
      the new chains, and the others still have the links of the old chains. */
  ghost predicate Midway(order: seq<Ref>, hashv: map<Ref, nat>, n: nat, hhNext: Links, hhNext0: Links,
                         nc: seq<seq<Ref>>, i: nat, c: seq<Ref>, j: nat)
    requires j <= |c|
  {
    && 0 < n && |nc| == n * 2
    && (forall b, e :: 0 <= b < |nc| && e in nc[b] ==> e in order)
    && (forall e :: e in order ==>
      && e in hashv && e in hhNext0
      && (Reached(e, ToBkt(hashv[e], n), i, c, j) <==> e in nc[ToBkt(hashv[e], n * 2)])
      && (!Reached(e, ToBkt(hashv[e], n), i, c, j) ==> e in hhNext && hhNext[e] == hhNext0[e]))
  }

  lemma MidwayNext(order: seq<Ref>, hashv: map<Ref, nat>, n: nat, hhNext: Links, hhNext': Links, hhNext0: Links,
                   nc: seq<seq<Ref>>, nc': seq<seq<Ref>>, i: nat, c: seq<Ref>, j: nat)
    requires j < |c| && Distinct(c) && c[j] in order && c[j] in hashv
    requires Midway(order, hashv, n, hhNext, hhNext0, nc, i, c, j)
    requires var b := ToBkt(hashv[c[j]], n * 2); nc' == nc[b := [c[j]] + nc[b]]
    requires forall e :: e != c[j] && e in hhNext ==> e in hhNext' && hhNext'[e] == hhNext[e]
    ensures Midway(order, hashv, n, hhNext', hhNext0, nc', i, c, j + 1)
  {
    forall e | e in order
      ensures Reached(e, ToBkt(hashv[e], n), i, c, j + 1) <==> Reached(e, ToBkt(hashv[e], n), i, c, j) || e == c[j]
    {
      assert c[..j + 1] == c[..j] + [c[j]];
    }
  }

  lemma MidwayStart(order: seq<Ref>, hhPrev: Links, hhNext: Links, hashv: map<Ref, nat>, chains: seq<seq<Ref>>,
                    bkts: seq<Bucket>, nc: seq<seq<Ref>>)
    requires Chained(hhPrev, hhNext, hashv, chains, bkts)
    requires |nc| == |bkts| * 2 && forall b :: 0 <= b < |nc| ==> nc[b] == []
    requires Filed(order, hashv, chains)
    ensures Midway(order, hashv, |bkts|, hhNext, hhNext, nc, 0, [], 0)
  {
    forall e | e in order ensures e in hhNext {
      var b := ToBkt(hashv[e], |bkts|);
      assert ChainOk(hhPrev, hhNext, hashv, chains[b], bkts[b], b, |bkts|);
    }
  }

  /** What the expansion loop needs to know of old chain `i` in order to walk along it. */
  ghost predicate OldChain(order: seq<Ref>, hashv: map<Ref, nat>, n: nat, hhNext0: Links, c: seq<Ref>, head: Ref, i: nat)
    requires n > 0
  {
    && head == At(c, 0)
    && Distinct(c)
    && (forall k :: 0 <= k < |c| ==> c[k] != NULL && c[k] in order && c[k] in hashv && c[k] in hhNext0)
    && (forall k {:trigger hhNext0[c[k]]} :: 0 <= k < |c| ==> hhNext0[c[k]] == At(c, k + 1))
    && (forall e :: e in order ==> e in hashv && (e in c <==> ToBkt(hashv[e], n) == i))
  }

  lemma ChainsAreOld(order: seq<Ref>, hhPrev: Links, hhNext: Links, hashv: map<Ref, nat>, chains: seq<seq<Ref>>,
                     bkts: seq<Bucket>, i: nat)
    requires Chained(hhPrev, hhNext, hashv, chains, bkts) && i < |bkts|
    requires Filed(order, hashv, chains)
    ensures OldChain(order, hashv, |bkts|, hhNext, chains[i], bkts[i].head, i)
  {
    assert ChainOk(hhPrev, hhNext, hashv, chains[i], bkts[i], i, |bkts|);
  }

  lemma ChainDone(order: seq<Ref>, hashv: map<Ref, nat>, n: nat, hhNext: Links, hhNext0: Links,
                  nc: seq<seq<Ref>>, i: nat, c: seq<Ref>)
    requires Midway(order, hashv, n, hhNext, hhNext0, nc, i, c, |c|)
    requires forall e :: e in order ==> (e in c <==> ToBkt(hashv[e], n) == i)
    ensures Midway(order, hashv, n, hhNext, hhNext0, nc, i + 1, [], 0)
  {
    assert c[..|c|] == c;
    forall e | e in order
      ensures Reached(e, ToBkt(hashv[e], n), i, c, |c|) <==> Reached(e, ToBkt(hashv[e], n), i + 1, [], 0)
    {
    }
  }

  /** The next element of the old chain is on no new chain yet, and still has its old link. */
  lemma MidwayHere(order: seq<Ref>, hashv: map<Ref, nat>, n: nat, hhNext: Links, hhNext0: Links, nc: seq<seq<Ref>>,
                   head: Ref, i: nat, c: seq<Ref>, j: nat)
    requires n > 0 && j < |c| && Midway(order, hashv, n, hhNext, hhNext0, nc, i, c, j) && OldChain(order, hashv, n, hhNext0, c, head, i)
    ensures |nc| == n * 2 && Distinct(c)
    ensures c[j] != NULL && c[j] in order && c[j] in hashv && c[j] !in nc[ToBkt(hashv[c[j]], n * 2)]
    ensures c[j] in hhNext && hhNext[c[j]] == At(c, j + 1)
  {
    NotReached(c, i, j);
    assert c[j] in c;
    assert hhNext0[c[j]] == At(c, j + 1);
  }

  lemma ChainStart(order: seq<Ref>, hashv: map<Ref, nat>, n: nat, hhNext: Links, hhNext0: Links, nc: seq<seq<Ref>>,
                   head: Ref, i: nat, c: seq<Ref>)
    requires n > 0 && Midway(order, hashv, n, hhNext, hhNext0, nc, i, [], 0) && OldChain(order, hashv, n, hhNext0, c, head, i)
    ensures Midway(order, hashv, n, hhNext, hhNext0, nc, i, c, 0) && head == At(c, 0)
    ensures forall e :: e in order ==> e in hashv && (e in c <==> ToBkt(hashv[e], n) == i)
    ensures forall k :: 0 <= k < |c| ==> c[k] != NULL
  {
  }

  lemma NotReached(c: seq<Ref>, i: nat, j: nat)
    requires j < |c| && Distinct(c)
    ensures !Reached(c[j], i, i, c, j)
  {
    DistinctAt(c);
  }

  lemma FiledLength(order: seq<Ref>, hashv: map<Ref, nat>, chains: seq<seq<Ref>>)
    requires Filed(order, hashv, chains)
    ensures |chains| > 0 && forall e :: e in order ==> e in hashv && e in chains[ToBkt(hashv[e], |chains|)]
    ensures forall b, e :: 0 <= b < |chains| && e in chains[b] ==> e in order
  {
    hide ToBkt;
  }

  /** Taking an element off its chain and off the application list keeps the others filed. */
  lemma RemovedFiled(whole: seq<Ref>, order: seq<Ref>, hashv: map<Ref, nat>, chains: seq<seq<Ref>>, b: nat, i: nat)
    requires Filed(whole, hashv, chains) && b < |chains| && i < |chains[b]| && Distinct(chains[b])
    requires forall c, e :: 0 <= c < |chains| && e in chains[c] ==> e in hashv && ToBkt(hashv[e], |chains|) == c
    requires forall e :: e in order <==> e in whole && e != chains[b][i]
    ensures Filed(order, hashv, chains[b := Without(chains[b], i)])
  {
    WithoutMembers(chains[b], i);
    var chains' := chains[b := Without(chains[b], i)];
    forall c, e | 0 <= c < |chains'| && e in chains'[c] ensures e in order {
      assert e in chains[c] && ToBkt(hashv[e], |chains|) == c;
      assert chains[b][i] in chains[b];
    }
    forall e | e in order ensures e in hashv && e in chains'[ToBkt(hashv[e], |chains'|)] {
      assert e in chains[ToBkt(hashv[e], |chains|)];
    }
  }

  /** A fresh bucket array has only empty chains. */
  lemma EmptyChained(hhPrev: Links, hhNext: Links, hashv: map<Ref, nat>, chains: seq<seq<Ref>>, bkts: seq<Bucket>)
    requires |chains| == |bkts| > 0
    requires forall b :: 0 <= b < |bkts| ==> chains[b] == [] && bkts[b] == Bucket(NULL, 0, 0)
    ensures Chained(hhPrev, hhNext, hashv, chains, bkts) && Filed([], hashv, chains)
  {
  }

  lemma FiledPermuted(order: seq<Ref>, order': seq<Ref>, hashv: map<Ref, nat>, chains: seq<seq<Ref>>)
    requires forall e :: e in order <==> e in order'
    ensures Filed(order, hashv, chains) ==> Filed(order', hashv, chains)
  {
    hide ToBkt;
  }

  /** Setting the hash of an element outside the table leaves the chains intact. */
  lemma HashvFrame(hhPrev: Links, hhNext: Links, hashv: map<Ref, nat>, hashv': map<Ref, nat>, order: seq<Ref>,
                   chains: seq<seq<Ref>>, bkts: seq<Bucket>)
    requires Chained(hhPrev, hhNext, hashv, chains, bkts) && Filed(order, hashv, chains)
    requires forall e :: e in order ==> e in hashv' && hashv'[e] == hashv[e]
    ensures Chained(hhPrev, hhNext, hashv', chains, bkts) && Filed(order, hashv', chains)
  {
    forall b | 0 <= b < |bkts| ensures ChainOk(hhPrev, hhNext, hashv', chains[b], bkts[b], b, |bkts|) {
      assert ChainOk(hhPrev, hhNext, hashv, chains[b], bkts[b], b, |bkts|);
    }
  }

  /** The lengths of all chains together */
  function Total(chains: seq<seq<Ref>>): nat {
    if chains == [] then 0 else |chains[0]| + Total(chains[1..])
  }

  function Flatten(chains: seq<seq<Ref>>): seq<Ref> {
    if chains == [] then [] else chains[0] + Flatten(chains[1..])
  }

  lemma {:induction false} TotalAppend(chains: seq<seq<Ref>>, c: seq<Ref>)
    ensures Total(chains + [c]) == Total(chains) + |c|
  {
    if chains != [] {
      assert (chains + [c])[1..] == chains[1..] + [c];
      TotalAppend(chains[1..], c);
    }
  }

  lemma {:induction false} FlattenMembers(chains: seq<seq<Ref>>)
    ensures |Flatten(chains)| == Total(chains)
    ensures forall e :: e in Flatten(chains) <==> exists b :: 0 <= b < |chains| && e in chains[b]
  {
    if chains != [] {
      FlattenMembers(chains[1..]);
      forall e | e in Flatten(chains[1..]) ensures exists b :: 0 <= b < |chains| && e in chains[b] {
        var b :| 0 <= b < |chains[1..]| && e in chains[1..][b];
        assert e in chains[b + 1];
      }
      forall b, e | 0 <= b < |chains| && e in chains[b] ensures e in Flatten(chains) {
        if b > 0 {
          assert e in chains[1..][b - 1];
        }
      }
    }
  }

  lemma {:induction false} NotInFlatten(chains: seq<seq<Ref>>, e: Ref)
    requires forall b :: 0 <= b < |chains| ==> e !in chains[b]
    ensures e !in Flatten(chains)
  {
    if chains != [] {
      NotInFlatten(chains[1..], e);
    }
  }

  /** Chains that share no element and repeat none flatten to a sequence without repetitions. */
  lemma {:induction false} FlattenDistinct(chains: seq<seq<Ref>>)
    requires forall b :: 0 <= b < |chains| ==> Distinct(chains[b])
    requires forall b, c, e :: 0 <= b < c < |chains| ==> !(e in chains[b] && e in chains[c])
    ensures Distinct(Flatten(chains))
  {
    if chains != [] {
      forall b, c, e | 0 <= b < c < |chains[1..]| ensures !(e in chains[1..][b] && e in chains[1..][c]) {
        assert !(e in chains[b + 1] && e in chains[c + 1]);
      }
      FlattenDistinct(chains[1..]);
      forall e | e in chains[0] ensures e !in Flatten(chains[1..]) {
        forall b | 0 <= b < |chains[1..]| ensures e !in chains[1..][b] {
          assert chains[1..][b] == chains[b + 1];
        }
        NotInFlatten(chains[1..], e);
      }
      DistinctConcat(chains[0], Flatten(chains[1..]));
    }
  }

  lemma SameMembers(order: seq<Ref>, hashv: map<Ref, nat>, chains: seq<seq<Ref>>)
    requires Filed(order, hashv, chains)
    ensures forall e :: e in Flatten(chains) <==> e in order
  {
    FlattenMembers(chains);
  }

  lemma ChainsApart(hhPrev: Links, hhNext: Links, hashv: map<Ref, nat>, chains: seq<seq<Ref>>, bkts: seq<Bucket>)
    requires Chained(hhPrev, hhNext, hashv, chains, bkts)
    ensures forall b :: 0 <= b < |chains| ==> Distinct(chains[b])
    ensures forall b, c, e :: 0 <= b < c < |chains| ==> !(e in chains[b] && e in chains[c])
  {
    forall b | 0 <= b < |chains|
      ensures Distinct(chains[b]) && forall e :: e in chains[b] ==> e in hashv && ToBkt(hashv[e], |chains|) == b
    {
      assert ChainOk(hhPrev, hhNext, hashv, chains[b], bkts[b], b, |bkts|);
    }
  }

  /** The chains hold exactly the items of the application list: their lengths sum to its length. */
  lemma TotalIsSize(order: seq<Ref>, hhPrev: Links, hhNext: Links, hashv: map<Ref, nat>, chains: seq<seq<Ref>>,
                    bkts: seq<Bucket>)
    requires Distinct(order) && Chained(hhPrev, hhNext, hashv, chains, bkts) && Filed(order, hashv, chains)
    ensures Total(chains) == |order|
  {
    ChainsApart(hhPrev, hhNext, hashv, chains, bkts);
    FlattenDistinct(chains);
    FlattenMembers(chains);
    SameMembers(order, hashv, chains);
    SameLength(Flatten(chains), order);
  }

  class Table<K(==)> {
    const hash: K -> nat

    var head: Ref
    var tail: Ref
    var buckets: array<Bucket>
    var numBuckets: nat
    var log2NumBuckets: nat
    var numItems: nat
    var idealChainMaxlen: nat
    var nonidealItems: nat
    var ineffExpands: nat
    var noexpand: bool

    // the memory of the elements' hash handles
    var hh: Handles<K>

    ghost var order: seq<Ref>
    ghost var chains: seq<seq<Ref>>

    ghost predicate AppOk()
      reads this
    {
      AppListOk(hh.prev, hh.next, order, head, tail)
    }

    ghost predicate ChainsOk()
      reads this, buckets
    {
      && buckets.Length == numBuckets == Pow2(log2NumBuckets)
      && Chained(hh.hhPrev, hh.hhNext, hh.hashv, chains, buckets[..])
      && Filed(order, hh.hashv, chains)
    }

    ghost predicate Valid()
      reads this, buckets
    {
      && AppOk()
      && Hashed(hash, order, hh.key, hh.hashv)
      && (head != NULL ==> ChainsOk() && numItems == |order|)
    }

    /** What a valid table is in memory, link by link: the application-order list. */
    lemma OrderMeans()
      requires Valid()
      ensures forall i, j :: 0 <= i < j < |order| ==> order[i] != order[j]
      ensures head == (if order == [] then 0 else order[0])
      ensures order != [] ==> tail == order[|order| - 1] && numItems == |order|
      ensures forall i {:trigger order[i]} :: 0 <= i < |order| ==>
        && order[i] != 0 && order[i] in hh.next && order[i] in hh.prev
        && hh.next[order[i]] == (if i + 1 < |order| then order[i + 1] else 0)
        && hh.prev[order[i]] == (if i > 0 then order[i - 1] else 0)
    {
      DistinctAt(order);
      forall i | 0 <= i < |order|
        ensures order[i] in hh.next && hh.next[order[i]] == (if i + 1 < |order| then order[i + 1] else 0)
        ensures order[i] in hh.prev && hh.prev[order[i]] == (if i > 0 then order[i - 1] else 0)
      {
        assert hh.next[order[i]] == At(order, i + 1) && hh.prev[order[i]] == At(order, i - 1);
      }
    }

    /** And its chains: bucket `b` leads along the links to exactly the elements whose key has a hash of
        remainder `b`, and counts them. */
    lemma ChainsMean(b: nat)
      requires Valid() && order != [] && b < numBuckets
      ensures numBuckets == buckets.Length == |chains|
      ensures forall i, j :: 0 <= i < j < |chains[b]| ==> chains[b][i] != chains[b][j]
      ensures forall e :: e in chains[b] <==> e in order && e in hh.key && hash(hh.key[e]) % numBuckets == b
      ensures buckets[b].count == |chains[b]| && buckets[b].head == (if chains[b] == [] then 0 else chains[b][0])
      ensures forall i {:trigger chains[b][i]} :: 0 <= i < |chains[b]| ==>
        && chains[b][i] in hh.hhNext && chains[b][i] in hh.hhPrev
        && hh.hhNext[chains[b][i]] == (if i + 1 < |chains[b]| then chains[b][i + 1] else 0)
        && hh.hhPrev[chains[b][i]] == (if i > 0 then chains[b][i - 1] else 0)
    {
      hide ToBkt;
      assert head == order[0] != NULL;
      var c := chains[b];
      assert ChainOk(hh.hhPrev, hh.hhNext, hh.hashv, c, buckets[..][b], b, numBuckets);
      DistinctAt(c);
      forall i | 0 <= i < |c|
        ensures c[i] in hh.hhNext && hh.hhNext[c[i]] == (if i + 1 < |c| then c[i + 1] else 0)
        ensures c[i] in hh.hhPrev && hh.hhPrev[c[i]] == (if i > 0 then c[i - 1] else 0)
      {
        assert hh.hhNext[c[i]] == At(c, i + 1) && hh.hhPrev[c[i]] == At(c, i - 1);
      }
      forall e ensures e in c <==> e in order && e in hh.key && hash(hh.key[e]) % numBuckets == b {
        if e in order {
          BucketIs(hh.hashv[e], numBuckets, log2NumBuckets);
        }
      }
    }

    constructor (hash: K -> nat)
      ensures Valid() && order == [] && this.hash == hash && fresh(buckets)
    {
      this.hash := hash;
      head, tail := NULL, NULL;
      numBuckets, log2NumBuckets, numItems := 0, 0, 0;
      idealChainMaxlen, nonidealItems, ineffExpands, noexpand := 0, 0, 0, false;
      hh := Handles(map[], map[], map[], map[], map[], map[]);
      buckets := new Bucket[0];
      order, chains := [], [];
    }

    /** HASH_FIND_IN_BKT: walk along a chain. */
    method FindInBkt(k: K, v: nat, h: Ref, ghost c: seq<Ref>) returns (out: Ref)
      requires DList(hh.hhPrev, hh.hhNext, c) && h == At(c, 0)
      requires forall e :: e in c ==> e in hh.hashv && e in hh.key && (hh.key[e] == k ==> hh.hashv[e] == v)
      ensures out == NULL ==> forall e :: e in c ==> hh.key[e] != k
      ensures out != NULL ==> out in c && hh.key[out] == k
    {
      hide DList;
      out := h;
      ghost var i := 0;
      while out != NULL
        invariant 0 <= i <= |c|
        invariant out == At(c, i)
        invariant forall e :: e in c[..i] ==> hh.key[e] != k
        decreases |c| - i
      {
        NextOf(hh.hhPrev, hh.hhNext, c, i);
        TakeNext(c, i);
        if hh.hashv[out] == v && hh.key[out] == k {
          return;
        }
        out := hh.hhNext[out];
        i := i + 1;
      }
      if i < |c| {
        NextOf(hh.hhPrev, hh.hhNext, c, i);
      }
      assert c[..|c|] == c;
    }

    /** HASH_FIND: an element with this key, if there is one. */
    method Find(k: K) returns (out: Ref)
      requires Valid()
      ensures out == NULL ==> forall e :: e in order ==> hh.key[e] != k
      ensures out != NULL ==> out in order && hh.key[out] == k
    {
      var v := hash(k);
      out := NULL;
      if head != NULL {
        var bkt := ToBkt(v, numBuckets);
        assert ChainOk(hh.hhPrev, hh.hhNext, hh.hashv, chains[bkt], buckets[..][bkt], bkt, numBuckets);
        ghost var c := chains[bkt];
        out := FindInBkt(k, v, buckets[bkt].head, c);
      }
    }

    /** HASH_APPEND_LIST */
    method AppendList(x: Ref)
      requires AppOk() && order != []
      requires x != NULL && x !in order
      modifies `hh, `tail, `order
      ensures hh == old(hh).(prev := hh.prev, next := hh.next)
      ensures order == old(order) + [x]
      ensures AppOk()
    {
      Append(hh.prev, hh.next, order, x);
      var m := hh;
      m := m.(next := m.next[x := NULL]);
      m := m.(prev := m.prev[x := tail]);
      m := m.(next := m.next[tail := x]);
      hh := m;
      tail := x;
      order := order + [x];
    }

    /** One element of the redistribution loop of HASH_EXPAND_BUCKETS: push `thh` on the chain of
        its new bucket, counting it as non-ideal when the chain is already long enough. */
    method Redistribute(thh: Ref, newBuckets: array<Bucket>, ghost nc: seq<seq<Ref>>) returns (ghost nc': seq<seq<Ref>>)
      requires newBuckets != buckets && newBuckets.Length == numBuckets * 2 > 0
      requires Chained(hh.hhPrev, hh.hhNext, hh.hashv, nc, newBuckets[..])
      requires thh != NULL && thh in hh.hashv && thh !in nc[ToBkt(hh.hashv[thh], numBuckets * 2)]
      requires idealChainMaxlen > 0 && Accounted(newBuckets[..], idealChainMaxlen, nonidealItems)
      modifies newBuckets, `hh, `nonidealItems
      ensures hh == old(hh).(hhPrev := hh.hhPrev, hhNext := hh.hhNext)
      ensures Chained(hh.hhPrev, hh.hhNext, hh.hashv, nc', newBuckets[..])
      ensures Accounted(newBuckets[..], idealChainMaxlen, nonidealItems)
      ensures var b := ToBkt(hh.hashv[thh], numBuckets * 2); nc' == nc[b := [thh] + nc[b]]
      ensures forall e :: e != thh && e in old(hh).hhNext ==> e in hh.hhNext && hh.hhNext[e] == old(hh).hhNext[e]
    {
      hide Chained, Accounted, ToBkt;
      var b := ToBkt(hh.hashv[thh], numBuckets * 2);
      ghost var bkts := newBuckets[..];
      ChainedLength(hh.hhPrev, hh.hhNext, hh.hashv, nc, bkts);
      var newbkt := newBuckets[b];
      var mult := newbkt.expandMult;
      var count := newbkt.count + 1;
      if count > idealChainMaxlen {
        nonidealItems := nonidealItems + 1;
        mult := count / idealChainMaxlen;
      }
      PushChained(hh.hhPrev, hh.hhNext, hh.hashv, nc, bkts, b, thh, mult);
      AccountedUpdate(bkts, idealChainMaxlen, old(nonidealItems), b, thh, mult);
      var m := hh;
      m := m.(hhPrev := m.hhPrev[thh := NULL]);
      m := m.(hhNext := m.hhNext[thh := newbkt.head]);
      if newbkt.head != NULL {
        m := m.(hhPrev := m.hhPrev[newbkt.head := thh]);
      }
      hh := m;
      newBuckets[b] := Bucket(thh, count, mult);
      assert newBuckets[..] == bkts[b := Bucket(thh, count, mult)];
      nc' := nc[b := [thh] + nc[b]];
    }

    /** The inner loop of HASH_EXPAND_BUCKETS: redistribute the elements of old bucket `i`. */
    method RedistributeChain(i: nat, newBuckets: array<Bucket>, ghost nc: seq<seq<Ref>>, ghost hhNext0: Links)
      returns (ghost nc': seq<seq<Ref>>)
      requires i < numBuckets == buckets.Length && newBuckets != buckets && newBuckets.Length == numBuckets * 2
      requires |chains| == numBuckets && OldChain(order, hh.hashv, numBuckets, hhNext0, chains[i], buckets[i].head, i)
      requires Chained(hh.hhPrev, hh.hhNext, hh.hashv, nc, newBuckets[..])
      requires idealChainMaxlen > 0 && Accounted(newBuckets[..], idealChainMaxlen, nonidealItems)
      requires Midway(order, hh.hashv, numBuckets, hh.hhNext, hhNext0, nc, i, [], 0)
      modifies newBuckets, `hh, `nonidealItems
      ensures hh == old(hh).(hhPrev := hh.hhPrev, hhNext := hh.hhNext)
      ensures Chained(hh.hhPrev, hh.hhNext, hh.hashv, nc', newBuckets[..])
      ensures Accounted(newBuckets[..], idealChainMaxlen, nonidealItems)
      ensures Midway(order, hh.hashv, numBuckets, hh.hhNext, hhNext0, nc', i + 1, [], 0)
    {
      hide Chained, Accounted, Midway, ToBkt, OldChain, Distinct;
      ghost var c, hv := chains[i], hh.hashv;
      ChainStart(order, hv, numBuckets, hh.hhNext, hhNext0, nc, buckets[i].head, i, c);
      nc' := nc;
      var thh := buckets[i].head;
      ghost var j := 0;
      while thh != NULL
        invariant 0 <= j <= |c|
        invariant hh == old(hh).(hhPrev := hh.hhPrev, hhNext := hh.hhNext)
        invariant thh == if j < |c| then c[j] else NULL
        invariant Chained(hh.hhPrev, hh.hhNext, hv, nc', newBuckets[..])
        invariant Accounted(newBuckets[..], idealChainMaxlen, nonidealItems)
        invariant Midway(order, hv, numBuckets, hh.hhNext, hhNext0, nc', i, c, j)
        decreases |c| - j
      {
        MidwayHere(order, hv, numBuckets, hh.hhNext, hhNext0, nc', buckets[i].head, i, c, j);
        var hhNxt := hh.hhNext[thh];
        ghost var before, nc0 := hh.hhNext, nc';
        nc' := Redistribute(thh, newBuckets, nc');
        MidwayNext(order, hv, numBuckets, before, hh.hhNext, hhNext0, nc0, nc', i, c, j);
        thh := hhNxt;
        j := j + 1;
      }
      ChainDone(order, hv, numBuckets, hh.hhNext, hhNext0, nc', i, c);
    }

    /** The ideal chain length for twice as many buckets. */
    method SetIdeal()
      requires numBuckets == Pow2(log2NumBuckets) && numItems > 0
      modifies `idealChainMaxlen, `nonidealItems
      ensures idealChainMaxlen == Ceil(numItems, numBuckets * 2) && idealChainMaxlen >= 1
      ensures nonidealItems == 0
    {
      idealChainMaxlen := Shr(numItems, log2NumBuckets + 1)
        + (if And(numItems, numBuckets * 2 - 1) != 0 then 1 else 0);
      nonidealItems := 0;
      IdealIsCeil(numItems, log2NumBuckets + 1);
    }

    /** HASH_EXPAND_BUCKETS: double the bucket array and redistribute every element. */
    method ExpandBuckets()
      requires ChainsOk() && numItems == |order| > 0
      modifies `buckets, `numBuckets, `log2NumBuckets, `idealChainMaxlen, `nonidealItems
      modifies `ineffExpands, `noexpand, `hh, `chains
      ensures hh == old(hh).(hhPrev := hh.hhPrev, hhNext := hh.hhNext)
      ensures fresh(buckets)
      ensures ChainsOk()
      ensures numBuckets == 2 * old(numBuckets) && log2NumBuckets == old(log2NumBuckets) + 1
      ensures idealChainMaxlen == Ceil(numItems, numBuckets) && idealChainMaxlen >= 1
      ensures Accounted(buckets[..], idealChainMaxlen, nonidealItems)
      ensures ineffExpands == if nonidealItems > numItems / 2 then old(ineffExpands) + 1 else 0
      ensures noexpand == (old(noexpand) || ineffExpands > 1)
    {
      SetIdeal();
      var newBuckets := new Bucket[numBuckets * 2](_ => Bucket(NULL, 0, 0));
      ghost var nc := RedistributeAll(newBuckets);
      Install(newBuckets, nc);
      JudgeExpansion();
    }

    /** Replace the bucket array by one that is twice as long. */
    method Install(newBuckets: array<Bucket>, ghost nc: seq<seq<Ref>>)
      requires newBuckets.Length == numBuckets * 2 && numBuckets == Pow2(log2NumBuckets)
      requires Chained(hh.hhPrev, hh.hhNext, hh.hashv, nc, newBuckets[..]) && Filed(order, hh.hashv, nc)
      modifies `buckets, `numBuckets, `log2NumBuckets, `chains
      ensures buckets == newBuckets && numBuckets == old(numBuckets) * 2 && log2NumBuckets == old(log2NumBuckets) + 1
      ensures ChainsOk()
    {
      ghost var bkts := newBuckets[..];
      numBuckets := numBuckets * 2;
      log2NumBuckets := log2NumBuckets + 1;
      buckets := newBuckets;
      chains := nc;
      assert buckets[..] == bkts;
    }

    /** Two ineffective expansions in a row inhibit further ones. */
    method JudgeExpansion()
      modifies `ineffExpands, `noexpand
      ensures ineffExpands == if nonidealItems > numItems / 2 then old(ineffExpands) + 1 else 0
      ensures noexpand == (old(noexpand) || ineffExpands > 1)
    {
      ShrDivides(numItems, 1);
      ineffExpands := if nonidealItems > Shr(numItems, 1) then ineffExpands + 1 else 0;
      if ineffExpands > 1 {
        noexpand := true;
      }
    }

    /** The outer loop of HASH_EXPAND_BUCKETS. */
    method RedistributeAll(newBuckets: array<Bucket>) returns (ghost nc: seq<seq<Ref>>)
      requires ChainsOk()
      requires newBuckets != buckets && newBuckets.Length == numBuckets * 2
      requires forall b :: 0 <= b < newBuckets.Length ==> newBuckets[b] == Bucket(NULL, 0, 0)
      requires idealChainMaxlen > 0 && nonidealItems == 0
      modifies newBuckets, `hh, `nonidealItems
      ensures hh == old(hh).(hhPrev := hh.hhPrev, hhNext := hh.hhNext)
      ensures Chained(hh.hhPrev, hh.hhNext, hh.hashv, nc, newBuckets[..])
      ensures Accounted(newBuckets[..], idealChainMaxlen, nonidealItems)
      ensures Filed(order, hh.hashv, nc)
    {
      ExcessEmpty(newBuckets[..], idealChainMaxlen);
      nc := seq(numBuckets * 2, _ => []);
      ghost var hhPrev0, hhNext0 := hh.hhPrev, hh.hhNext;
      MidwayStart(order, hh.hhPrev, hh.hhNext, hh.hashv, chains, buckets[..], nc);
      var i := 0;
      while i < numBuckets
        invariant 0 <= i <= numBuckets
        invariant hh == old(hh).(hhPrev := hh.hhPrev, hhNext := hh.hhNext)
        invariant Chained(hhPrev0, hhNext0, hh.hashv, chains, buckets[..])
        invariant Chained(hh.hhPrev, hh.hhNext, hh.hashv, nc, newBuckets[..])
        invariant Accounted(newBuckets[..], idealChainMaxlen, nonidealItems)
        invariant Midway(order, hh.hashv, numBuckets, hh.hhNext, hhNext0, nc, i, [], 0)
      {
        ChainsAreOld(order, hhPrev0, hhNext0, hh.hashv, chains, buckets[..], i);
        nc := RedistributeChain(i, newBuckets, nc, hhNext0);
        i := i + 1;
      }
    }

    /** HASH_ADD_TO_BKT, up to the test that triggers an expansion */
    method PushBkt(bkt: nat, x: Ref, ghost rest: seq<Ref>)
      requires buckets.Length == numBuckets == Pow2(log2NumBuckets)
      requires Chained(hh.hhPrev, hh.hhNext, hh.hashv, chains, buckets[..]) && Filed(rest, hh.hashv, chains)
      requires order == rest + [x] && x !in rest && x != NULL
      requires x in hh.hashv && bkt == ToBkt(hh.hashv[x], numBuckets)
      modifies buckets, `hh, `chains
      ensures hh == old(hh).(hhPrev := hh.hhPrev, hhNext := hh.hhNext)
      ensures ChainsOk()
      ensures chains == old(chains)[bkt := [x] + old(chains)[bkt]]
      ensures var b := old(buckets[..])[bkt];
        buckets[..] == old(buckets[..])[bkt := Bucket(x, b.count + 1, b.expandMult)]
    {
      hide Chained, Filed, ToBkt, Pow2;
      ghost var bkts := buckets[..];
      var head := buckets[bkt].head;
      ChainedLength(hh.hhPrev, hh.hhNext, hh.hashv, chains, bkts);
      PushFiled(rest, hh.hashv, chains, x);
      PushChained(hh.hhPrev, hh.hhNext, hh.hashv, chains, bkts, bkt, x, buckets[bkt].expandMult);
      var m := hh;
      m := m.(hhNext := m.hhNext[x := head]);
      m := m.(hhPrev := m.hhPrev[x := NULL]);
      if head != NULL {
        m := m.(hhPrev := m.hhPrev[head := x]);
      }
      hh := m;
      buckets[bkt] := Bucket(x, buckets[bkt].count + 1, buckets[bkt].expandMult);
      assert buckets[..] == bkts[bkt := Bucket(x, bkts[bkt].count + 1, bkts[bkt].expandMult)];
      chains := chains[bkt := [x] + chains[bkt]];
    }

    /** HASH_MAKE_TABLE for the first element, which becomes head and tail */
    method MakeTable(x: Ref)
      requires x != NULL
      modifies `head, `tail, `hh, `order, `chains, `buckets, `numBuckets, `log2NumBuckets, `numItems
      modifies `idealChainMaxlen, `nonidealItems, `ineffExpands, `noexpand
      ensures hh == old(hh).(prev := hh.prev, next := hh.next)
      ensures AppOk() && head != NULL && order == [x]
      ensures fresh(buckets) && buckets.Length == numBuckets == Pow2(log2NumBuckets) && numItems == 0
      ensures numBuckets == 32 && log2NumBuckets == 5
      ensures idealChainMaxlen == 0 && nonidealItems == 0 && ineffExpands == 0 && !noexpand
      ensures Chained(hh.hhPrev, hh.hhNext, hh.hashv, chains, buckets[..]) && Filed([], hh.hashv, chains)
      ensures forall b :: 0 <= b < numBuckets ==> buckets[b] == Bucket(NULL, 0, 0)
    {
      hide Chained, Filed, ToBkt, Pow2, DList;
      Singleton(hh.prev, hh.next, x);
      hh := hh.(next := hh.next[x := NULL], prev := hh.prev[x := NULL]);
      head := x;
      order := [x];
      idealChainMaxlen, nonidealItems, ineffExpands, noexpand := 0, 0, 0, false;
      numItems := 0;
      tail := head;
      numBuckets := HASH_INITIAL_NUM_BUCKETS;
      log2NumBuckets := HASH_INITIAL_NUM_BUCKETS_LOG2;
      buckets := new Bucket[HASH_INITIAL_NUM_BUCKETS](_ => Bucket(NULL, 0, 0));
      chains := seq(HASH_INITIAL_NUM_BUCKETS, _ => []);
      EmptyChained(hh.hhPrev, hh.hhNext, hh.hashv, chains, buckets[..]);
      InitialBuckets();
    }

    /** The first half of HASH_ADD: set the hash handle and append it to the application-order list. */
    method Enlist(x: Ref, k: K)
      requires Valid() && x != NULL && x !in order
      modifies `head, `tail, `hh, `order, `chains, `buckets, `numBuckets, `log2NumBuckets, `numItems
      modifies `idealChainMaxlen, `nonidealItems, `ineffExpands, `noexpand
      ensures order == old(order) + [x] && hh.key == old(hh).key[x := k]
      ensures AppOk() && Hashed(hash, order, hh.key, hh.hashv)
      ensures buckets.Length == numBuckets == Pow2(log2NumBuckets) && numItems == |old(order)|
      ensures Chained(hh.hhPrev, hh.hhNext, hh.hashv, chains, buckets[..]) && Filed(old(order), hh.hashv, chains)
      ensures buckets == old(buckets) || fresh(buckets)
    {
      HashedAppend(hash, order, hh.key, hh.hashv, x, k);
      hh := hh.(hashv := hh.hashv[x := hash(k)], key := hh.key[x := k]);
      if head == NULL {
        MakeTable(x);
      } else {
        HashvFrame(hh.hhPrev, hh.hhNext, old(hh).hashv, hh.hashv, order, chains, buckets[..]);
        AppendList(x);
      }
    }

    /** HASH_ADD: append an element that is not in the table yet. */
    method Add(x: Ref, k: K)
      requires Valid() && x != NULL && x !in order
      modifies this, buckets
      ensures Valid() && (buckets == old(buckets) || fresh(buckets))
      ensures order == old(order) + [x] && hh.key == old(hh).key[x := k]
    {
      hide Chained, Filed, ToBkt, AppListOk, Accounted, Ceil;
      Enlist(x, k);
      numItems := numItems + 1;
      AddToBkt(x, old(order));
    }

    /** HASH_ADD_TO_BKT */
    method AddToBkt(x: Ref, ghost rest: seq<Ref>)
      requires buckets.Length == numBuckets == Pow2(log2NumBuckets)
      requires Chained(hh.hhPrev, hh.hhNext, hh.hashv, chains, buckets[..]) && Filed(rest, hh.hashv, chains)
      requires order == rest + [x] && x !in rest && x != NULL && numItems == |order|
      requires x in hh.hashv
      modifies buckets, `hh, `chains, `buckets, `numBuckets, `log2NumBuckets
      modifies `idealChainMaxlen, `nonidealItems, `ineffExpands, `noexpand
      ensures hh == old(hh).(hhPrev := hh.hhPrev, hhNext := hh.hhNext)
      ensures ChainsOk() && (buckets == old(buckets) || fresh(buckets))
      ensures numBuckets > 0
      ensures var b := old(buckets[..])[old(hh).hashv[x] % old(numBuckets)];
        var grows := b.count + 1 >= (b.expandMult + 1) * 10 && !old(noexpand);
        && numBuckets == (if grows then 2 * old(numBuckets) else old(numBuckets))
        && (grows ==>
          && (idealChainMaxlen - 1) * numBuckets < numItems <= idealChainMaxlen * numBuckets
          && nonidealItems == Excess(buckets[..], idealChainMaxlen)
          && ineffExpands == (if nonidealItems > numItems / 2 then old(ineffExpands) + 1 else 0)
          && noexpand == (ineffExpands > 1))
        && (!grows ==> idealChainMaxlen == old(idealChainMaxlen) && nonidealItems == old(nonidealItems))
        && (!grows ==> ineffExpands == old(ineffExpands) && noexpand == old(noexpand))
      ensures numBuckets != old(numBuckets) ==> idealChainMaxlen > 0 && forall b :: 0 <= b < numBuckets ==>
        buckets[b].expandMult == if buckets[b].count > idealChainMaxlen then buckets[b].count / idealChainMaxlen else 0
    {
      hide Chained, Filed, Ceil, ToBkt;
      var bkt := ToBkt(hh.hashv[x], numBuckets);
      BucketIs(hh.hashv[x], numBuckets, log2NumBuckets);
      PushBkt(bkt, x, rest);
      if buckets[bkt].count >= (buckets[bkt].expandMult + 1) * HASH_BKT_CAPACITY_THRESH && !noexpand {
        ExpandBuckets();
        CeilIsLeast(numItems, numBuckets);
      }
    }

    /** The first half of HASH_DELETE: take the element off the application-order list. */
    method UnlinkApp(x: Ref)
      requires AppOk() && x in order && |order| > 1
      modifies `head, `tail, `hh, `order
      ensures hh == old(hh).(prev := hh.prev, next := hh.next)
      ensures AppOk() && head != NULL
      ensures order == Without(old(order), IndexOf(old(order), x))
    {
      hide DList, Without;
      ghost var i: int := IndexOf(order, x);
      AppUnlinked(hh.prev, hh.next, order, head, tail, i);
      var m := hh;
      if x == tail {
        tail := m.prev[x];
      }
      if m.prev[x] != NULL {
        m := m.(next := m.next[m.prev[x] := m.next[x]]);
      } else {
        head := m.next[x];
      }
      if m.next[x] != NULL {
        m := m.(prev := m.prev[m.next[x] := m.prev[x]]);
      }
      assert m.next[x] == hh.next[x] && m.prev[x] == hh.prev[x];
      hh := m;
      order := Without(order, i);
    }

    /** The second half of HASH_DELETE, HASH_DEL_IN_BKT: take the element off the chain of its bucket. */
    method UnlinkBkt(x: Ref, ghost whole: seq<Ref>)
      requires buckets.Length == numBuckets == Pow2(log2NumBuckets)
      requires Chained(hh.hhPrev, hh.hhNext, hh.hashv, chains, buckets[..]) && Filed(whole, hh.hashv, chains)
      requires x in whole && forall e :: e in order <==> e in whole && e != x
      modifies buckets, `hh, `chains
      ensures hh == old(hh).(hhPrev := hh.hhPrev, hhNext := hh.hhNext)
      ensures ChainsOk()
      ensures forall b :: 0 <= b < numBuckets ==> buckets[b].expandMult == old(buckets[..])[b].expandMult
    {
      hide ToBkt, Chained, Filed, Distinct, Without, Pow2;
      var m := hh;
      FiledLength(whole, m.hashv, chains);
      var bkt := ToBkt(m.hashv[x], numBuckets);
      ghost var bkts := buckets[..];
      ChainedLength(m.hhPrev, m.hhNext, m.hashv, chains, bkts);
      ChainMembers(m.hhPrev, m.hhNext, m.hashv, chains, bkts);
      ghost var c := chains[bkt];
      ghost var i := IndexOf(c, x);
      UnlinkChained(m.hhPrev, m.hhNext, m.hashv, chains, bkts, bkt, i);
      RemovedFiled(whole, order, m.hashv, chains, bkt, i);
      buckets[bkt] := buckets[bkt].(count := buckets[bkt].count - 1);
      if buckets[bkt].head == x {
        buckets[bkt] := buckets[bkt].(head := m.hhNext[x]);
      }
      if m.hhPrev[x] != NULL {
        m := m.(hhNext := m.hhNext[m.hhPrev[x] := m.hhNext[x]]);
      }
      if m.hhNext[x] != NULL {
        m := m.(hhPrev := m.hhPrev[m.hhNext[x] := m.hhPrev[x]]);
      }
      assert m.hhNext[x] == hh.hhNext[x] && m.hhPrev[x] == hh.hhPrev[x];
      hh := m;
      assert buckets[..] == bkts[bkt := buckets[bkt]];
      chains := chains[bkt := Without(c, i)];
    }

    /** HASH_DELETE: the last element takes the table with it */
    method Delete(x: Ref)
      requires Valid() && x in order
      modifies `head, `tail, `hh, `order, `chains, `numItems, buckets
      ensures Valid() && buckets == old(buckets) && hh.key == old(hh).key
      ensures order == Without(old(order), IndexOf(old(order), x))
    {
      hide Chained, Filed, DList, Hashed, Without, Pow2;
      ghost var i: int := IndexOf(order, x);
      OnlyElement(hh.prev, hh.next, order, i);
      HashedSubset(hash, order, Without(order, i), hh.key, hh.hashv);
      if hh.prev[x] == NULL && hh.next[x] == NULL {
        head := NULL;
        order := [];
      } else {
        UnlinkApp(x);
        UnlinkBkt(x, old(order));
        numItems := numItems - 1;
      }
    }

    /** HASH_FSCK: the table's own integrity check, which never finds anything to report. */
    method Fsck() returns (ok: bool)
      requires Valid()
      ensures ok
    {
      ok := true;
      if head != NULL {
        var count := 0;
        var b := 0;
        while b < numBuckets
          invariant 0 <= b <= numBuckets
          invariant count == Total(chains[..b])
          invariant ok
        {
          var good, bktCount := FsckChain(b);
          ok := ok && good && bktCount == buckets[b].count;
          TotalAppend(chains[..b], chains[b]);
          assert chains[..b + 1] == chains[..b] + [chains[b]];
          count := count + bktCount;
          b := b + 1;
        }
        assert chains[..b] == chains;
        TotalIsSize(order, hh.hhPrev, hh.hhNext, hh.hashv, chains, buckets[..]);
        ok := ok && count == numItems;
        var good, appCount := FsckApp();
        ok := ok && good && appCount == numItems;
      }
    }

    /** Walk one chain, checking every hhPrev against the element before, and count. */
    method FsckChain(b: nat) returns (good: bool, bktCount: nat)
      requires b < |chains| == buckets.Length && Chained(hh.hhPrev, hh.hhNext, hh.hashv, chains, buckets[..])
      ensures good && bktCount == |chains[b]| == buckets[b].count
    {
      ghost var c := chains[b];
      assert ChainOk(hh.hhPrev, hh.hhNext, hh.hashv, c, buckets[..][b], b, buckets.Length);
      good, bktCount := true, 0;
      var prv := NULL;
      var thh := buckets[b].head;
      while thh != NULL
        invariant 0 <= bktCount <= |c|
        invariant good && thh == At(c, bktCount) && prv == At(c, bktCount - 1)
        decreases |c| - bktCount
      {
        good := good && prv == hh.hhPrev[thh];
        bktCount := bktCount + 1;
        prv := thh;
        thh := hh.hhNext[thh];
      }
    }

    method FsckApp() returns (good: bool, count: nat)
      requires AppOk()
      ensures good && count == |order|
    {
      good := true;
      count := 0;
      var prv := NULL;
      var thh := head;
      while thh != NULL
        invariant 0 <= count <= |order|
        invariant good && thh == At(order, count) && prv == At(order, count - 1)
        decreases |order| - count
      {
        good := good && prv == hh.prev[thh];
        count := count + 1;
        prv := thh;
        thh := hh.next[thh];
      }
    }

    /** HASH_SRT: sort the application-order list in place. The bucket chains are not touched. */
    method Sort(cmp: Cmp)
      requires Valid()
      modifies `head, `tail, `hh, `order
      ensures Valid() && hh == old(hh).(prev := hh.prev, next := hh.next)
      ensures multiset(order) == multiset(old(order))
      ensures TotalPreorder(cmp) ==> InOrder(cmp, old(order), order)
    {
      if head != NULL {
        hide InOrder, TotalPreorder, Chained, Filed, Hashed, AppListOk, Pow2;
        ghost var before := order;
        SortApp(cmp);
        SameCount(before, order);
        Permuted(before, order);
        FiledPermuted(before, order, hh.hashv, chains);
        HashedSubset(hash, before, order, hh.key, hh.hashv);
      }
    }

    /** The application-order list is sorted, and the head becomes its new first element. */
    method SortApp(cmp: Cmp)
      requires AppOk() && head != NULL
      modifies `head, `tail, `hh, `order
      ensures AppOk() && head != NULL && hh == old(hh).(prev := hh.prev, next := hh.next)
      ensures multiset(order) == multiset(old(order))
      ensures TotalPreorder(cmp) ==> InOrder(cmp, old(order), order)
    {
      hide InOrder, Sorted, Stable, TotalPreorder, DList, AppListOk;
      AppIsList(hh.prev, hh.next, order, head, tail);
      var prev, next, list, tl;
      ghost var out;
      prev, next, list, tl, out := SortList(cmp, hh.prev, hh.next, head, order);
      SameCount(order, out);
      ListIsApp(prev, next, out, list, tl);
      hh := hh.(prev := prev, next := next);
      tail := tl;
      head := list;
      order := out;
    }
  }
}
