/** The bookkeeping of bucket expansion: the ideal chain length and how far buckets exceed it. */
module BucketAccounting {
  import opened Bits

  datatype Bucket = Bucket(head: int, count: nat, expandMult: nat)

  /** The items in excess of the ideal chain length, over all buckets. */
  function Excess(bkts: seq<Bucket>, ideal: nat): nat {
    if bkts == [] then 0
    else Over(bkts[0].count, ideal) + Excess(bkts[1..], ideal)
  }

  function Over(count: nat, ideal: nat): nat {
    if count > ideal then count - ideal else 0
  }

  /** What the excess is, bucket by bucket: nothing for no buckets, and what one more bucket has beyond the
      ideal length. */
  lemma {:induction false} ExcessOfMore(bkts: seq<Bucket>, bkt: Bucket, ideal: nat)
    ensures Excess([], ideal) == 0
    ensures Excess(bkts + [bkt], ideal) == Excess(bkts, ideal) + if bkt.count > ideal then bkt.count - ideal else 0
  {
    if bkts != [] {
      assert (bkts + [bkt])[1..] == bkts[1..] + [bkt];
      ExcessOfMore(bkts[1..], bkt, ideal);
    }
  }

  lemma {:induction false} ExcessUpdate(bkts: seq<Bucket>, ideal: nat, b: nat, bkt: Bucket)
    requires b < |bkts|
    ensures Excess(bkts[b := bkt], ideal) == Excess(bkts, ideal) - Over(bkts[b].count, ideal) + Over(bkt.count, ideal)
  {
    if b == 0 {
      assert bkts[0 := bkt][1..] == bkts[1..];
    } else {
      assert bkts[b := bkt][1..] == bkts[1..][b - 1 := bkt];
      ExcessUpdate(bkts[1..], ideal, b - 1, bkt);
    }
  }

  /** What the redistribution loop keeps: the running total of non-ideal items is exact, and an
      over-full bucket records how many times the ideal length it holds. */
  ghost predicate Accounted(bkts: seq<Bucket>, ideal: nat, nonideal: nat)
    requires ideal > 0
  {
    && nonideal == Excess(bkts, ideal)
    && (forall b :: 0 <= b < |bkts| ==>
      bkts[b].expandMult == if bkts[b].count > ideal then bkts[b].count / ideal else 0)
  }

  lemma AccountedUpdate(bkts: seq<Bucket>, ideal: nat, nonideal: nat, b: nat, head: int, mult: nat)
    requires ideal > 0 && b < |bkts| && Accounted(bkts, ideal, nonideal)
    requires mult == if bkts[b].count + 1 > ideal then (bkts[b].count + 1) / ideal else bkts[b].expandMult
    ensures Accounted(bkts[b := Bucket(head, bkts[b].count + 1, mult)], ideal,
                      if bkts[b].count + 1 > ideal then nonideal + 1 else nonideal)
  {
    ExcessUpdate(bkts, ideal, b, Bucket(head, bkts[b].count + 1, mult));
  }

  /** Empty buckets are accounted for. */
  lemma {:induction false} ExcessEmpty(bkts: seq<Bucket>, ideal: nat)
    requires forall b :: 0 <= b < |bkts| ==> bkts[b].count == 0
    ensures Excess(bkts, ideal) == 0
  {
    if bkts != [] {
      ExcessEmpty(bkts[1..], ideal);
    }
  }

  /** n/b rounded up */
  function Ceil(n: nat, b: nat): (q: nat)
    requires b > 0
    ensures n > 0 ==> q > 0
  {
    if n == 0 then 0 else if n <= b then 1 else 1 + Ceil(n - b, b)
  }

  /** The ceiling is the least q with q*b >= n. */
  lemma {:induction false} CeilIsLeast(n: nat, b: nat)
    requires b > 0
    ensures Ceil(n, b) * b >= n
    ensures n > 0 ==> (Ceil(n, b) - 1) * b < n
    ensures Ceil(n, b) == n / b + (if n % b != 0 then 1 else 0)
  {
    if n > b {
      CeilIsLeast(n - b, b);
      Division(n - b, b);
      MulDistributes((n - b) / b, 1, b);
      MulDistributes(Ceil(n - b, b), 1, b);
      MulDistributes(Ceil(n - b, b) - 1, 1, b);
      QuotientRemainder(n, b, (n - b) / b + 1, (n - b) % b);
    } else if n == b {
      QuotientRemainder(n, b, 1, 0);
    } else {
      QuotientRemainder(n, b, 0, n);
    }
  }

  /** tbl->ideal_chain_maxlen as HASH_EXPAND_BUCKETS computes it for 2^lg buckets, by a shift and a mask. */
  function IdealChainMaxlen(numItems: nat, lg: nat): nat {
    Shr(numItems, lg) + (if And(numItems, Pow2(lg) - 1) != 0 then 1 else 0)
  }

  /** The shift-and-mask formula is the ceiling of items over buckets. */
  lemma {:induction false} IdealIsCeil(numItems: nat, lg: nat)
    ensures IdealChainMaxlen(numItems, lg) == Ceil(numItems, Pow2(lg))
  {
    ShrDivides(numItems, lg);
    AndLowMask(numItems, lg);
    CeilIsLeast(numItems, Pow2(lg));
  }
}
