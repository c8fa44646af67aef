/** Doubly linked lists over element addresses. Each link field of the elements is a map from the
    element's address to the address it points at, so that assigning to a field through a pointer
    is a map update and two names of one element really do alias. */
module DoublyLinked {
  import opened Seqs

  type Ref = int
  type Links = map<Ref, Ref>

  const NULL: Ref := 0

  /** The element at position `i`, or NULL beyond either end */
  function At(s: seq<Ref>, i: int): Ref {
    if 0 <= i < |s| then s[i] else NULL
  }

  /** `s` is a well-formed list: no element occurs twice, so there is no cycle, and the two link
      fields are mutual inverses along it, with NULL at both ends. */
  ghost predicate DList(prev: Links, next: Links, s: seq<Ref>) {
    && Distinct(s)
    && (forall i :: 0 <= i < |s| ==> s[i] != NULL && s[i] in prev && s[i] in next)
    && (forall i {:trigger prev[s[i]]} :: 0 <= i < |s| ==> prev[s[i]] == At(s, i - 1))
    && (forall i {:trigger next[s[i]]} :: 0 <= i < |s| ==> next[s[i]] == At(s, i + 1))
  }

  lemma NextOf(prev: Links, next: Links, s: seq<Ref>, i: nat)
    requires DList(prev, next, s) && i < |s|
    ensures s[i] != NULL && s[i] in next && next[s[i]] == At(s, i + 1)
  {
  }

  /** Writing to elements that are not on a list leaves the list intact. */
  lemma Frame(prev: Links, next: Links, prev': Links, next': Links, s: seq<Ref>)
    requires DList(prev, next, s)
    requires forall e :: e in s ==> e in prev' && prev'[e] == prev[e]
    requires forall e :: e in s ==> e in next' && next'[e] == next[e]
    ensures DList(prev', next', s)
  {
  }

  lemma Append(prev: Links, next: Links, s: seq<Ref>, x: Ref)
    requires DList(prev, next, s) && s != [] && x != NULL && x !in s
    ensures DList(prev[x := At(s, |s| - 1)], next[x := NULL][At(s, |s| - 1) := x], s + [x])
  {
    var s' := s + [x];
    DistinctAt(s);
    DistinctIntro(s');
    var next' := next[x := NULL][At(s, |s| - 1) := x];
    forall i | 0 <= i < |s'| ensures s'[i] in next' && next'[s'[i]] == At(s', i + 1) {
      if i < |s| - 1 {
        assert s[i] != At(s, |s| - 1) && s[i] != x;
      }
    }
  }

  lemma Singleton(prev: Links, next: Links, x: Ref)
    requires x != NULL
    ensures DList(prev[x := NULL], next[x := NULL], [x])
  {
    DistinctIntro([x]);
  }

  lemma Push(prev: Links, next: Links, s: seq<Ref>, x: Ref)
    requires DList(prev, next, s) && x != NULL && x !in s
    ensures DList(if s == [] then prev[x := NULL] else prev[x := NULL][At(s, 0) := x],
                  next[x := At(s, 0)], [x] + s)
  {
    var s' := [x] + s;
    assert s'[1..] == s;
    DistinctAt(s);
    var prev' := if s == [] then prev[x := NULL] else prev[x := NULL][At(s, 0) := x];
    forall i | 0 <= i < |s'| ensures s'[i] in prev' && prev'[s'[i]] == At(s', i - 1) {
      if i > 1 {
        assert s[i - 1] != At(s, 0) && s[i - 1] != x;
      }
    }
  }

  function Without(s: seq<Ref>, i: int): seq<Ref>
    requires 0 <= i < |s|
  {
    s[..i] + s[i + 1..]
  }

  lemma WithoutMembers(s: seq<Ref>, i: int)
    requires 0 <= i < |s| && Distinct(s)
    ensures Distinct(Without(s, i))
    ensures forall e :: e in Without(s, i) <==> e in s && e != s[i]
  {
    DistinctAt(s);
    DistinctIntro(Without(s, i));
    forall e | e in s && e != s[i] ensures e in Without(s, i) {
      var j :| 0 <= j < |s| && s[j] == e;
      assert Without(s, i)[if j < i then j else j - 1] == e;
    }
  }

  /** Unlinking: both neighbours are patched to skip the element. */
  lemma Unlink(prev: Links, next: Links, s: seq<Ref>, i: int)
    requires DList(prev, next, s) && 0 <= i < |s|
    ensures DList(SkipBack(prev, prev[s[i]], next[s[i]]), SkipAhead(next, prev[s[i]], next[s[i]]), Without(s, i))
  {
    WithoutMembers(s, i);
    var s' := Without(s, i);
    forall j | 0 <= j < |s'|
      ensures
        var p, n := prev[s[i]], next[s[i]];
        && s'[j] in SkipBack(prev, p, n) && SkipBack(prev, p, n)[s'[j]] == At(s', j - 1)
        && s'[j] in SkipAhead(next, p, n) && SkipAhead(next, p, n)[s'[j]] == At(s', j + 1)
    {
      UnlinkAt(prev, next, s, i, j);
    }
  }

  function SkipBack(prev: Links, p: Ref, n: Ref): Links {
    if n != NULL then prev[n := p] else prev
  }

  function SkipAhead(next: Links, p: Ref, n: Ref): Links {
    if p != NULL then next[p := n] else next
  }

  lemma UnlinkAt(prev: Links, next: Links, s: seq<Ref>, i: int, j: int)
    requires DList(prev, next, s) && 0 <= i < |s| && 0 <= j < |s| - 1
    ensures
      var p, n, s' := prev[s[i]], next[s[i]], Without(s, i);
      && s'[j] in SkipBack(prev, p, n) && SkipBack(prev, p, n)[s'[j]] == At(s', j - 1)
      && s'[j] in SkipAhead(next, p, n) && SkipAhead(next, p, n)[s'[j]] == At(s', j + 1)
  {
    DistinctAt(s);
    var k := if j < i then j else j + 1;
    assert Without(s, i)[j] == s[k];
    if i > 0 {
      assert prev[s[i]] == s[i - 1] && (k != i - 1 ==> s[k] != s[i - 1]);
    }
    if i < |s| - 1 {
      assert next[s[i]] == s[i + 1] && (k != i + 1 ==> s[k] != s[i + 1]);
    }
  }

  /** `s` with every occurrence of `x` left out */
  function Except(s: seq<Ref>, x: Ref): seq<Ref> {
    if s == [] then [] else if s[0] == x then Except(s[1..], x) else [s[0]] + Except(s[1..], x)
  }

  lemma {:induction false} ExceptAbsent(s: seq<Ref>, x: Ref)
    requires x !in s
    ensures Except(s, x) == s
  {
    if s != [] {
      ExceptAbsent(s[1..], x);
    }
  }

  lemma {:induction false} WithoutIsExcept(s: seq<Ref>, i: int)
    requires 0 <= i < |s| && Distinct(s)
    ensures Without(s, i) == Except(s, s[i])
  {
    if i == 0 {
      ExceptAbsent(s[1..], s[0]);
    } else {
      DistinctAt(s);
      WithoutIsExcept(s[1..], i - 1);
      assert Without(s, i) == [s[0]] + Without(s[1..], i - 1);
    }
  }

  lemma SameLength(s: seq<Ref>, t: seq<Ref>)
    requires Distinct(s) && Distinct(t) && forall e :: e in s <==> e in t
    ensures |s| == |t|
  {
    DistinctCard(s);
    DistinctCard(t);
    assert forall e :: e in Elems(s) <==> e in Elems(t);
    assert Elems(s) == Elems(t);
  }
}
