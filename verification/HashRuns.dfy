/** Runs of the hash table against a plain map and an insertion-ordered sequence. */
module HashRuns {
  import opened Seqs
  import opened DoublyLinked
  import opened UtHash

  /** What a client does: look a key up, look it up and add an element when it is missing
      (at the address that the allocator would return), or look it up and delete the element. */
  datatype Op<K> = Lookup(key: K) | FindOrAdd(key: K, address: Ref) | Remove(key: K)

  /** The abstract table: which element each key has, and the elements in order of insertion. */
  datatype Model<K> = Model(index: map<K, Ref>, order: seq<Ref>)

  /** The pointer that the client is left with: the key's element, or NULL. */
  function Answer<K>(m: Model<K>, op: Op<K>): Ref {
    if op.key in m.index then m.index[op.key]
    else if op.FindOrAdd? then op.address
    else NULL
  }

  function Step<K>(m: Model<K>, op: Op<K>): Model<K> {
    match op
    case Lookup(_) => m
    case FindOrAdd(k, x) => if k in m.index then m else Model(m.index[k := x], m.order + [x])
    case Remove(k) => if k in m.index then Model(m.index - {k}, Except(m.order, m.index[k])) else m
  }

  /** The allocator returns neither NULL nor the address of a live element. */
  ghost predicate Legal<K>(m: Model<K>, ops: seq<Op<K>>)
    decreases |ops|
  {
    ops == [] ||
    (&& (ops[0].FindOrAdd? && ops[0].key !in m.index ==> ops[0].address != NULL && ops[0].address !in m.order)
     && Legal(Step(m, ops[0]), ops[1..]))
  }

  function Answers<K>(m: Model<K>, ops: seq<Op<K>>): (r: seq<Ref>)
    ensures |r| == |ops|
    decreases |ops|
  {
    if ops == [] then [] else [Answer(m, ops[0])] + Answers(Step(m, ops[0]), ops[1..])
  }

  function Final<K>(m: Model<K>, ops: seq<Op<K>>): Model<K>
    decreases |ops|
  {
    if ops == [] then m else Final(Step(m, ops[0]), ops[1..])
  }

  /** The index and the elements' keys are inverse to each other, so no key occurs twice. */
  ghost predicate Represents<K>(order: seq<Ref>, key: map<Ref, K>, m: Model<K>) {
    && m.order == order
    && (forall k :: k in m.index ==> m.index[k] in order && m.index[k] in key && key[m.index[k]] == k)
    && (forall e :: e in order ==> e in key && key[e] in m.index && m.index[key[e]] == e)
  }

  lemma RepresentsAdd<K>(order: seq<Ref>, key: map<Ref, K>, m: Model<K>, k: K, x: Ref)
    requires Represents(order, key, m) && k !in m.index && x !in order
    ensures Represents(order + [x], key[x := k], Step(m, FindOrAdd(k, x)))
  {
  }

  lemma RepresentsRemove<K>(order: seq<Ref>, key: map<Ref, K>, m: Model<K>, k: K)
    requires Represents(order, key, m) && k in m.index && Distinct(order)
    ensures Represents(Without(order, IndexOf(order, m.index[k])), key, Step(m, Remove(k)))
  {
    var i := IndexOf(order, m.index[k]);
    WithoutMembers(order, i);
    WithoutIsExcept(order, i);
  }

  /** One operation: the pointer found is the one the map holds, also when the addition doubles the
      bucket array, and the table goes on representing the map. */
  method Apply<K(==)>(t: Table<K>, op: Op<K>, ghost m: Model<K>) returns (out: Ref)
    requires t.Valid() && Represents(t.order, t.hh.key, m) && Legal(m, [op])
    modifies t, t.buckets
    ensures t.Valid() && (t.buckets == old(t.buckets) || fresh(t.buckets))
    ensures Represents(t.order, t.hh.key, Step(m, op))
    ensures out == Answer(m, op)
  {
    out := t.Find(op.key);
    assert op.key in m.index <==> out != NULL;
    match op
    case Lookup(_) =>
    case FindOrAdd(k, x) =>
      if out == NULL {
        RepresentsAdd(t.order, t.hh.key, m, k, x);
        t.Add(x, k);
        out := x;
      }
    case Remove(k) =>
      if out != NULL {
        RepresentsRemove(t.order, t.hh.key, m, k);
        t.Delete(out);
      }
  }

  /** Every run on an empty table, with any hash function: each answer is the plain map's. */
  method Run<K(==)>(hash: K -> nat, ops: seq<Op<K>>) returns (t: Table<K>, outs: seq<Ref>)
    requires Legal(Model(map[], []), ops)
    ensures t.Valid() && Represents(t.order, t.hh.key, Final(Model(map[], []), ops))
    ensures outs == Answers(Model(map[], []), ops)
  {
    ghost var m: Model<K> := Model(map[], []);
    ghost var rest := ops;
    t := new Table(hash);
    outs := [];
    for i := 0 to |ops|
      invariant fresh(t) && fresh(t.buckets) && t.Valid()
      invariant rest == ops[i..] && Legal(m, rest)
      invariant Represents(t.order, t.hh.key, m)
      invariant outs + Answers(m, rest) == Answers(Model(map[], []), ops)
      invariant Final(m, rest) == Final(Model(map[], []), ops)
    {
      var out := Apply(t, ops[i], m);
      outs := outs + [out];
      m := Step(m, ops[i]);
      rest := rest[1..];
    }
  }
}
