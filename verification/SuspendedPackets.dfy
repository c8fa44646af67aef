/** Packets that wait for an ARP reply, class SuspendPacketList of rest_router.py, each handler being one
    atomic step. */
module SuspendedPackets {
  import opened Options
  import opened Seqs
  import opened Ipv4
  import opened AddressTable

  const MAX_SUSPENDPACKETS: nat := 50

  /** A suspended packet; `id` stands for the identity of the object. */
  datatype Packet = Packet(id: nat, inPort: int, dst: Ip)

  /** Why packets leave: an ARP reply from their destination, the end of a packet's timer, the deletion of
      the network that contains their destination */
  datatype Cause = Reply(src: Ip) | Timeout(id: nat) | Deletion(net: Net)

  predicate Leaves(c: Cause, p: Packet) {
    match c
    case Reply(src) => p.dst == src
    case Timeout(id) => p.id == id
    case Deletion(net) => net.1 <= 32 && InNet(p.dst, net)
  }

  function Leaving(c: Cause, held: seq<Packet>): seq<Packet> {
    if held == [] then [] else
      var rest := Leaving(c, held[1..]);
      if Leaves(c, held[0]) then [held[0]] + rest else rest
  }

  function Staying(c: Cause, held: seq<Packet>): seq<Packet> {
    if held == [] then [] else
      var rest := Staying(c, held[1..]);
      if Leaves(c, held[0]) then rest else [held[0]] + rest
  }

  function Marked(c: Cause, packets: seq<Packet>): seq<(nat, Cause)> {
    if packets == [] then [] else [(packets[0].id, c)] + Marked(c, packets[1..])
  }

  /** The packets held, the number of packets ever added, and the departures with their causes */
  datatype Buffer = Buffer(held: seq<Packet>, next: nat, departures: seq<(nat, Cause)>)

  function Added(b: Buffer, inPort: int, dst: Ip): Buffer {
    Buffer(b.held + [Packet(b.next, inPort, dst)], b.next + 1, b.departures)
  }

  function Left(b: Buffer, c: Cause): Buffer {
    Buffer(Staying(c, b.held), b.next, b.departures + Marked(c, Leaving(c, b.held)))
  }

  // ---- the invariant ----

  function HeldCount(held: seq<Packet>, id: nat): nat {
    if held == [] then 0 else (if held[0].id == id then 1 else 0) + HeldCount(held[1..], id)
  }

  function GoneCount(departures: seq<(nat, Cause)>, id: nat): nat {
    if departures == [] then 0 else (if departures[0].0 == id then 1 else 0) + GoneCount(departures[1..], id)
  }

  /** At most 50 packets are held, and every packet ever added is held once or has left once, not both. */
  ghost predicate BufferOk(b: Buffer) {
    && |b.held| <= MAX_SUSPENDPACKETS
    && (forall id: nat :: HeldCount(b.held, id) + GoneCount(b.departures, id) == if id < b.next then 1 else 0)
  }

  lemma {:induction false} HeldCountConcat(s: seq<Packet>, t: seq<Packet>, id: nat)
    ensures HeldCount(s + t, id) == HeldCount(s, id) + HeldCount(t, id)
  {
    if s == [] {
      assert s + t == t;
    } else {
      assert (s + t)[1..] == s[1..] + t;
      HeldCountConcat(s[1..], t, id);
    }
  }

  lemma {:induction false} GoneCountConcat(s: seq<(nat, Cause)>, t: seq<(nat, Cause)>, id: nat)
    ensures GoneCount(s + t, id) == GoneCount(s, id) + GoneCount(t, id)
  {
    if s == [] {
      assert s + t == t;
    } else {
      assert (s + t)[1..] == s[1..] + t;
      GoneCountConcat(s[1..], t, id);
    }
  }

  /** Nothing is lost or doubled between staying and leaving. */
  lemma {:induction false} SplitCount(c: Cause, held: seq<Packet>, id: nat)
    ensures HeldCount(Staying(c, held), id) + GoneCount(Marked(c, Leaving(c, held)), id) == HeldCount(held, id)
    ensures |Staying(c, held)| <= |held|
  {
    if held != [] {
      SplitCount(c, held[1..], id);
      if Leaves(c, held[0]) {
        HeadTail(held[0], Leaving(c, held[1..]));
        HeadTail((held[0].id, c), Marked(c, Leaving(c, held[1..])));
      } else {
        HeadTail(held[0], Staying(c, held[1..]));
      }
    }
  }

  lemma AddedOk(b: Buffer, inPort: int, dst: Ip)
    requires BufferOk(b) && |b.held| < MAX_SUSPENDPACKETS
    ensures BufferOk(Added(b, inPort, dst))
  {
    var b' := Added(b, inPort, dst);
    forall id: nat ensures HeldCount(b'.held, id) + GoneCount(b'.departures, id) == if id < b'.next then 1 else 0 {
      HeldCountConcat(b.held, [Packet(b.next, inPort, dst)], id);
      assert HeldCount(b.held, id) + GoneCount(b.departures, id) == if id < b.next then 1 else 0;
    }
  }

  lemma LeftOk(b: Buffer, c: Cause)
    requires BufferOk(b)
    ensures BufferOk(Left(b, c))
  {
    var b' := Left(b, c);
    SplitCount(c, b.held, 0);
    forall id: nat ensures HeldCount(b'.held, id) + GoneCount(b'.departures, id) == if id < b'.next then 1 else 0 {
      SplitCount(c, b.held, id);
      GoneCountConcat(b.departures, Marked(c, Leaving(c, b.held)), id);
      assert HeldCount(b.held, id) + GoneCount(b.departures, id) == if id < b.next then 1 else 0;
    }
  }

  // ---- runs ----

  datatype BufferEvent = Arrival(inPort: int, dst: Ip) | Departure(cause: Cause)

  /** One handler: a packet that arrives is dropped when 50 are held. */
  function Step(b: Buffer, e: BufferEvent): Buffer {
    match e
    case Arrival(inPort, dst) => if |b.held| >= MAX_SUSPENDPACKETS then b else Added(b, inPort, dst)
    case Departure(c) => Left(b, c)
  }

  function BufferFrom(b: Buffer, events: seq<BufferEvent>): Buffer {
    if events == [] then b else Step(BufferFrom(b, events[..|events| - 1]), events[|events| - 1])
  }

  function BufferAfter(events: seq<BufferEvent>): Buffer {
    BufferFrom(Buffer([], 0, []), events)
  }

  lemma StepOk(b: Buffer, e: BufferEvent)
    requires BufferOk(b)
    ensures BufferOk(Step(b, e))
  {
    match e
    case Arrival(inPort, dst) =>
      if |b.held| < MAX_SUSPENDPACKETS {
        AddedOk(b, inPort, dst);
      }
    case Departure(c) => LeftOk(b, c);
  }

  lemma {:induction false} BufferFromOk(b: Buffer, events: seq<BufferEvent>)
    requires BufferOk(b)
    ensures BufferOk(BufferFrom(b, events))
    decreases |events|
  {
    if events != [] {
      BufferFromOk(b, events[..|events| - 1]);
      StepOk(BufferFrom(b, events[..|events| - 1]), events[|events| - 1]);
    }
  }

  lemma RunIsOk(events: seq<BufferEvent>)
    ensures BufferOk(BufferAfter(events))
  {
    forall id: nat ensures HeldCount([], id) + GoneCount([], id) == 0 {
    }
    BufferFromOk(Buffer([], 0, []), events);
  }

  // ---- removing one by one ----

  lemma {:induction false} HeldCountIn(held: seq<Packet>, id: nat)
    ensures HeldCount(held, id) > 0 <==> exists p :: p in held && p.id == id
  {
    if held != [] {
      HeldCountIn(held[1..], id);
    }
  }

  lemma {:induction false} HeldOnce(held: seq<Packet>)
    requires forall id: nat :: HeldCount(held, id) <= 1
    ensures Distinct(held)
  {
    if held != [] {
      forall id: nat ensures HeldCount(held[1..], id) <= 1 {
        assert HeldCount(held, id) <= 1;
      }
      HeldOnce(held[1..]);
      assert HeldCount(held, held[0].id) <= 1;
      HeldCountIn(held[1..], held[0].id);
    }
  }

  function Remaining(held: seq<Packet>, gone: seq<Packet>): seq<Packet> {
    if held == [] then [] else
      var rest := Remaining(held[1..], gone);
      if held[0] in gone then rest else [held[0]] + rest
  }

  /** The list's remove: the first occurrence goes. */
  function Remove(held: seq<Packet>, p: Packet): (r: seq<Packet>)
    requires p in held
  {
    if held[0] == p then held[1..] else [held[0]] + Remove(held[1..], p)
  }

  lemma {:induction false} RemainingMembers(held: seq<Packet>, gone: seq<Packet>)
    ensures forall p :: p in Remaining(held, gone) <==> p in held && p !in gone
  {
    if held != [] {
      RemainingMembers(held[1..], gone);
    }
  }

  lemma {:induction false} RemainingAll(held: seq<Packet>, gone: seq<Packet>)
    requires forall p :: p in held ==> p !in gone
    ensures Remaining(held, gone) == held
  {
    if held != [] {
      RemainingAll(held[1..], gone);
    }
  }

  lemma {:induction false} RemoveNext(held: seq<Packet>, gone: seq<Packet>, p: Packet)
    requires Distinct(held) && p in held && p !in gone
    ensures p in Remaining(held, gone)
    ensures Remove(Remaining(held, gone), p) == Remaining(held, gone + [p])
  {
    RemainingMembers(held, gone);
    HeadTail(held[0], Remaining(held[1..], gone));
    if held[0] == p {
      SameRemaining(held[1..], gone, p);
    } else {
      RemoveNext(held[1..], gone, p);
    }
  }

  lemma {:induction false} SameRemaining(held: seq<Packet>, gone: seq<Packet>, p: Packet)
    requires p !in held
    ensures Remaining(held, gone + [p]) == Remaining(held, gone)
  {
    if held != [] {
      SameRemaining(held[1..], gone, p);
    }
  }

  lemma {:induction false} LeavingMembers(c: Cause, held: seq<Packet>)
    ensures forall p :: p in Leaving(c, held) <==> p in held && Leaves(c, p)
    ensures Distinct(held) ==> Distinct(Leaving(c, held))
  {
    if held != [] {
      LeavingMembers(c, held[1..]);
      HeadTail(held[0], Leaving(c, held[1..]));
    }
  }

  /** Removing the leaving packets leaves the staying ones. */
  lemma {:induction false} RemainingStay(c: Cause, held: seq<Packet>, gone: seq<Packet>)
    requires forall p :: p in held ==> (p in gone <==> Leaves(c, p))
    ensures Remaining(held, gone) == Staying(c, held)
  {
    if held != [] {
      RemainingStay(c, held[1..], gone);
    }
  }

  lemma {:induction false} StayingMembers(c: Cause, held: seq<Packet>)
    ensures forall p :: p in Staying(c, held) <==> p in held && !Leaves(c, p)
  {
    if held != [] {
      StayingMembers(c, held[1..]);
    }
  }

  lemma {:induction false} HeldApart(held: seq<Packet>, i: int, j: int)
    requires 0 <= i < j < |held| && HeldCount(held, held[i].id) <= 1
    ensures held[i].id != held[j].id
  {
    if i > 0 {
      HeldApart(held[1..], i - 1, j - 1);
    } else {
      HeldCountIn(held[1..], held[0].id);
      assert held[j] in held[1..] by {
        assert held[1..][j - 1] == held[j];
      }
    }
  }

  lemma {:induction false} GoneApart(departures: seq<(nat, Cause)>, i: int, j: int)
    requires 0 <= i < j < |departures| && GoneCount(departures, departures[i].0) <= 1
    ensures departures[i].0 != departures[j].0
  {
    if i > 0 {
      GoneApart(departures[1..], i - 1, j - 1);
    } else {
      GoneCountIn(departures[1..], departures[0].0);
      assert departures[j] in departures[1..] by {
        assert departures[1..][j - 1] == departures[j];
      }
    }
  }

  /** In every run, at every point of it, at most 50 packets are held, and every packet ever added is either held or
      has left, each once, and there are no others. */
  lemma EveryRunIsOk(events: seq<BufferEvent>, id: nat)
    ensures BufferOk(BufferAfter(events))
    ensures var b := BufferAfter(events);
      && |b.held| <= 50
      && (forall i, j :: 0 <= i < j < |b.held| ==> b.held[i].id != b.held[j].id)
      && (forall i, j :: 0 <= i < j < |b.departures| ==> b.departures[i].0 != b.departures[j].0)
      && (id < b.next ==> ((exists p :: p in b.held && p.id == id) <==> forall d :: d in b.departures ==> d.0 != id))
      && (id >= b.next ==> (forall p :: p in b.held ==> p.id != id) && forall d :: d in b.departures ==> d.0 != id)
  {
    RunIsOk(events);
    var b := BufferAfter(events);
    hide BufferAfter, HeldCount, GoneCount;
    HeldCountIn(b.held, id);
    GoneCountIn(b.departures, id);
    forall x: nat ensures HeldCount(b.held, x) <= 1 && GoneCount(b.departures, x) <= 1 {
      assert HeldCount(b.held, x) + GoneCount(b.departures, x) == if x < b.next then 1 else 0;
    }
    assert HeldCount(b.held, id) + GoneCount(b.departures, id) == if id < b.next then 1 else 0;
    forall i, j | 0 <= i < j < |b.held| ensures b.held[i].id != b.held[j].id {
      HeldApart(b.held, i, j);
    }
    forall i, j | 0 <= i < j < |b.departures| ensures b.departures[i].0 != b.departures[j].0 {
      GoneApart(b.departures, i, j);
    }
  }

  // ---- deleting networks ----

  /** The buffer after some networks were deleted, one by one */
  function Deleted(b: Buffer, nets: seq<Net>): Buffer {
    if nets == [] then b else Left(Deleted(b, nets[..|nets| - 1]), Deletion(nets[|nets| - 1]))
  }

  lemma {:induction false} DeletedOk(b: Buffer, nets: seq<Net>)
    requires BufferOk(b)
    ensures BufferOk(Deleted(b, nets))
    decreases |nets|
  {
    if nets != [] {
      DeletedOk(b, nets[..|nets| - 1]);
      LeftOk(Deleted(b, nets[..|nets| - 1]), Deletion(nets[|nets| - 1]));
    }
  }

  /** Exactly the packets to none of them are still held. */
  lemma {:induction false} DeletedHeld(b: Buffer, nets: seq<Net>)
    ensures forall p :: p in Deleted(b, nets).held <==> p in b.held && forall n :: n in nets ==> !Leaves(Deletion(n), p)
    ensures Deleted(b, nets).next == b.next
    decreases |nets|
  {
    hide Leaves;
    if nets != [] {
      var last := |nets| - 1;
      TakeNext(nets, last);
      DeletedHeld(b, nets[..last]);
      StayingMembers(Deletion(nets[last]), Deleted(b, nets[..last]).held);
    }
  }

  // ---- packets to no attached network ----

  /** What can happen while the networks are those of `t`, or fewer: ARP replies come from inside them, and only
      they are deleted. */
  ghost predicate Within(t: Addresses, e: BufferEvent) {
    match e
    case Arrival(_, _) => true
    case Departure(Reply(src)) => Attached(t, src)
    case Departure(Timeout(_)) => true
    case Departure(Deletion(net)) => net in t
  }

  lemma {:induction false} MarkedMembers(c: Cause, packets: seq<Packet>)
    ensures forall d :: d in Marked(c, packets) <==> d.1 == c && exists p :: p in packets && p.id == d.0
  {
    if packets != [] {
      MarkedMembers(c, packets[1..]);
    }
  }

  lemma {:induction false} GoneCountIn(departures: seq<(nat, Cause)>, id: nat)
    ensures GoneCount(departures, id) == 0 <==> forall d :: d in departures ==> d.0 != id
  {
    if departures != [] {
      GoneCountIn(departures[1..], id);
    }
  }

  /** Held packets have ids of their own. */
  lemma {:induction false} HeldById(held: seq<Packet>, p: Packet, q: Packet)
    requires HeldCount(held, p.id) <= 1 && p in held && q in held && p.id == q.id
    ensures p == q
  {
    HeldCountIn(held[1..], p.id);
    if p != held[0] && q != held[0] {
      HeldById(held[1..], p, q);
    }
  }

  /** A cause that can arise while the networks are those of `t` makes a packet to none of them leave exactly
      when it is the end of that packet's timer. */
  lemma OnlyItsTimer(t: Addresses, p: Packet, c: Cause)
    requires !Attached(t, p.dst) && Within(t, Departure(c))
    ensures Leaves(c, p) <==> c == Timeout(p.id)
  {
    hide InNet;
  }

  /** Where a packet to no attached network is, after some events: held, or gone by its timer. */
  ghost predicate HeldOrTimedOut(b: Buffer, p: Packet, timedOut: bool) {
    && p.id < b.next
    && (p in b.held <==> !timedOut) && (forall q :: q in b.held && q.id == p.id ==> q == p)
    && (forall d :: d in b.departures && d.0 == p.id ==> d.1 == Timeout(p.id))
    && (timedOut ==> (p.id, Timeout(p.id)) in b.departures)
  }

  lemma HeldAtFirst(b: Buffer, p: Packet)
    requires BufferOk(b) && p in b.held
    ensures HeldOrTimedOut(b, p, false)
  {
    HeldCountIn(b.held, p.id);
    assert HeldCount(b.held, p.id) + GoneCount(b.departures, p.id) == if p.id < b.next then 1 else 0;
    GoneCountIn(b.departures, p.id);
    forall q | q in b.held && q.id == p.id ensures q == p {
      HeldById(b.held, p, q);
    }
  }

  lemma HeldOrTimedOutStep(t: Addresses, b: Buffer, p: Packet, timedOut: bool, e: BufferEvent)
    requires HeldOrTimedOut(b, p, timedOut) && !Attached(t, p.dst) && Within(t, e)
    ensures HeldOrTimedOut(Step(b, e), p, timedOut || e == Departure(Timeout(p.id)))
  {
    hide Attached, Leaves;
    match e
    case Arrival(_, _) =>
    case Departure(c) =>
      OnlyItsTimer(t, p, c);
      StayingMembers(c, b.held);
      LeavingMembers(c, b.held);
      MarkedMembers(c, Leaving(c, b.held));
      TimerMarks(b.held, p, c);
  }

  lemma TimerMarks(held: seq<Packet>, p: Packet, c: Cause)
    requires forall q :: q in held && q.id == p.id ==> q == p
    ensures p in held && Leaves(c, p) ==> (p.id, c) in Marked(c, Leaving(c, held))
  {
    hide Leaves;
    LeavingMembers(c, held);
    MarkedMembers(c, Leaving(c, held));
  }

  /** A packet to no attached network leaves exactly when its timer ends, and for no other cause, in every run of
      whatever can happen while the networks are those there are, or fewer. */
  lemma {:induction false} OnlyTimersRelease(t: Addresses, b: Buffer, p: Packet, events: seq<BufferEvent>)
    requires BufferOk(b) && p in b.held && !Attached(t, p.dst) && forall e :: e in events ==> Within(t, e)
    ensures HeldOrTimedOut(BufferFrom(b, events), p, Departure(Timeout(p.id)) in events)
    decreases |events|
  {
    hide HeldOrTimedOut, Attached;
    if events == [] {
      HeldAtFirst(b, p);
    } else {
      var n := |events| - 1;
      TakeNext(events, n);
      OnlyTimersRelease(t, b, p, events[..n]);
      HeldOrTimedOutStep(t, BufferFrom(b, events[..n]), p, Departure(Timeout(p.id)) in events[..n], events[n]);
    }
  }
}
