/** The list of packets that wait for an ARP reply, class SuspendPacketList of rest_router.py. */
module PacketBuffers {
  import opened Options
  import opened Seqs
  import opened Ipv4
  import opened AddressTable
  import opened SuspendedPackets

  class PacketBuffer {
    var held: seq<Packet>
    /** How many packets were created; the next one's identity */
    var created: nat
    ghost var departures: seq<(nat, Cause)>

    ghost function Contents(): Buffer
      reads this
    {
      Buffer(held, created, departures)
    }

    ghost predicate Valid()
      reads this
    {
      BufferOk(Contents())
    }

    constructor ()
      ensures Valid() && Contents() == BufferAfter([])
    {
      held := [];
      created := 0;
      departures := [];
      new;
      RunIsOk([]);
    }

    /** The list's delete for the packets that leave for one cause */
    method LetGo(ghost c: Cause, gone: seq<Packet>)
      requires Valid() && gone == Leaving(c, held)
      modifies this
      ensures Valid() && Contents() == Left(old(Contents()), c)
      ensures forall p :: p in held <==> p in old(held) && !Leaves(c, p)
    {
      hide Leaves;
      StayingMembers(c, held);
      ghost var before := held;
      ghost var was := departures;
      AllDistinct(Contents());
      LeavingMembers(c, before);
      RemainingAll(before, []);
      for i := 0 to |gone|
        invariant held == Remaining(before, gone[..i]) && created == old(created) && departures == was
      {
        TakeNext(gone, i);
        NotBefore(gone, i);
        assert gone[i] in gone;
        RemoveNext(before, gone[..i], gone[i]);
        held := Remove(held, gone[i]);
      }
      assert gone[..|gone|] == gone;
      RemainingStay(c, before, gone);
      departures := departures + Marked(c, gone);
      LeftOk(old(Contents()), c);
    }

    /** add: the packet goes to the end of the list. */
    method Add(inPort: int, dst: Ip)
      requires Valid() && |held| < 50
      modifies this
      ensures Valid() && Contents() == Step(old(Contents()), Arrival(inPort, dst))
      ensures held == old(held) + [Packet(old(created), inPort, dst)] && created == old(created) + 1
    {
      AddedOk(Contents(), inPort, dst);
      held := held + [Packet(created, inPort, dst)];
      created := created + 1;
    }

    /** wait_arp_reply_timer, when a packet's time is up: the packet leaves if it is still there. */
    method TimeIsUp(id: nat) returns (timedOut: bool)
      requires Valid()
      modifies this
      ensures Valid() && Contents() == Left(old(Contents()), Timeout(id))
      ensures timedOut <==> exists p :: p in old(held) && p.id == id
      ensures forall p :: p in held <==> p in old(held) && p.id != id
    {
      var packets := Leaving(Timeout(id), held);
      LeavingMembers(Timeout(id), held);
      timedOut := packets != [];
      assert timedOut ==> packets[0] in packets;
      LetGo(Timeout(id), packets);
    }

    /** The part of _delete_address_data that lets the packets for a deleted network go */
    method DropNetwork(a: Address) returns (packets: seq<Packet>)
      requires Valid() && a.len <= 32
      modifies this
      ensures Valid() && Contents() == Left(old(Contents()), Deletion(NetOf(a)))
      ensures packets == Leaving(Deletion(NetOf(a)), old(held))
      ensures forall p :: p in held <==> p in old(held) && !InNet(p.dst, (a.nw, a.len))
    {
      packets := Leaving(Deletion(NetOf(a)), held);
      LetGo(Deletion(NetOf(a)), packets);
    }
  }

  lemma AllDistinct(b: Buffer)
    requires BufferOk(b)
    ensures Distinct(b.held)
  {
    forall id: nat ensures HeldCount(b.held, id) <= 1 {
      assert HeldCount(b.held, id) + GoneCount(b.departures, id) == if id < b.next then 1 else 0;
    }
    HeldOnce(b.held);
  }
}
