/** What becomes of suspended packets in a run of a VLAN's router. */
module WaitingRuns {
  import opened Options
  import opened Seqs
  import opened Ipv4
  import opened AddressTable
  import opened FlowTables
  import opened VlanFlows
  import opened RouterSteps
  import opened AddressDeletion
  import opened SuspendedPackets
  import opened ArpPackets
  import opened RouterRuns

  /** The networks that a request deletes are those that are not left. */
  lemma DroppedAreDeleted(vid: nat, s: State, ids: Option<nat>, report: seq<Slot>, k: Net)
    requires RouterOk(vid, s) && Possible(s, RemoveAddresses(ids, report)) && k in s.addresses
    ensures k in Dropped(vid, s, ids, report) <==> k !in After(vid, s, RemoveAddresses(ids, report)).addresses
  {
    hide RouterOk, NetworksOk, TableOk, Chosen, KeptAddresses, Unreached, DroppedNets;
    TablesOk(vid, s);
    assert NetworksOk(vid, s.addresses, s.flows) by {
      NetworksHold(vid, s);
    }
    ChosenOfChooses(vid, ids, SkipSet(s, ids), report, s.flows);
    DroppedAreGone(vid, ids, SkipSet(s, ids), s.addresses, s.addressId, s.flows, ChosenOf(vid, ids, SkipSet(s, ids), report, s.flows));
    UnreachedAreKept(vid, ids, SkipSet(s, ids), s.addresses, s.addressId, s.flows);
  }

  lemma NetworksHold(vid: nat, s: State)
    requires RouterOk(vid, s)
    ensures NetworksOk(vid, s.addresses, s.flows)
  {
  }

  /** A request to delete networks lets exactly the packets to those networks go. */
  lemma DeletionReleases(vid: nat, s: State, b: Buffer, ids: Option<nat>, report: seq<Slot>, p: Packet)
    requires RouterOk(vid, s) && Possible(s, RemoveAddresses(ids, report))
    ensures p in WaitingAfter(vid, s, b, RemoveAddresses(ids, report)).held <==>
      && p in b.held
      && forall k :: k in s.addresses && k.1 <= 32 && InNet(p.dst, k) ==>
           k in After(vid, s, RemoveAddresses(ids, report)).addresses
  {
    hide RouterOk, Dropped, InNet, SkipSet, KeptAddresses, KeptFlows;
    var nets := Dropped(vid, s, ids, report);
    DeletedHeld(b, nets);
    DroppedThere(vid, s, ids, report);
    forall k | k in s.addresses ensures k in nets <==> k !in After(vid, s, RemoveAddresses(ids, report)).addresses {
      DroppedAreDeleted(vid, s, ids, report, k);
    }
    if p in Deleted(b, nets).held {
      forall k | k in s.addresses && k.1 <= 32 && InNet(p.dst, k) ensures k !in nets {
        assert Leaves(Deletion(k), p);
      }
    }
  }

  lemma DroppedThere(vid: nat, s: State, ids: Option<nat>, report: seq<Slot>)
    requires Possible(s, RemoveAddresses(ids, report))
    ensures forall k :: k in Dropped(vid, s, ids, report) ==> k in s.addresses
  {
  }

  /** When a request has deleted all networks, exactly the packets that were for none of them still wait. */
  lemma AllNetworksGone(vid: nat, s: State, b: Buffer, ids: Option<nat>, report: seq<Slot>, p: Packet)
    requires RouterOk(vid, s) && Possible(s, RemoveAddresses(ids, report))
    requires After(vid, s, RemoveAddresses(ids, report)).addresses == map[]
    ensures p in WaitingAfter(vid, s, b, RemoveAddresses(ids, report)).held <==> p in b.held && !Attached(s.addresses, p.dst)
  {
    hide RouterOk, InNet;
    DeletionReleases(vid, s, b, ids, report, p);
  }

  // ---- runs ----

  /** A packet that has left does not come back. */
  lemma StaysAway(vid: nat, s: State, b: Buffer, e: Event, p: Packet)
    requires Possible(s, e) && p !in b.held && p.id < b.next
    ensures p !in WaitingAfter(vid, s, b, e).held && p.id < WaitingAfter(vid, s, b, e).next
  {
    hide Leaves, Suspends, Releases, Dropped;
    match e
    case RemoveAddresses(ids, report) => DeletedHeld(b, Dropped(vid, s, ids, report));
    case Arp(srcIp, _, _, _, _, _) => StayingMembers(Reply(srcIp), b.held);
    case TimeUp(id) => StayingMembers(Timeout(id), b.held);
    case _ =>
  }

  /** Whatever happens, a packet leaves exactly when its timer ends, when an ARP reply to one of the router's own
      addresses comes from its destination in an attached network, or when a network that contains its destination
      is deleted. */
  lemma LeavesFor(vid: nat, s: State, b: Buffer, e: Event, p: Packet)
    requires RouterOk(vid, s) && Possible(s, e) && BufferOk(b) && p in b.held
    ensures p !in WaitingAfter(vid, s, b, e).held <==>
      match e
      case TimeUp(id) => id == p.id
      case Arp(srcIp, _, dstIp, opcode, _, _) =>
        && opcode == ArpReply && srcIp == p.dst != dstIp && IsOwn(s.addresses, dstIp)
        && exists k :: k in s.addresses && k.1 <= 32 && InNet(p.dst, k)
      case RemoveAddresses(_, _) =>
        exists k :: k in s.addresses && k.1 <= 32 && InNet(p.dst, k) && k !in After(vid, s, e).addresses
      case _ => false
    ensures p.id < WaitingAfter(vid, s, b, e).next
  {
    hide RouterOk, InNet, Dropped, KeptAddresses, KeptFlows, SkipSet, BufferOk;
    BelowNext(b, p);
    match e
    case RemoveAddresses(ids, report) =>
      DeletionReleases(vid, s, b, ids, report, p);
      DeletedHeld(b, Dropped(vid, s, ids, report));
    case Arp(srcIp, _, _, _, _, _) => StayingMembers(Reply(srcIp), b.held);
    case TimeUp(id) => StayingMembers(Timeout(id), b.held);
    case _ =>
  }

  /** The destination of a packet that stays is in an attached network afterwards if it was before. */
  lemma StaysAttached(vid: nat, s: State, b: Buffer, e: Event, p: Packet)
    requires RouterOk(vid, s) && Possible(s, e) && BufferOk(b) && p in b.held
    ensures p in WaitingAfter(vid, s, b, e).held && Attached(s.addresses, p.dst) ==> Attached(After(vid, s, e).addresses, p.dst)
  {
    hide RouterOk, InNet, Dropped, KeptAddresses, KeptFlows, SkipSet, BufferOk;
    match e
    case RemoveAddresses(ids, report) => DeletionReleases(vid, s, b, ids, report, p);
    case PutAddress(gw, netmask) =>
      if Attached(s.addresses, p.dst) {
        StillAttached(vid, s, gw, netmask, p.dst);
      }
    case _ =>
  }

  lemma BelowNext(b: Buffer, p: Packet)
    requires BufferOk(b) && p in b.held
    ensures p.id < b.next
  {
    HeldCountIn(b.held, p.id);
    assert HeldCount(b.held, p.id) + GoneCount(b.departures, p.id) == if p.id < b.next then 1 else 0;
  }

  lemma StillAttached(vid: nat, s: State, gw: Ip, netmask: int, dst: Ip)
    requires RouterOk(vid, s) && Possible(s, PutAddress(gw, netmask)) && Attached(s.addresses, dst)
    ensures Attached(After(vid, s, PutAddress(gw, netmask)).addresses, dst)
  {
    hide RouterOk, InNet, Fits, WithAddress, ApplyMask;
    var k :| k in s.addresses && k.1 <= 32 && InNet(dst, k);
    assert k in After(vid, s, PutAddress(gw, netmask)).addresses;
  }

  /** The destination is in an attached network at some point of the run. */
  ghost predicate EverAttached(vid: nat, s: State, events: seq<Event>, dst: Ip)
    requires RouterOk(vid, s) && GoodRun(vid, s, events)
    decreases |events|
  {
    || Attached(s.addresses, dst)
    || (events != [] && (EventOk(vid, s, events[0]); EverAttached(vid, After(vid, s, events[0]), events[1..], dst)))
  }

  lemma {:induction false} NeverBack(vid: nat, s: State, b: Buffer, events: seq<Event>, p: Packet)
    requires RouterOk(vid, s) && GoodRun(vid, s, events) && p !in b.held && p.id < b.next
    ensures p !in WaitingFrom(vid, s, b, events).held
    decreases |events|
  {
    hide RouterOk, Possible, Harmless, After, WaitingAfter;
    if events != [] {
      EventOk(vid, s, events[0]);
      StaysAway(vid, s, b, events[0], p);
      NeverBack(vid, After(vid, s, events[0]), WaitingAfter(vid, s, b, events[0]), events[1..], p);
    }
  }

  /** In every run at the end of which no network is left, a packet that waits at its start still waits exactly
      when its destination was never in an attached network and its timer has not ended. */
  lemma {:induction false} WaitsToTheEnd(vid: nat, s: State, b: Buffer, events: seq<Event>, p: Packet)
    requires RouterOk(vid, s) && GoodRun(vid, s, events) && BufferOk(b) && p in b.held
    requires RunFrom(vid, s, events).addresses == map[]
    ensures p in WaitingFrom(vid, s, b, events).held <==>
      !EverAttached(vid, s, events, p.dst) && TimeUp(p.id) !in events
    decreases |events|
  {
    hide RouterOk, Possible, Harmless, After, WaitingAfter, BufferOk;
    if events != [] {
      var e, rest := events[0], events[1..];
      var s', b' := After(vid, s, e), WaitingAfter(vid, s, b, e);
      EventOk(vid, s, e);
      WaitingOk(vid, s, b, e);
      LeavesFor(vid, s, b, e, p);
      StaysAttached(vid, s, b, e, p);
      assert events == [e] + rest;
      if p in b'.held {
        WaitsToTheEnd(vid, s', b', rest, p);
        if Attached(s'.addresses, p.dst) {
          AttachedNowOrLater(vid, s', rest, p.dst);
        }
      } else {
        NeverBack(vid, s', b', rest, p);
      }
    }
  }

  lemma AttachedNowOrLater(vid: nat, s: State, events: seq<Event>, dst: Ip)
    requires RouterOk(vid, s) && GoodRun(vid, s, events) && Attached(s.addresses, dst)
    ensures EverAttached(vid, s, events, dst)
  {
    hide RouterOk, GoodRun, Attached;
  }
}
