/** What ARP packets ask for and release. */
module ArpPackets {
  import opened Options
  import opened Seqs
  import opened Ipv4
  import opened AddressTable
  import opened RouteTable
  import opened VlanFlows
  import opened RouterSteps
  import opened SuspendedPackets

  datatype Opcode = ArpRequest | ArpReply | OtherOpcode

  /** What becomes of an ARP packet: an ARP reply to one of the router's own addresses lets packets go. */
  datatype ArpOutcome =
    | Ignored
    | ForwardedNormally
    | Answered
    | Released(packets: seq<Packet>)

  /** A request for a gateway's MAC address, from the router's address in the network that contains it */
  ghost predicate Asks(addresses: Addresses, q: (Ip, Ip), gateway: Ip) {
    && q.1 == gateway != q.0
    && exists n :: n in addresses && n.1 <= 32 && InNet(gateway, n) && addresses[n].gw == q.0
  }

  lemma RequestIsRight(addresses: Addresses, addressId: nat, gateway: Ip, r: Option<Address>)
    requires TableOk(addresses, addressId) && Finds(addresses, gateway, r) && Usable(addresses, gateway)
    ensures r.Some? && Asks(addresses, (r.value.gw, gateway), gateway)
    ensures r.value.gw != gateway && exists n :: n in addresses && n.1 <= 32 && InNet(gateway, n) && addresses[n].gw == r.value.gw
  {
    hide InNet;
    GatewayFound(addresses, addressId, gateway, r);
    assert InNet(gateway, NetOf(r.value));
  }

  /** An ARP packet that lets packets go: a reply from an attached network to one of the router's own addresses */
  ghost predicate Releases(t: Addresses, srcIp: Ip, dstIp: Ip, opcode: Opcode) {
    Attached(t, srcIp) && srcIp != dstIp && IsOwn(t, dstIp) && opcode == ArpReply
  }

  /** An IP packet that is suspended: not one for the router itself, while fewer than 50 wait, when an attached
      network or a route has its destination */
  ghost predicate Suspends(t: Addresses, routes: Routes, b: Buffer, dst: Ip) {
    !IsOwn(t, dst) && |b.held| < MAX_SUSPENDPACKETS && (Attached(t, dst) || exists r :: Longest(routes, dst, Some(r)))
  }

  lemma FoundIsAttached(t: Addresses, ip: Ip, r: Option<Address>)
    requires Finds(t, ip, r)
    ensures r.Some? <==> Attached(t, ip)
  {
    hide InNet;
    if r.Some? {
      assert InNet(ip, NetOf(r.value));
    }
  }

  lemma NotAttachedNotSame(t: Addresses, a: Ip, b: Ip)
    requires !Attached(t, a)
    ensures !SameNet(t, a, b)
  {
    hide InNet;
  }

  /** Comparing the ids of the networks found is comparing the networks. */
  lemma SameNetById(t: Addresses, nextId: nat, a: Ip, x: Address, b: Ip, y: Option<Address>)
    requires TableOk(t, nextId) && Finds(t, a, Some(x)) && Finds(t, b, y)
    ensures y.Some? && y.value.id == x.id <==> SameNet(t, a, b)
  {
    hide InNet;
    if SameNet(t, a, b) {
      var k :| k in t && k.1 <= 32 && InNet(a, k) && InNet(b, k);
      AtMostOne(t, nextId, a, k, NetOf(x));
      AtMostOne(t, nextId, b, k, NetOf(y.value));
    }
    if y.Some? && y.value.id == x.id {
      assert NetOf(x) == NetOf(y.value);
      assert InNet(a, NetOf(x)) && InNet(b, NetOf(x));
    }
  }

  method IsGateway(addressData: AddressData, ip: Ip) returns (r: bool)
    ensures r <==> exists k :: k in addressData.entries && addressData.entries[k].gw == ip
    ensures r <==> IsOwn(addressData.entries, ip)
  {
    var keys := Enumerate(addressData.entries.Keys);
    for i := 0 to |keys|
      invariant forall j :: 0 <= j < i ==> addressData.entries[keys[j]].gw != ip
    {
      assert keys[i] in keys;
      if addressData.entries[keys[i]].gw == ip {
        return true;
      }
    }
    forall k | k in addressData.entries ensures addressData.entries[k].gw != ip {
      assert k in keys;
    }
    return false;
  }

  lemma LongestMatches(t: Routes, nextId: nat, ip: Ip, r: Option<Route>)
    requires RoutesOk(t, nextId) && Longest(t, ip, r)
    ensures r.Some? <==> exists k :: k in t && t[k].len <= 32 && Matches(t[k], ip)
  {
  }

  lemma RouteIsUsable(addresses: Addresses, routes: Routes, dst: Ip, r: Option<Route>)
    requires GatewaysOk(addresses, routes) && Longest(routes, dst, r) && r.Some?
    ensures Usable(addresses, r.value.gateway)
  {
  }

  /** The reply to the ARP request that a packet gave rise to releases it exactly when its destination is in an
      attached network: for a packet that waits for a gateway, the reply comes from another address than the
      one it is filed under. */
  lemma ReplyReleases(t: Addresses, nextId: nat, dst: Ip, a: Option<Address>, q: (Ip, Ip), gateway: Ip, p: Packet)
    requires TableOk(t, nextId) && Finds(t, dst, a) && p.dst == dst
    requires if a.Some? then q.1 == dst else Asks(t, q, gateway)
    ensures Leaves(Reply(q.1), p) <==> Attached(t, dst)
  {
    hide InNet;
    FoundIsAttached(t, dst, a);
    if a.None? {
      var n :| n in t && n.1 <= 32 && InNet(gateway, n) && t[n].gw == q.0;
      assert Attached(t, gateway);
    }
  }
}
