/** When attached networks can be deleted after a request for route 0 has taken their flows away. */
module NetworkRemoval {
  import opened Options
  import opened Ipv4
  import opened AddressTable
  import opened RouteTable
  import opened FlowTables
  import opened FlowSteps
  import opened VlanFlows
  import opened RouterSteps
  import opened RouteDeletion
  import opened AddressDeletion

  /** A router in order after a request to delete route 0, for which the switch reported its flows in the order
      of the list */
  function RouteZeroDeleted(vid: nat, s: State, list: seq<Slot>): State
    requires forall x :: x in list ==> x in s.flows
  {
    s.(routes := RoutesWithout(s.routes, Some(0)), flows := FlowsAfter(vid, s.flows, list))
  }

  lemma RoutesAllStay(vid: nat, s: State)
    requires RouterOk(vid, s)
    ensures RoutesWithout(s.routes, Some(0)) == s.routes
  {
  }

  /** No flow of a network's is left. */
  lemma NoCookieLeft(vid: nat, s: State, list: seq<Slot>, id: nat)
    requires RouterOk(vid, s) && Picks(vid, Some(0), s.flows, list) && 1 <= id <= MAX_ID
    ensures !HasCookie(vid, FlowsAfter(vid, s.flows, list), id)
  {
    hide RouterOk, FlowsAfter, Picked;
    AddressCookieRoundTrip(vid, id);
    ItIsHousekept(vid, s);
    NetworkFlowsGo(vid, s.flows, Some(0), list);
    NothingNew(vid, s.flows, Some(0), list);
  }

  lemma ItIsHousekept(vid: nat, s: State)
    requires RouterOk(vid, s)
    ensures Housekept(vid, s.flows)
  {
  }

  lemma IdsAreSmall(vid: nat, s: State, k: Net)
    requires RouterOk(vid, s) && k in s.addresses
    ensures 1 <= s.addresses[k].id <= MAX_ID
  {
  }

  /** Then no request deletes a network. */
  lemma NetworksStuck(vid: nat, s: State, list: seq<Slot>, id: Option<nat>, skip: set<nat>)
    requires RouterOk(vid, s) && Picks(vid, Some(0), s.flows, list)
    ensures Unreached(vid, id, skip, s.addresses, FlowsAfter(vid, s.flows, list)) == s.addresses
  {
    hide RouterOk, FlowsAfter, Picked, HasCookie, Unreached, TableOk, RoutesOk, GatewaysOk;
    TablesOk(vid, s);
    forall k | k in s.addresses ensures k in Unreached(vid, id, skip, s.addresses, FlowsAfter(vid, s.flows, list)) {
      IdsAreSmall(vid, s, k);
      NoCookieLeft(vid, s, list, s.addresses[k].id);
      GoesWithItsFlow(vid, id, skip, s.addresses, s.addressId, FlowsAfter(vid, s.flows, list), k);
    }
    UnreachedSame(vid, id, skip, s.addresses, FlowsAfter(vid, s.flows, list));
  }

  lemma UnreachedSame(vid: nat, id: Option<nat>, skip: set<nat>, addresses: Addresses, flows: FlowTable)
    requires forall k :: k in addresses ==> k in Unreached(vid, id, skip, addresses, flows)
    ensures Unreached(vid, id, skip, addresses, flows) == addresses
  {
    hide Reached;
  }

  /** ARP packets still come to the controller, exactly when the request was not for VLAN 0. */
  lemma ArpStillComes(vid: nat, s: State, list: seq<Slot>)
    requires RouterOk(vid, s) && SharedFlows(s.flows) && Picks(vid, Some(0), s.flows, list)
    ensures var after := FlowsAfter(vid, s.flows, list);
      (ARP_SLOT in after && after[ARP_SLOT].action == Controller) <==> vid != 0
  {
    hide RouterOk, FlowsAfter;
    PickedGo(vid, Some(0), s.flows, list);
  }

  /** An ARP packet from an attached network restores a flow of that network, unless its sender is the gateway of
      a route: after it, exactly that network goes when it is asked for and not left out. */
  lemma ArpFrees(vid: nat, s: State, list: seq<Slot>, a: Address, srcIp: Ip, srcMac: Mac, port: int, portMac: Mac,
                 id: Option<nat>, skip: set<nat>, k: Net)
    requires RouterOk(vid, s) && Picks(vid, Some(0), s.flows, list) && Finds(s.addresses, srcIp, Some(a)) && k in s.addresses
    ensures var s' := AfterArp(vid, RouteZeroDeleted(vid, s, list), Some(a), srcIp, srcMac, port, portMac);
      k !in Unreached(vid, id, skip, s.addresses, s'.flows) <==>
        && k == NetOf(a) && !(exists r :: r in s.routes && s.routes[r].gateway == srcIp)
        && a.id !in skip && (id.Some? ==> id.value == a.id)
  {
    hide RouterOk, FlowsAfter, Picked, Unreached, HasCookie, LearntFlows, InNet, HostSlot, TableOk, RoutesOk, GatewaysOk;
    var s1 := RouteZeroDeleted(vid, s, list);
    var s' := AfterArp(vid, s1, Some(a), srcIp, srcMac, port, portMac);
    var x := s.addresses[k].id;
    TablesOk(vid, s);
    RoutesAllStay(vid, s);
    IdsAreSmall(vid, s, k);
    NoCookieLeft(vid, s, list, x);
    GoesWithItsFlow(vid, id, skip, s.addresses, s.addressId, s'.flows, k);
    IdsDiffer(s.addresses, s.addressId, k, a);
    if exists r :: r in s.routes && s.routes[r].gateway == srcIp {
      LearntCookies(vid, s1.routes, srcIp, srcMac, Output(port, portMac, srcMac), s1.flows, x);
    } else {
      HostCookies(vid, s1.flows, a, srcIp, Output(port, portMac, srcMac), x);
    }
  }

  lemma IdsDiffer(t: Addresses, nextId: nat, k: Net, a: Address)
    requires TableOk(t, nextId) && k in t && NetOf(a) in t && t[NetOf(a)] == a
    ensures t[k].id == a.id <==> k == NetOf(a)
  {
    hide Apart, EntryOk;
  }

  lemma LearntCookies(vid: nat, t: Routes, gateway: Ip, mac: Mac, action: Action, flows: FlowTable, id: nat)
    ensures HasCookie(vid, LearntFlows(vid, t, gateway, mac, action, flows), id) <==> HasCookie(vid, flows, id)
  {
    var flows' := LearntFlows(vid, t, gateway, mac, action, flows);
    if HasCookie(vid, flows, id) {
      var s :| s in flows && flows[s].cookie == AddressCookie(vid, id);
      assert s in flows' && flows'[s].cookie == AddressCookie(vid, id);
    }
  }

  lemma HostCookies(vid: nat, flows: FlowTable, a: Address, host: Ip, action: Action, id: nat)
    requires !HasCookie(vid, flows, id)
    ensures HasCookie(vid, HostLearnt(vid, flows, a, host, action), id) <==> id == a.id
  {
    hide HostSlot;
    var flows' := HostLearnt(vid, flows, a, host, action);
    assert HostSlot(vid, host) in flows' && flows'[HostSlot(vid, host)].cookie == AddressCookie(vid, a.id);
  }
}
