/** The state of the router of one VLAN: attached networks, routes, and the flows on the switch that stand
    for them. */
module VlanFlows {
  import opened Options
  import opened Seqs
  import opened Ipv4
  import opened AddressTable
  import opened RouteTable
  import opened FlowTables
  import opened FlowSteps

  /** A gateway is usable when a registered network contains it as another address than its own gateway. */
  ghost predicate Usable(t: Addresses, gateway: Ip) {
    exists k :: k in t && k.1 <= 32 && InNet(gateway, k) && t[k].gw != gateway
  }

  ghost predicate GatewaysOk(addresses: Addresses, routes: Routes) {
    forall k :: k in routes ==> Usable(addresses, routes[k].gateway)
  }

  /** Every flow matches the VLAN of its cookie; the flows of all VLANs have cookie 0. */
  ghost predicate Tagged(flows: FlowTable) {
    forall s :: s in flows ==> s.0.vlan == VlanOf(flows[s].cookie)
  }

  /** The flows of the VLAN that are no route's: those of addresses have not the priority of a default route,
      and those with the VLAN's own cookie are for IP, save for the shared ones of VLAN 0. */
  ghost predicate Housekept(vid: nat, flows: FlowTable) {
    forall s :: s in flows && VlanOf(flows[s].cookie) == vid && RouteOf(flows[s].cookie) == 0 ==>
      && (AddressOf(flows[s].cookie) != 0 ==> s.1 != PRIORITY_DEFAULT_ROUTING + VlanShift(vid))
      && (AddressOf(flows[s].cookie) == 0 && s.0.eth != EthIp ==> vid == 0 && (s == ARP_SLOT || s == NORMAL_SLOT))
  }

  /** The switch agrees with the routing table, and on VLAN 0 it has the flows that all VLANs share. */
  ghost predicate FlowsOk(vid: nat, routes: Routes, flows: FlowTable) {
    && Agree(vid, routes, flows) && Housekept(vid, flows) && Tagged(flows)
    && (vid == 0 ==> SharedFlows(flows))
  }

  /** The flows of the other VLANs */
  function Others(vid: nat, flows: FlowTable): FlowTable {
    map s | s in flows && s.0.vlan != vid :: flows[s]
  }

  /** What leaves the flows of other VLANs alone keeps the routers of those VLANs in order. */
  lemma OtherVlansOk(vid: nat, flows: FlowTable, flows': FlowTable, v: nat, t: Routes)
    requires Tagged(flows') && Others(vid, flows') == Others(vid, flows)
    requires v != vid && FlowsOk(v, t, flows)
    ensures FlowsOk(v, t, flows')
  {
    OtherVlansSame(vid, flows, flows', v);
  }

  lemma OtherVlansSame(vid: nat, flows: FlowTable, flows': FlowTable, v: nat)
    requires Others(vid, flows') == Others(vid, flows) && v != vid
    ensures forall s: Slot :: s.0.vlan == v ==> (s in flows' <==> s in flows) && (s in flows ==> flows'[s] == flows[s])
  {
    forall s: Slot | s.0.vlan == v ensures s in flows' <==> s in flows {
      assert s in Others(vid, flows') <==> s in Others(vid, flows);
    }
    forall s | s in flows && s.0.vlan == v ensures s in flows' && flows'[s] == flows[s] {
      assert Others(vid, flows')[s] == Others(vid, flows)[s];
    }
  }

  // ---- flows of addresses ----

  function MacLearningSlot(vid: nat, a: Address): Slot {
    (Match(EthIp, vid, None, Some((a.nw, a.len))), TypePriority(PRIORITY_MAC_LEARNING, vid))
  }

  function IpHandlingSlot(vid: nat, a: Address): Slot {
    (Match(EthIp, vid, None, Some((a.gw, 32))), TypePriority(PRIORITY_IP_HANDLING, vid))
  }

  function SwitchingSlot(vid: nat, a: Address): Slot {
    (Match(EthIp, vid, Some((a.nw, a.len)), Some((a.nw, a.len))), TypePriority(PRIORITY_L2_SWITCHING, vid))
  }

  function HostSlot(vid: nat, host: Ip): Slot {
    (Match(EthIp, vid, None, Some((host, 32))), TypePriority(PRIORITY_IMPLICIT_ROUTING, vid))
  }

  /** A slot of an address flow: for IP, none of a route, and no default route's priority */
  ghost predicate AddressSlot(vid: nat, t: Routes, s: Slot) {
    && s.0.vlan == vid && s.0.eth == EthIp && !Owned(vid, t, s) && s.1 != PRIORITY_DEFAULT_ROUTING + VlanShift(vid)
  }

  /** The priorities keep the slots of addresses apart from those of routes, given that an address with
      length 0 is alone in the table. */
  lemma SlotsApart(vid: nat, t: Routes, nextId: nat, a: Address)
    requires RoutesOk(t, nextId) && (t != map[] ==> a.len > 0)
    ensures AddressSlot(vid, t, MacLearningSlot(vid, a))
    ensures AddressSlot(vid, t, IpHandlingSlot(vid, a))
    ensures AddressSlot(vid, t, SwitchingSlot(vid, a))
  {
    hide ApplyMask;
    forall k | k in t
      ensures RouteSlot(vid, t[k]) != MacLearningSlot(vid, a) && RouteSlot(vid, t[k]) != IpHandlingSlot(vid, a)
    {
      assert RouteOk(k, t[k]);
    }
  }

  lemma HostSlotApart(vid: nat, t: Routes, nextId: nat, host: Ip)
    requires RoutesOk(t, nextId)
    ensures AddressSlot(vid, t, HostSlot(vid, host))
  {
    hide ApplyMask;
    forall k | k in t ensures RouteSlot(vid, t[k]) != HostSlot(vid, host) {
      assert RouteOk(k, t[k]);
    }
  }

  /** Setting an address flow */
  lemma AddressFlowStep(vid: nat, t: Routes, flows: FlowTable, s: Slot, id: nat, action: Action)
    requires FlowsOk(vid, t, flows) && AddressSlot(vid, t, s) && 1 <= id <= 0xffff
    ensures FlowsOk(vid, t, flows[s := Flow(AddressCookie(vid, id), action)])
    ensures Others(vid, flows[s := Flow(AddressCookie(vid, id), action)]) == Others(vid, flows)
  {
    AddressCookieRoundTrip(vid, id);
    AddOtherStep(vid, t, flows, s, Flow(AddressCookie(vid, id), action));
  }

  /** With a route in the table, a network that is apart from the registered ones is not everything. */
  lemma NotEverything(addresses: Addresses, nextId: nat, routes: Routes, net: Net)
    requires TableOk(addresses, nextId) && GatewaysOk(addresses, routes) && routes != map[] && net.1 <= 32
    requires InNet(net.0, net) && forall k :: k in addresses ==> k.1 <= 32 && Apart(k, net)
    ensures net.1 > 0
  {
    if net.1 == 0 {
      var r := SomeElement(routes.Keys);
      assert Usable(addresses, routes[r].gateway);
      var k :| k in addresses && k.1 <= 32 && InNet(routes[r].gateway, k) && addresses[k].gw != routes[r].gateway;
      NoMask(routes[r].gateway);
      NoMask(net.0);
    }
  }

  // ---- the flows of the attached networks ----

  /** A network has its three flows: packets to it go to the controller, those to its gateway address too,
      and those inside it are switched. */
  predicate HasFlows(vid: nat, a: Address, flows: FlowTable) {
    var cookie := AddressCookie(vid, a.id);
    && MacLearningSlot(vid, a) in flows && flows[MacLearningSlot(vid, a)] == Flow(cookie, Controller)
    && IpHandlingSlot(vid, a) in flows && flows[IpHandlingSlot(vid, a)] == Flow(cookie, Controller)
    && SwitchingSlot(vid, a) in flows && flows[SwitchingSlot(vid, a)] == Flow(cookie, Normal)
  }

  /** A flow of a network's: one of its three, or that of a host that was learnt inside it */
  ghost predicate OfNetwork(vid: nat, a: Address, s: Slot, f: Flow) {
    || s == MacLearningSlot(vid, a) || s == IpHandlingSlot(vid, a) || s == SwitchingSlot(vid, a)
    || (a.len <= 32 && f.action.Output? && exists host :: InNet(host, NetOf(a)) && s == HostSlot(vid, host))
  }

  /** A flow with the cookie of an address: not a route's, and not with the VLAN's own */
  predicate NetworkFlow(vid: nat, f: Flow) {
    VlanOf(f.cookie) == vid && RouteOf(f.cookie) == 0 && AddressOf(f.cookie) != 0
  }

  /** Some attached network has the flow's id, and the flow is one of its flows. */
  ghost predicate Attributed(vid: nat, addresses: Addresses, s: Slot, f: Flow) {
    exists k :: k in addresses && addresses[k].id == AddressOf(f.cookie) && OfNetwork(vid, addresses[k], s, f)
  }

  /** Every attached network has its flows, and every flow with an address's cookie is one of an attached
      network's. */
  ghost predicate NetworksOk(vid: nat, addresses: Addresses, flows: FlowTable) {
    && (forall k :: k in addresses ==> HasFlows(vid, addresses[k], flows))
    && (forall s :: s in flows && NetworkFlow(vid, flows[s]) ==> Attributed(vid, addresses, s, flows[s]))
  }
}
