/** The router of one VLAN, class VlanRouter of rest_router.py. */
module VlanRouters {
  import opened Options
  import opened Seqs
  import opened Bits
  import opened Ipv4
  import opened AddressTable
  import opened RouteTable
  import opened FlowTables
  import opened FlowSteps
  import opened VlanFlows
  import opened RouterSteps
  import opened RouteDeletion
  import opened AddressDeletion
  import opened SuspendedPackets
  import opened PacketBuffers
  import opened ArpPackets

  /** The switch, with the flows of all VLANs */
  class Switch {
    var flows: FlowTable

    constructor ()
      ensures flows == map[(Match(EthArp, 0, None, None), 1) := Flow(0, Controller),
                           (Match(AnyEth, 0, None, None), 0) := Flow(0, Normal)]
    {
      flows := map[ARP_SLOT := Flow(0, Controller), NORMAL_SLOT := Flow(0, Normal)];
    }

    /** A learnt host's idle time is over: its flow goes, the only kind that is set with a timeout. */
    method Expire(vid: nat, host: Ip)
      modifies this
      ensures flows == HostForgotten(vid, old(flows), host)
      ensures flows == old(flows) - {(Match(EthIp, vid, None, Some((host, 32))), if vid == 0 then 35 else 1035)}
    {
      flows := flows - {HostSlot(vid, host)};
    }
  }

  datatype SetRouteResult =
    | NotRegistered
    | IsGatewayOf(addressId: nat)
    | Table(result: RouteResult)

  /** No flow of the VLAN yet, save for the shared ones */
  ghost predicate Unused(vid: nat, flows: FlowTable) {
    && (forall s :: s in flows && VlanOf(flows[s].cookie) == vid ==>
          vid == 0 && flows[s].cookie == 0 && (s == ARP_SLOT || s == NORMAL_SLOT))
    && (vid == 0 ==> SharedFlows(flows))
  }

  /** A router without networks and routes, on a switch with these flows */
  function Empty(vid: nat, flows: FlowTable): State {
    State(map[], 1, map[], 1, flows[DropSlot(vid) := DropFlow(vid)])
  }

  lemma EmptyIsOk(vid: nat, flows: FlowTable)
    requires Tagged(flows) && Unused(vid, flows)
    ensures RouterOk(vid, Empty(vid, flows)) && Others(vid, Empty(vid, flows).flows) == Others(vid, flows)
  {
    VlanCookieRoundTrip(vid);
  }

  class VlanRouter {
    const vid: nat
    const addressData: AddressData
    const routingTbl: RoutingTable
    const packetBuffer: PacketBuffer
    const sw: Switch

    ghost function Now(): State
      reads this, addressData, routingTbl, sw
    {
      State(addressData.entries, addressData.addressId, routingTbl.entries, routingTbl.routeId, sw.flows)
    }

    ghost function Waiting(): Buffer
      reads packetBuffer
    {
      packetBuffer.Contents()
    }

    ghost predicate Valid()
      reads this, addressData, routingTbl, packetBuffer, sw
    {
      RouterOk(vid, Now()) && packetBuffer.Valid()
    }

    /** The tables are in order, whatever flows the switch has. */
    ghost predicate TablesValid()
      reads this, addressData, routingTbl, packetBuffer
    {
      && 1 <= addressData.addressId <= MAX_ID + 1 && addressData.Valid() && routingTbl.Valid() && packetBuffer.Valid()
    }

    constructor (vid: nat, sw: Switch)
      requires Tagged(sw.flows) && Unused(vid, sw.flows)
      modifies sw
      ensures Valid() && this.vid == vid && this.sw == sw
      ensures fresh(addressData) && fresh(routingTbl) && fresh(packetBuffer)
      ensures Now() == Empty(vid, old(sw.flows)) && Waiting() == BufferAfter([])
      ensures addressData.entries == map[] && routingTbl.entries == map[] && packetBuffer.held == []
      ensures sw.flows == old(sw.flows)
        [(Match(EthIp, vid, None, None), if vid == 0 then 1 else 1001) := Flow(vid * 0x1_0000_0000, Drop)]
      ensures Others(vid, sw.flows) == old(Others(vid, sw.flows))
    {
      this.vid := vid;
      this.sw := sw;
      addressData := new AddressData();
      routingTbl := new RoutingTable();
      packetBuffer := new PacketBuffer();
      new;
      EmptyIsOk(vid, sw.flows);
      sw.flows := sw.flows[DropSlot(vid) := DropFlow(vid)];
    }

    /** delete: the flows of the VLAN are taken off the switch, and then the assertion fails when packets are
        still waiting. */
    method Delete(report: seq<Slot>) returns (ok: bool)
      requires Report(report, sw.flows) && Tagged(sw.flows)
      modifies sw
      ensures ok <==> packetBuffer.held == []
      ensures sw.flows == Others(vid, old(sw.flows))
      ensures forall s :: s in sw.flows <==> s in old(sw.flows) && s.0.vlan != vid
      ensures forall s :: s in sw.flows ==> sw.flows[s] == old(sw.flows)[s]
    {
      ghost var flows := sw.flows;
      for i := 0 to |report|
        invariant forall s :: s in sw.flows ==> s in flows && sw.flows[s] == flows[s]
        invariant forall s :: s in flows && VlanOf(flows[s].cookie) != vid ==> s in sw.flows
        invariant forall s :: s in sw.flows && s in report[..i] ==> VlanOf(flows[s].cookie) != vid
      {
        TakeNext(report, i);
        assert report[i] in report;
        if report[i] in sw.flows && VlanOf(sw.flows[report[i]].cookie) == vid {
          sw.flows := DeleteByCookie(sw.flows, sw.flows[report[i]].cookie);
        }
      }
      assert report[..|report|] == report;
      return |packetBuffer.held| == 0;
    }

    /** _set_address_data */
    method SetAddress(gw: Ip, netmask: int) returns (r: AddResult)
      requires Valid() && addressData.addressId <= MAX_ID
      modifies addressData, sw
      ensures Valid() && Others(vid, sw.flows) == old(Others(vid, sw.flows))
      ensures r == IllegalNetmask <==> !(0 <= netmask <= 32)
      ensures 0 <= netmask <= 32 ==> (r.Added? <==> Fits(old(addressData.entries), gw, netmask))
      ensures r.Added? ==> r.address == NewAddress(old(addressData.addressId), gw, netmask)
      ensures Now() == if r.Added? then NetworkSet(vid, old(Now()), r.address) else old(Now())
      ensures r.Added? ==>
        var (a, shift) := (r.address, if vid == 0 then 0 else 1000);
        var (net, f) := ((a.nw, a.len), Flow(vid * 0x1_0000_0000 + a.id, Controller));
        && a.id == old(addressData.addressId) && a.gw == gw && a.len == netmask
        && a.nw == gw / Pow2(32 - netmask) * Pow2(32 - netmask)
        && addressData.entries == old(addressData.entries)[net := a] && addressData.addressId == a.id + 1
        && sw.flows == old(sw.flows)
          [(Match(EthIp, vid, None, Some(net)), 2 + shift) := f]
          [(Match(EthIp, vid, None, Some((gw, 32))), 1037) := f]
          [(Match(EthIp, vid, Some(net), Some(net)), 36 + shift) := f.(action := Normal)]
    {
      hide FlowsOk, NetworksOk, Others, Apart, ApplyMask, GatewaysOk, RoutesOk, AddressCookie, MacLearningSlot, IpHandlingSlot,
           SwitchingSlot, Pow2;
      r := addressData.Add(gw, netmask);
      if r.Added? {
        var a := r.address;
        AddedIsFiled(a);
        ApplyIs(gw, netmask);
        SetAddressStep(vid, old(Now()), a);
        NetworkFlowsAre(vid, sw.flows, a);
        sw.flows := sw.flows[MacLearningSlot(vid, a) := Flow(AddressCookie(vid, a.id), Controller)];
        sw.flows := sw.flows[IpHandlingSlot(vid, a) := Flow(AddressCookie(vid, a.id), Controller)];
        sw.flows := sw.flows[SwitchingSlot(vid, a) := Flow(AddressCookie(vid, a.id), Normal)];
      }
    }

    /** _set_routing_data: afterwards the router is in order exactly when the new route displaces nothing. */
    method SetRoute(d: Destination, gateway: Ip) returns (r: SetRouteResult)
      requires Valid() && routingTbl.routeId <= MAX_ID && DestinationOk(d)
      modifies routingTbl, sw
      ensures r.NotRegistered? <==> forall k :: k in addressData.entries && k.1 <= 32 ==> !InNet(gateway, k)
      ensures r.IsGatewayOf? <==> exists k :: k in addressData.entries && addressData.entries[k].gw == gateway
      ensures r.IsGatewayOf? ==>
        exists k :: k in addressData.entries && addressData.entries[k].gw == gateway && addressData.entries[k].id == r.addressId
      ensures r.Table? <==> Usable(addressData.entries, gateway)
      ensures r.Table? ==>
        && (r.result == IllegalDestination <==> !ValidDestination(d))
        && (r.result.DestinationOverlaps? <==>
              ValidDestination(d) && (d.DefaultRoute? || d.asKey) && KeyOf(NewRoute(d, 0, gateway)) in old(routingTbl.entries))
      ensures r.Table? && r.result.RouteAdded? ==> r.result.route == NewRoute(d, old(routingTbl.routeId), gateway)
      ensures Now() == if r.Table? && r.result.RouteAdded? then RouteSet(vid, old(Now()), r.result.route) else old(Now())
      ensures r.Table? && r.result.RouteAdded? ==>
        && IsNewRoute(d, old(routingTbl.routeId), gateway, r.result.route)
        && Registered(vid, r.result.route, old(routingTbl.entries), old(sw.flows), routingTbl.entries, sw.flows)
      ensures Valid() <==> !(r.Table? && r.result.RouteAdded? && Displaces(old(Now()), r.result.route))
      ensures Others(vid, sw.flows) == old(Others(vid, sw.flows))
    {
      hide RouterOk, Others, ApplyMask, GatewaysOk, RoutesOk, TableOk, Usable, Finds, RouteCookie, RouteSlot, RouteOk;
      hide IsNewRoute, Registered;
      TablesOk(vid, Now());
      var address := addressData.GetByIp(gateway);
      GatewayFound(addressData.entries, addressData.addressId, gateway, address);
      GatewayIsOwn(addressData.entries, addressData.addressId, gateway, address);
      if address.None? {
        return NotRegistered;
      }
      if gateway == address.value.gw {
        return IsGatewayOf(address.value.id);
      }
      var result := routingTbl.Add(d, gateway);
      if result.RouteAdded? {
        var route := result.route;
        NewRouteOk(d, route.id, gateway);
        SetRouteStep(vid, old(Now()), route);
        RouteSetRegisters(vid, old(Now()), route);
        NewRouteIs(d, route.id, gateway);
        sw.flows := sw.flows[RouteSlot(vid, route) := Flow(RouteCookie(vid, route.id), Controller)];
      }
      return Table(result);
    }

    /** _delete_routing_data; no id stands for "all". Afterwards the router is in order exactly when the request
        was not for route 0 of VLAN 0 or of a VLAN with attached networks, and what is left does not depend on
        the order of the report, save on VLAN 0 for route 0. */
    method DeleteRoutes(id: Option<nat>, report: seq<Slot>)
      requires Valid() && Report(report, sw.flows)
      modifies routingTbl, sw
      ensures routingTbl.entries == RoutesWithout(old(routingTbl.entries), id) && routingTbl.routeId == old(routingTbl.routeId)
      ensures sw.flows == FlowsAfter(vid, old(sw.flows), PickedOf(vid, id, report, old(sw.flows)))
      ensures forall k :: k in routingTbl.entries <==>
        k in old(routingTbl.entries) && id.Some? && old(routingTbl.entries)[k].id != id.value
      ensures forall k :: k in routingTbl.entries ==> routingTbl.entries[k] == old(routingTbl.entries)[k]
      ensures !(vid == 0 && id == Some(0)) ==>
        Now() == RoutesDeleted(vid, old(Now()), id) && Unrouted(vid, id, old(sw.flows), sw.flows)
      ensures Valid() <==> !(id == Some(0) && (vid == 0 || addressData.entries != map[]))
      ensures Others(vid, sw.flows) == old(Others(vid, sw.flows))
    {
      hide RouterOk, Others, RoutesAfter, FlowsAfter, FlowsWithout, RoutesWithout, Unrouted, RoutesOk, TableOk, GatewaysOk;
      TablesOk(vid, Now());
      var flows := sw.flows;
      ghost var t := routingTbl.entries;
      var list := PickFlows(vid, id, report, flows);
      StartOfList(vid, t, flows);
      for i := 0 to |list|
        invariant addressData.entries == old(addressData.entries) && addressData.addressId == old(addressData.addressId)
        invariant routingTbl.Valid() && routingTbl.routeId == old(routingTbl.routeId)
        invariant forall s :: s in list[..i] ==> s in flows
        invariant sw.flows == FlowsAfter(vid, flows, list[..i])
        invariant routingTbl.entries == RoutesAfter(t, flows, list[..i])
      {
        NextInList(vid, t, flows, list, i);
        DeleteRouteOf(list[i], flows[list[i]].cookie);
      }
      assert list[..|list|] == list;
      DeleteRoutesStep(vid, old(Now()), id, list);
      WithoutIsUnrouted(vid, id, flows);
      WithoutAsked(t, id);
    }

    /** The deletions for one reported flow */
    method DeleteRouteOf(s: Slot, cookie: nat)
      requires routingTbl.Valid()
      modifies routingTbl, sw
      ensures routingTbl.Valid() && routingTbl.routeId == old(routingTbl.routeId)
      ensures routingTbl.entries == WithoutRoute(old(routingTbl.entries), RouteOf(cookie))
      ensures sw.flows == DeleteRouteFlow(vid, old(sw.flows), s, cookie)
    {
      hide RoutesOk;
      sw.flows := DeleteByCookie(sw.flows, cookie);
      routingTbl.Delete(RouteOf(cookie));
      if s.1 == PRIORITY_DEFAULT_ROUTING + VlanShift(vid) {
        sw.flows := sw.flows[DropSlot(vid) := DropFlow(vid)];
      }
    }

    /** _delete_address_data; no id stands for "all". Whatever flows the switch has, exactly those networks go that
        are asked for, contain no gateway of a route and have a flow, and the packets that wait for a
        destination in them are let go. On a router in order all that are asked for go, and it is in order
        afterwards exactly when the id is no alias. */
    method DeleteAddresses(id: Option<nat>, report: seq<Slot>) returns (skip: set<nat>)
      requires TablesValid() && Report(report, sw.flows)
      modifies addressData, packetBuffer, sw
      ensures Skips(old(addressData.entries), routingTbl.entries, id, skip)
      ensures sw.flows == KeptFlows(vid, id, skip, old(sw.flows)) && addressData.addressId == old(addressData.addressId)
      ensures addressData.entries == Unreached(vid, id, skip, old(addressData.entries), old(sw.flows))
      ensures Waiting() == Deleted(old(Waiting()),
        DroppedNets(old(addressData.entries), old(sw.flows), ChosenOf(vid, id, skip, report, old(sw.flows))))
      ensures TablesValid()
      ensures Unattached(vid, id, skip, old(sw.flows), sw.flows)
      ensures var was := old(addressData.entries);
        forall p :: p in packetBuffer.held <==>
          p in old(packetBuffer.held) && forall k :: k in was && k.1 <= 32 && InNet(p.dst, k) ==> k in addressData.entries
      ensures old(Valid()) ==>
        var was := old(addressData.entries);
        && (forall k :: k in addressData.entries <==>
          k in was && (was[k].id in skip || (id.Some? && was[k].id != id.value)))
        && (forall k :: k in addressData.entries ==> addressData.entries[k] == was[k])
      ensures old(Valid()) ==> Now() == AddressesDeleted(vid, old(Now()), id, skip)
      ensures old(Valid()) ==> (Valid() <==> (id.Some? ==> NoAlias(vid, routingTbl.entries, id.value)))
      ensures old(Valid()) ==> Others(vid, sw.flows) == old(Others(vid, sw.flows))
    {
      hide RouterOk, Others, TableOk, RoutesOk, KeptFlows, KeptAddresses, Unreached, NoAlias, Chooses;
      hide DroppedNets, ChosenOf, BufferOk, Skips, Unattached, InNet;
      var flows := sw.flows;
      ghost var s0 := Now();
      skip := RelatedIds(id);
      var list := ChooseFlows(vid, id, skip, report, flows);
      DropChosen(list, flows, id, skip);
      KeptAreUnattached(vid, id, skip, flows);
      DroppedAreGone(vid, id, skip, s0.addresses, s0.addressId, flows, list);
      HeldFor(old(Waiting()), DroppedNets(s0.addresses, flows, list), s0.addresses, addressData.entries);
      KeptAsked(id, skip, s0.addresses);
      if old(Valid()) {
        TablesOk(vid, s0);
        NetworksAreOk(vid, s0);
        UnreachedAreKept(vid, id, skip, s0.addresses, s0.addressId, flows);
        DeleteAddressStep(vid, s0, id, skip);
      }
    }

    /** The loop of _delete_address_data */
    method DropChosen(list: seq<Slot>, flows: FlowTable, ghost id: Option<nat>, ghost skip: set<nat>)
      requires TablesValid() && sw.flows == flows && Chooses(vid, id, skip, flows, list)
      modifies addressData, packetBuffer, sw
      ensures TablesValid() && addressData.addressId == old(addressData.addressId)
      ensures sw.flows == KeptFlows(vid, id, skip, flows)
      ensures addressData.entries == Unreached(vid, id, skip, old(addressData.entries), flows)
      ensures forall s :: s in list ==> s in flows
      ensures Waiting() == Deleted(old(Waiting()), DroppedNets(old(addressData.entries), flows, list))
    {
      hide TableOk, RoutesOk, KeptFlows, AddressesLeft, Unreached, Chosen, DroppedNets, BufferOk, Chooses;
      ghost var addresses, addressId, waiting := addressData.entries, addressData.addressId, Waiting();
      ghost var gone: set<nat> := {};
      NothingGone(vid, addresses, flows);
      NothingDropped(addresses, flows);
      for i := 0 to |list|
        invariant addressData.Valid() && addressData.addressId == addressId && packetBuffer.Valid()
        invariant sw.flows == DeleteByCookies(flows, gone)
        invariant addressData.entries == AddressesLeft(vid, addresses, gone)
        invariant forall s :: s in list[..i] ==> s in flows
        invariant forall c :: c in gone <==> exists s :: s in list[..i] && flows[s].cookie == c
        invariant forall k :: k in DroppedNets(addresses, flows, list[..i]) <==> k in addresses && k !in addressData.entries
        invariant Waiting() == Deleted(waiting, DroppedNets(addresses, flows, list[..i]))
      {
        TakeNext(list, i);
        ItIsChosen(vid, id, skip, flows, list, i);
        var cookie := flows[list[i]].cookie;
        OneMoreGone(vid, addresses, addressId, flows, id, skip, gone, cookie);
        LeftAreThere(vid, addresses, gone);
        ghost var left := addressData.entries;
        gone := gone + {cookie};
        ghost var dropped := DeleteAddressOf(cookie);
        DroppedNext(addresses, addressId, left, flows, list, i, dropped);
        OneMoreDeleted(waiting, DroppedNets(addresses, flows, list[..i]), dropped);
      }
      assert list[..|list|] == list;
      AllGone(vid, addresses, addressId, flows, id, skip, list, gone);
    }

    method DeleteAddressOf(cookie: nat) returns (ghost dropped: Option<Net>)
      requires addressData.Valid() && packetBuffer.Valid()
      modifies addressData, packetBuffer, sw
      ensures addressData.Valid() && addressData.addressId == old(addressData.addressId) && packetBuffer.Valid()
      ensures addressData.entries ==
        map k | k in old(addressData.entries) && old(addressData.entries)[k].id != AddressOf(cookie) :: old(addressData.entries)[k]
      ensures dropped.None? ==> forall k :: k in old(addressData.entries) ==> old(addressData.entries)[k].id != AddressOf(cookie)
      ensures dropped.Some? ==> dropped.value in old(addressData.entries) && old(addressData.entries)[dropped.value].id == AddressOf(cookie)
      ensures Waiting() == if dropped.Some? then Left(old(Waiting()), Deletion(dropped.value)) else old(Waiting())
      ensures sw.flows == DeleteByCookie(old(sw.flows), cookie)
    {
      hide TableOk, BufferOk, InNet;
      sw.flows := DeleteByCookie(sw.flows, cookie);
      var address := addressData.GetById(AddressOf(cookie));
      dropped := None;
      if address.Some? {
        dropped := Some(NetOf(address.value));
        EntryIsOk(addressData.entries, addressData.addressId, address.value);
        var packets := packetBuffer.DropNetwork(address.value);
        addressData.Delete(AddressOf(cookie));
      }
    }

    /** _chk_addr_relation_route */
    method RelatedIds(id: Option<nat>) returns (skip: set<nat>)
      requires addressData.Valid()
      ensures Skips(addressData.entries, routingTbl.entries, id, skip)
    {
      hide TableOk, Finds, InNet;
      ghost var addresses, routes := addressData.entries, routingTbl.entries;
      skip := {};
      var keys := Enumerate(routingTbl.entries.Keys);
      for i := 0 to |keys|
        invariant forall x :: x in skip <==>
          (id.Some? ==> x == id.value) && exists j :: 0 <= j < i && RelatedBy(addresses, routes[keys[j]].gateway, x)
      {
        assert keys[i] in keys;
        var address := addressData.GetByIp(routingTbl.entries[keys[i]].gateway);
        FoundIsRelated(addresses, addressData.addressId, routes[keys[i]].gateway, address);
        if address.Some? && (id.Some? ==> address.value.id == id.value) {
          skip := skip + {address.value.id};
        }
      }
      forall x ensures Related(addresses, routes, x) <==> exists j :: 0 <= j < |keys| && RelatedBy(addresses, routes[keys[j]].gateway, x) {
        if Related(addresses, routes, x) {
          var r :| r in routes && RelatedBy(addresses, routes[r].gateway, x);
          assert r in keys;
        } else {
          forall j | 0 <= j < |keys| ensures !RelatedBy(addresses, routes[keys[j]].gateway, x) {
            assert keys[j] in keys;
          }
        }
      }
    }

    /** _update_routing_tbl: exactly the routes through the sender of an ARP packet get its MAC address, and
        exactly the flows of those for which it is news are replaced by forwarding ones. */
    method UpdateRoutingTbl(srcIp: Ip, srcMac: Mac, port: int, portMac: Mac) returns (isGateway: bool)
      requires Valid()
      modifies routingTbl, sw
      ensures Valid() && Others(vid, sw.flows) == old(Others(vid, sw.flows))
      ensures isGateway <==> exists k :: k in old(routingTbl.entries) && old(routingTbl.entries)[k].gateway == srcIp
      ensures var s := old(Now());
        Now() == s.(routes := WithMac(s.routes, srcIp, srcMac),
                    flows := LearntFlows(vid, s.routes, srcIp, srcMac, Output(port, portMac, srcMac), s.flows))
      ensures !isGateway ==> Now() == old(Now())
      ensures Entered(old(routingTbl.entries), routingTbl.entries, srcIp, srcMac)
      ensures Redirected(vid, old(routingTbl.entries), srcIp, srcMac, Output(port, portMac, srcMac), old(sw.flows), sw.flows)
    {
      hide RouterOk, Others, RouteSlot, RouteCookie, Entered, Redirected, TouchedFlows, LearntFlows, WithMac, Touched, WithMacs;
      isGateway := false;
      ghost var s0, t, flows := Now(), routingTbl.entries, sw.flows;
      var keys := Enumerate(routingTbl.entries.Keys);
      ghost var action := Output(port, portMac, srcMac);
      TouchedNone(vid, t, srcIp, srcMac, action, flows);
      RoutesPresent(vid, s0);
      for i := 0 to |keys|
        invariant routingTbl.routeId == old(routingTbl.routeId)
        invariant isGateway <==> exists k :: k in keys[..i] && t[k].gateway == srcIp
        invariant routingTbl.entries == WithMacs(t, srcIp, srcMac, keys[..i])
        invariant TouchedFlows(vid, t, srcIp, srcMac, keys[..i], action, flows, sw.flows)
      {
        TakeNext(keys, i);
        NotBefore(keys, i);
        assert keys[i] in keys;
        var key := keys[i];
        TouchedNext(vid, t, srcIp, srcMac, keys, i, action, flows, sw.flows);
        MacsNext(t, srcIp, srcMac, keys, i);
        var value := routingTbl.entries[key];
        if value.gateway == srcIp {
          isGateway := true;
          if value.gatewayMac != Some(srcMac) {
            routingTbl.entries := routingTbl.entries[key := value.(gatewayMac := Some(srcMac))];
            sw.flows := sw.flows[RouteSlot(vid, value) := Flow(RouteCookie(vid, value.id), Output(port, portMac, srcMac))];
          }
        }
      }
      assert keys[..|keys|] == keys;
      TouchedIsLearnt(vid, t, srcIp, srcMac, keys, action, flows, sw.flows);
      LearnGatewayStep(vid, s0, srcIp, srcMac, port, portMac);
      GatewayLearnt(vid, s0, srcIp, srcMac, action);
    }

    /** The learning part of _packetin_arp: the flow of a host sends out on the port its packet came in by, from the
        port's MAC address to the host's, and so do the flows of the routes through a gateway for which its MAC
        address is news. */
    method LearnFromArp(srcIp: Ip, srcMac: Mac, port: int, portMac: Mac) returns (sender: Option<Address>)
      requires Valid()
      modifies routingTbl, sw
      ensures Valid() && Others(vid, sw.flows) == old(Others(vid, sw.flows))
      ensures Finds(addressData.entries, srcIp, sender)
      ensures Now() == AfterArp(vid, old(Now()), sender, srcIp, srcMac, port, portMac)
      ensures sender.None? ==> Now() == old(Now())
      ensures sender.Some? && (forall k :: k in old(routingTbl.entries) ==> old(routingTbl.entries)[k].gateway != srcIp) ==>
        && routingTbl.entries == old(routingTbl.entries)
        && sw.flows == old(sw.flows)[(Match(EthIp, vid, None, Some((srcIp, 32))), if vid == 0 then 35 else 1035)
            := Flow(AddressCookie(vid, sender.value.id), Output(port, portMac, srcMac))]
      ensures sender.Some? && (exists k :: k in old(routingTbl.entries) && old(routingTbl.entries)[k].gateway == srcIp) ==>
        && Entered(old(routingTbl.entries), routingTbl.entries, srcIp, srcMac)
        && Redirected(vid, old(routingTbl.entries), srcIp, srcMac, Output(port, portMac, srcMac), old(sw.flows), sw.flows)
    {
      hide RouterOk, Others, TableOk, Finds, AddressCookie, HostSlot, LearntFlows, WithMac, HostLearnt, Entered, Redirected;
      ghost var s0 := Now();
      TablesOk(vid, s0);
      sender := addressData.GetByIp(srcIp);
      ArpStep(vid, s0, sender, srcIp, srcMac, port, portMac);
      if sender.None? {
        return;
      }
      var isGateway := UpdateRoutingTbl(srcIp, srcMac, port, portMac);
      if !isGateway {
        HostFlowIs(vid, sw.flows, sender.value, srcIp, Output(port, portMac, srcMac));
        sw.flows := sw.flows[HostSlot(vid, srcIp) := Flow(AddressCookie(vid, sender.value.id), Output(port, portMac, srcMac))];
      }
    }

    /** _packetin_to_node: the packet waits for the MAC address of its destination, when that is in an
        attached network, or else of the gateway on its route. The result is the ARP request, from one of
        the router's own addresses. */
    method PacketInToNode(inPort: int, dst: Ip)
        returns (request: Option<(Ip, Ip)>, ghost address: Option<Address>, ghost route: Option<Route>)
      requires Valid()
      modifies packetBuffer
      ensures Valid()
      ensures Waiting() == if request.Some? then Step(old(Waiting()), Arrival(inPort, dst)) else old(Waiting())
      ensures Finds(addressData.entries, dst, address) && Longest(routingTbl.entries, dst, route)
      ensures |old(packetBuffer.held)| >= 50 ==> request.None?
      ensures |old(packetBuffer.held)| < 50 ==>
        && (request.Some? <==> address.Some? || route.Some?)
        && (address.Some? ==> request == Some((address.value.gw, dst)))
        && (address.None? && route.Some? ==>
          && request.value.1 == route.value.gateway
          && exists n ::
            n in addressData.entries && n.1 <= 32 && InNet(route.value.gateway, n) && addressData.entries[n].gw == request.value.0)
      ensures packetBuffer.held == old(packetBuffer.held) +
        if request.Some? then [Packet(old(packetBuffer.created), inPort, dst)] else []
      ensures request.Some? ==> forall p: Packet :: p.dst == dst ==>
        (Leaves(Reply(request.value.1), p) <==> Attached(addressData.entries, dst))
    {
      hide RouterOk, BufferOk, TableOk, RoutesOk, Finds, Longest, Asks, Usable, Attached, Leaves, InNet;
      ghost var addresses, addressId := addressData.entries, addressData.addressId;
      TablesOk(vid, Now());
      request := None;
      var a := addressData.GetByIp(dst);
      var r := routingTbl.GetByDst(dst);
      address, route := a, r;
      if |packetBuffer.held| >= MAX_SUSPENDPACKETS {
        return;
      }
      if a.Some? {
        request := Some((a.value.gw, dst));
      } else if r.Some? {
        var gwAddress := addressData.GetByIp(r.value.gateway);
        RouteIsUsable(addressData.entries, routingTbl.entries, dst, r);
        RequestIsRight(addressData.entries, addressId, r.value.gateway, gwAddress);
        if gwAddress.Some? {
          request := Some((gwAddress.value.gw, r.value.gateway));
        }
      }
      if request.Some? {
        forall p: Packet | p.dst == dst ensures Leaves(Reply(request.value.1), p) <==> Attached(addresses, dst) {
          ReplyReleases(addresses, addressId, dst, address, request.value, if r.Some? then r.value.gateway else 0, p);
        }
        packetBuffer.Add(inPort, dst);
      }
    }

    /** packet_in_handler, for an IP packet: packets to the router's own addresses are answered, all others are
        for a node. */
    method PacketInIp(inPort: int, dst: Ip)
      requires Valid()
      modifies packetBuffer
      ensures Valid()
      ensures Waiting() == if Suspends(addressData.entries, routingTbl.entries, old(Waiting()), dst)
                           then Step(old(Waiting()), Arrival(inPort, dst)) else old(Waiting())
      ensures var was := old(packetBuffer.held);
        || packetBuffer.held == was
        || packetBuffer.held == was + [Packet(old(packetBuffer.created), inPort, dst)]
      ensures packetBuffer.held != old(packetBuffer.held) <==>
        && (forall k :: k in addressData.entries ==> addressData.entries[k].gw != dst)
        && |old(packetBuffer.held)| < 50
        && (|| (exists k :: k in addressData.entries && k.1 <= 32 && InNet(dst, k))
            || (exists k :: k in routingTbl.entries && routingTbl.entries[k].len <= 32 && Matches(routingTbl.entries[k], dst)))
    {
      hide RouterOk, BufferOk, Finds, Longest, Asks, Leaves, InNet;
      var own := IsGateway(addressData, dst);
      if !own {
        ghost var was := Waiting();
        var request, address, route := PacketInToNode(inPort, dst);
        FoundIsAttached(addressData.entries, dst, address);
        if !Attached(addressData.entries, dst) {
          NoOtherRoute(routingTbl.entries, routingTbl.routeId, vid, Now(), dst, route);
        }
        TablesOk(vid, Now());
        LongestMatches(routingTbl.entries, routingTbl.routeId, dst, route);
      }
    }

    /** _packetin_arp: the sender's MAC address is learnt, and an ARP reply to one of the router's addresses
        releases the packets for its sender. */
    method PacketInArp(srcIp: Ip, srcMac: Mac, dstIp: Ip, opcode: Opcode, port: int, portMac: Mac)
        returns (outcome: ArpOutcome, ghost sender: Option<Address>)
      requires Valid()
      modifies packetBuffer, routingTbl, sw
      ensures Valid()
      ensures Waiting() == if outcome.Released? then Left(old(Waiting()), Reply(srcIp)) else old(Waiting())
      ensures var (t, ownIp) := (addressData.entries, IsOwn(addressData.entries, dstIp));
        && (outcome.ForwardedNormally? <==> Attached(t, srcIp) && (srcIp == dstIp || (!ownIp && SameNet(t, srcIp, dstIp))))
        && (outcome.Answered? <==> Attached(t, srcIp) && srcIp != dstIp && ownIp && opcode == ArpRequest)
        && (outcome.Released? <==> Attached(t, srcIp) && srcIp != dstIp && ownIp && opcode == ArpReply)
      ensures var (t, held) := (addressData.entries, old(packetBuffer.held));
        if opcode == ArpReply && Attached(t, srcIp) && srcIp != dstIp && IsOwn(t, dstIp)
        then forall p :: p in packetBuffer.held <==> p in held && p.dst != srcIp
        else packetBuffer.held == held
      ensures outcome.Released? ==> forall p :: p in outcome.packets <==> p in old(packetBuffer.held) && p.dst == srcIp
      ensures outcome.Released? ==> outcome.packets == Leaving(Reply(srcIp), old(packetBuffer.held))
      ensures Finds(addressData.entries, srcIp, sender)
      ensures Now() == AfterArp(vid, old(Now()), sender, srcIp, srcMac, port, portMac)
    {
      hide RouterOk, BufferOk, InNet, Others, TableOk, RoutesOk, GatewaysOk, AfterArp, Finds, Entered, Redirected, IsOwn, SameNet, Attached;
      ghost var addresses, addressId := addressData.entries, addressData.addressId;
      TablesOk(vid, Now());
      var found := LearnFromArp(srcIp, srcMac, port, portMac);
      sender := found;
      FoundIsAttached(addresses, srcIp, sender);
      if found.None? {
        NotAttachedNotSame(addresses, srcIp, dstIp);
        return Ignored, sender;
      }
      var toRouter := IsGateway(addressData, dstIp);
      if srcIp == dstIp {
        return ForwardedNormally, sender;
      }
      if !toRouter {
        var target := addressData.GetByIp(dstIp);
        SameNetById(addresses, addressId, srcIp, found.value, dstIp, target);
        return if target.Some? && target.value.id == found.value.id then ForwardedNormally else Ignored, sender;
      }
      if opcode == ArpRequest {
        return Answered, sender;
      }
      if opcode != ArpReply {
        return Ignored, sender;
      }
      var packets := Leaving(Reply(srcIp), packetBuffer.held);
      LeavingMembers(Reply(srcIp), packetBuffer.held);
      packetBuffer.LetGo(Reply(srcIp), packets);
      return Released(packets), sender;
    }

    /** send_arp_all_gw: the address that it looks up for a gateway is always there. The result lists the
        requests as pairs of source and destination. */
    method SendArpAllGw() returns (requests: seq<(Ip, Ip)>)
      requires Valid()
      ensures forall q :: q in requests ==>
        && (exists k :: k in routingTbl.entries && routingTbl.entries[k].gateway == q.1)
        && (exists n :: n in addressData.entries && n.1 <= 32 && InNet(q.1, n) && addressData.entries[n].gw == q.0 != q.1)
      ensures forall k :: k in routingTbl.entries ==> exists q :: q in requests && q.1 == routingTbl.entries[k].gateway
    {
      hide RouterOk, TableOk, RoutesOk, Asks, Usable, Finds, InNet;
      ghost var addresses, t := addressData.entries, routingTbl.entries;
      TablesOk(vid, Now());
      requests := [];
      var keys := Enumerate(routingTbl.entries.Keys);
      for i := 0 to |keys|
        invariant |requests| == i
        invariant forall j :: 0 <= j < i ==> requests[j].1 == t[keys[j]].gateway && Asks(addresses, requests[j], requests[j].1)
      {
        assert keys[i] in keys;
        var gateway := routingTbl.entries[keys[i]].gateway;
        var address := addressData.GetByIp(gateway);
        RequestIsRight(addresses, addressData.addressId, gateway, address);
        requests := requests + [(address.value.gw, gateway)];
      }
      forall q | q in requests
        ensures exists k :: k in t && t[k].gateway == q.1
        ensures exists n :: n in addresses && n.1 <= 32 && InNet(q.1, n) && addresses[n].gw == q.0 != q.1
      {
        var j :| 0 <= j < |requests| && requests[j] == q;
        assert keys[j] in keys;
        AsksFor(addresses, q);
      }
      forall k | k in t ensures exists q :: q in requests && q.1 == t[k].gateway {
        assert requests[IndexOf(keys, k)] in requests;
      }
    }
  }

  lemma AsksFor(addresses: Addresses, q: (Ip, Ip))
    requires Asks(addresses, q, q.1)
    ensures exists n :: n in addresses && n.1 <= 32 && InNet(q.1, n) && addresses[n].gw == q.0 != q.1
  {
    hide InNet;
  }

  lemma NoOtherRoute(routes: Routes, routeId: nat, vid: nat, s: State, dst: Ip, r: Option<Route>)
    requires RouterOk(vid, s) && s.routes == routes && s.routeId == routeId && Longest(routes, dst, r)
    ensures r.Some? <==> exists r' :: Longest(routes, dst, Some(r'))
  {
    hide RouterOk, Longest;
    TablesOk(vid, s);
    forall r' | Longest(routes, dst, Some(r')) ensures r == Some(r') {
      LongestIsUnique(routes, routeId, dst, r, Some(r'));
    }
  }

  lemma WithoutAsked(t: Routes, id: Option<nat>)
    ensures forall k :: k in RoutesWithout(t, id) <==> k in t && id.Some? && t[k].id != id.value
    ensures forall k :: k in RoutesWithout(t, id) ==> RoutesWithout(t, id)[k] == t[k]
  {
  }

  lemma KeptAsked(id: Option<nat>, skip: set<nat>, addresses: Addresses)
    ensures var left := KeptAddresses(id, skip, addresses);
      && (forall k :: k in left <==> k in addresses && (addresses[k].id in skip || (id.Some? && addresses[k].id != id.value)))
      && (forall k :: k in left ==> left[k] == addresses[k])
  {
  }

  /** Exactly the packets for the networks that go are let go. */
  lemma HeldFor(b: Buffer, nets: seq<Net>, addresses: Addresses, left: Addresses)
    requires forall k :: k in nets <==> k in addresses && k !in left
    ensures forall p :: p in Deleted(b, nets).held <==>
      p in b.held && forall k :: k in addresses && k.1 <= 32 && InNet(p.dst, k) ==> k in left
  {
    hide InNet;
    DeletedHeld(b, nets);
    forall p | p in b.held && forall n :: n in nets ==> !Leaves(Deletion(n), p)
      ensures forall k :: k in addresses && k.1 <= 32 && InNet(p.dst, k) ==> k in left
    {
      forall k | k in addresses && k.1 <= 32 && InNet(p.dst, k) ensures k in left {
        assert Leaves(Deletion(k), p);
      }
    }
  }

  // ---- the loops ----

  lemma StartOfList(vid: nat, t: Routes, flows: FlowTable)
    ensures FlowsAfter(vid, flows, []) == flows && RoutesAfter(t, flows, []) == t
  {
  }

  lemma NextInList(vid: nat, t: Routes, flows: FlowTable, list: seq<Slot>, i: nat)
    requires i < |list| && forall s :: s in list ==> s in flows
    ensures forall s :: s in list[..i + 1] ==> s in flows
    ensures list[i] in flows && var (s, cookie) := (list[i], flows[list[i]].cookie);
      && FlowsAfter(vid, flows, list[..i + 1]) == DeleteRouteFlow(vid, FlowsAfter(vid, flows, list[..i]), s, cookie)
      && RoutesAfter(t, flows, list[..i + 1]) == WithoutRoute(RoutesAfter(t, flows, list[..i]), RouteOf(cookie))
  {
    TakeNext(list, i);
    assert list[..i + 1][..i] == list[..i];
    assert list[i] in list;
    RoutesAfterNext(t, flows, list[..i + 1]);
  }

  method ChooseFlows(vid: nat, id: Option<nat>, skip: set<nat>, report: seq<Slot>, flows: FlowTable) returns (list: seq<Slot>)
    requires Report(report, flows)
    ensures list == ChosenOf(vid, id, skip, report, flows) && Chooses(vid, id, skip, flows, list)
  {
    hide Chosen;
    list := [];
    for i := 0 to |report|
      invariant forall s :: s in report[..i] ==> s in flows
      invariant list == ChosenOf(vid, id, skip, report[..i], flows)
    {
      TakeNext(report, i);
      assert report[..i + 1][..i] == report[..i];
      assert report[i] in report;
      if Chosen(vid, id, skip, flows[report[i]].cookie) {
        list := list + [report[i]];
      }
    }
    assert report[..|report|] == report;
    ChosenOfChooses(vid, id, skip, report, flows);
  }

  lemma ItIsChosen(vid: nat, id: Option<nat>, skip: set<nat>, flows: FlowTable, list: seq<Slot>, i: nat)
    requires Chooses(vid, id, skip, flows, list) && i < |list|
    ensures forall s :: s in list ==> s in flows
    ensures Chosen(vid, id, skip, flows[list[i]].cookie)
  {
    hide Chosen;
    assert list[i] in list;
  }

  lemma NothingDropped(addresses: Addresses, flows: FlowTable)
    ensures DroppedNets(addresses, flows, []) == []
  {
  }

  lemma OneMoreDeleted(b: Buffer, nets: seq<Net>, k: Option<Net>)
    ensures Deleted(b, nets + if k.Some? then [k.value] else [])
      == if k.Some? then Left(Deleted(b, nets), Deletion(k.value)) else Deleted(b, nets)
  {
    if k.Some? {
      assert (nets + [k.value])[..|nets|] == nets;
    } else {
      assert nets + [] == nets;
    }
  }

  lemma LeftAreThere(vid: nat, addresses: Addresses, gone: set<nat>)
    ensures forall k :: k in AddressesLeft(vid, addresses, gone) ==>
      k in addresses && AddressesLeft(vid, addresses, gone)[k] == addresses[k]
  {
  }

  lemma EntryIsOk(t: Addresses, nextId: nat, a: Address)
    requires TableOk(t, nextId) && NetOf(a) in t && t[NetOf(a)] == a
    ensures a.len <= 32
  {
  }

  /** The flows of a report that a request picks */
  method PickFlows(vid: nat, id: Option<nat>, report: seq<Slot>, flows: FlowTable) returns (list: seq<Slot>)
    requires Report(report, flows)
    ensures list == PickedOf(vid, id, report, flows) && Picks(vid, id, flows, list)
  {
    list := [];
    for i := 0 to |report|
      invariant forall s :: s in report[..i] ==> s in flows
      invariant list == PickedOf(vid, id, report[..i], flows)
    {
      TakeNext(report, i);
      assert report[..i + 1][..i] == report[..i];
      assert report[i] in report;
      if Picked(vid, id, flows[report[i]]) {
        list := list + [report[i]];
      }
    }
    assert report[..|report|] == report;
    PickedOfPicks(vid, id, report, flows);
  }

  lemma AddedIsFiled(a: Address)
    requires a.len <= 32 && a.nw == ApplyMask(a.gw, a.len)
    ensures EntryOk(NetOf(a), a)
  {
  }

  lemma NetworksAreOk(vid: nat, s: State)
    requires RouterOk(vid, s)
    ensures NetworksOk(vid, s.addresses, s.flows)
  {
  }

  /** The routes with a MAC address filled in for those through a gateway, as far as their keys are listed */
  function WithMacs(t: Routes, gateway: Ip, mac: Mac, keys: seq<Net>): Routes {
    map k | k in t :: if k in keys && t[k].gateway == gateway then t[k].(gatewayMac := Some(mac)) else t[k]
  }

  /** The slot is that of a route among `keys` through the gateway, whose MAC address is news. */
  ghost predicate Touched(vid: nat, t: Routes, gateway: Ip, mac: Mac, keys: seq<Net>, s: Slot) {
    exists k :: k in keys && Learns(vid, t, gateway, mac, k, s)
  }

  /** The touched flows have the action, and all others are as they were. */
  ghost predicate TouchedFlows(vid: nat, t: Routes, gateway: Ip, mac: Mac, keys: seq<Net>, action: Action,
                               flows: FlowTable, flows': FlowTable)
  {
    && (forall s :: s in flows' <==> s in flows)
    && (forall s :: s in flows ==>
      flows'[s] == if Touched(vid, t, gateway, mac, keys, s) then Flow(flows[s].cookie, action) else flows[s])
  }

  lemma TouchedNone(vid: nat, t: Routes, gateway: Ip, mac: Mac, action: Action, flows: FlowTable)
    ensures TouchedFlows(vid, t, gateway, mac, [], action, flows, flows)
    ensures WithMacs(t, gateway, mac, []) == t
  {
  }

  lemma TouchedNext(vid: nat, t: Routes, gateway: Ip, mac: Mac, keys: seq<Net>, i: nat, action: Action,
                    flows: FlowTable, flows': FlowTable)
    requires i < |keys| && keys[i] in t && TouchedFlows(vid, t, gateway, mac, keys[..i], action, flows, flows')
    requires RouteSlot(vid, t[keys[i]]) in flows
    ensures var (slot, k) := (RouteSlot(vid, t[keys[i]]), keys[i]);
      TouchedFlows(vid, t, gateway, mac, keys[..i + 1], action, flows,
        if Learns(vid, t, gateway, mac, k, slot) then flows'[slot := Flow(flows[slot].cookie, action)] else flows')
  {
    hide RouteSlot;
    TakeNext(keys, i);
    forall s ensures Touched(vid, t, gateway, mac, keys[..i + 1], s)
      <==> Touched(vid, t, gateway, mac, keys[..i], s) || Learns(vid, t, gateway, mac, keys[i], s)
    {
      if Learns(vid, t, gateway, mac, keys[i], s) {
        assert keys[i] in keys[..i + 1];
      }
    }
  }

  lemma MacsNext(t: Routes, gateway: Ip, mac: Mac, keys: seq<Net>, i: nat)
    requires i < |keys| && keys[i] in t && keys[i] !in keys[..i]
    ensures var (macs, k) := (WithMacs(t, gateway, mac, keys[..i]), keys[i]);
      && k in macs && macs[k] == t[k]
      && WithMacs(t, gateway, mac, keys[..i + 1]) ==
        if t[k].gateway == gateway && t[k].gatewayMac != Some(mac) then macs[k := t[k].(gatewayMac := Some(mac))] else macs
  {
    TakeNext(keys, i);
  }

  lemma TouchedIsLearnt(vid: nat, t: Routes, gateway: Ip, mac: Mac, keys: seq<Net>, action: Action,
                        flows: FlowTable, flows': FlowTable)
    requires TouchedFlows(vid, t, gateway, mac, keys, action, flows, flows') && forall k :: k in t ==> k in keys
    ensures flows' == LearntFlows(vid, t, gateway, mac, action, flows)
    ensures WithMacs(t, gateway, mac, keys) == WithMac(t, gateway, mac)
    ensures (forall k :: k in t ==> t[k].gateway != gateway) ==> flows' == flows && WithMac(t, gateway, mac) == t
  {
    hide RouteSlot;
    assert forall s :: Touched(vid, t, gateway, mac, keys, s) <==> NewlyLearnt(vid, t, gateway, mac, s);
  }
}
