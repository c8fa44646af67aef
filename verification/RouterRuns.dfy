/** Runs of the router of one VLAN: whatever requests, ARP packets and other packets come, whatever learnt hosts are
    forgotten and timers end, in whatever order. */
module RouterRuns {
  import opened Options
  import opened Seqs
  import opened Ipv4
  import opened AddressTable
  import opened RouteTable
  import opened FlowTables
  import opened FlowSteps
  import opened VlanFlows
  import opened RouterSteps
  import opened RouteDeletion
  import opened AddressDeletion
  import opened SuspendedPackets
  import opened PacketBuffers
  import opened ArpPackets
  import opened VlanRouters

  /** `report` is the order in which the switch lists its flows for a request to delete. */
  datatype Event =
    | PutAddress(gw: Ip, netmask: int)
    | PutRoute(d: Destination, gateway: Ip)
    | RemoveRoutes(routeIds: Option<nat>, report: seq<Slot>)
    | RemoveAddresses(addressIds: Option<nat>, report: seq<Slot>)
    | Arp(srcIp: Ip, srcMac: Mac, dstIp: Ip, opcode: Opcode, port: int, portMac: Mac)
    | PacketIn(inPort: int, dst: Ip)
    | TimeUp(id: nat)
    | Expire(host: Ip)

  /** The request is for a network that is apart from all attached ones. */
  ghost predicate Free(s: State, gw: Ip, netmask: int) {
    0 <= netmask <= 32 && Fits(s.addresses, gw, netmask)
  }

  /** The gateway is usable and the destination is not a key of the table. */
  ghost predicate Admits(s: State, d: Destination, gateway: Ip) {
    && Usable(s.addresses, gateway) && ValidDestination(d)
    && !((d.DefaultRoute? || d.asKey) && KeyOf(NewRoute(d, s.routeId, gateway)) in s.routes)
  }

  /** The ids of networks that a request to delete leaves out */
  ghost function SkipSet(s: State, ids: Option<nat>): set<nat> {
    set k | k in s.addresses && Related(s.addresses, s.routes, s.addresses[k].id)
            && (ids.Some? ==> s.addresses[k].id == ids.value) :: s.addresses[k].id
  }

  /** The network that contains the address */
  ghost function Found(t: Addresses, ip: Ip): (r: Option<Address>)
    requires forall k :: k in t ==> EntryOk(k, t[k])
    ensures Finds(t, ip, r)
  {
    if Attached(t, ip) then
      var k :| k in t && k.1 <= 32 && InNet(ip, k);
      assert EntryOk(k, t[k]);
      Some(t[k])
    else None
  }

  /** The state after an event; requests that the router refuses change nothing. */
  ghost function After(vid: nat, s: State, e: Event): State
    requires RouterOk(vid, s) && Possible(s, e)
  {
    match e
    case PutAddress(gw, netmask) =>
      if Free(s, gw, netmask) then NetworkSet(vid, s, NewAddress(s.addressId, gw, netmask)) else s
    case PutRoute(d, gateway) =>
      if Admits(s, d, gateway) then RouteSet(vid, s, NewRoute(d, s.routeId, gateway)) else s
    case RemoveRoutes(id, report) =>
      s.(routes := RoutesWithout(s.routes, id), flows := FlowsAfter(vid, s.flows, PickedOf(vid, id, report, s.flows)))
    case RemoveAddresses(id, report) => AddressesDeleted(vid, s, id, SkipSet(s, id))
    case Arp(srcIp, srcMac, _, _, port, portMac) =>
      AfterArp(vid, s, Found(s.addresses, srcIp), srcIp, srcMac, port, portMac)
    case PacketIn(_, _) => s
    case TimeUp(_) => s
    case Expire(host) => s.(flows := HostForgotten(vid, s.flows, host))
  }

  /** The packets that wait after an event */
  ghost function WaitingAfter(vid: nat, s: State, b: Buffer, e: Event): Buffer
    requires Possible(s, e)
  {
    match e
    case PutAddress(_, _) => b
    case PutRoute(_, _) => b
    case RemoveRoutes(_, _) => b
    case RemoveAddresses(ids, report) => Deleted(b, Dropped(vid, s, ids, report))
    case Arp(srcIp, _, dstIp, opcode, _, _) => if Releases(s.addresses, srcIp, dstIp, opcode) then Left(b, Reply(srcIp)) else b
    case PacketIn(inPort, dst) => if Suspends(s.addresses, s.routes, b, dst) then Step(b, Arrival(inPort, dst)) else b
    case TimeUp(id) => Left(b, Timeout(id))
    case Expire(_) => b
  }

  /** The networks that a request deletes, in the order of the report */
  ghost function Dropped(vid: nat, s: State, ids: Option<nat>, report: seq<Slot>): seq<Net>
    requires Report(report, s.flows)
  {
    DroppedNets(s.addresses, s.flows, ChosenOf(vid, ids, SkipSet(s, ids), report, s.flows))
  }

  /** What can happen at all: there are ids left, a destination's text is what it is, and the switch reports the
      flows that it has. */
  ghost predicate Possible(s: State, e: Event) {
    match e
    case PutAddress(_, _) => s.addressId <= MAX_ID
    case PutRoute(d, _) => s.routeId <= MAX_ID && DestinationOk(d)
    case RemoveRoutes(_, report) => Report(report, s.flows)
    case RemoveAddresses(_, report) => Report(report, s.flows)
    case Arp(_, _, _, _, _, _) => true
    case PacketIn(_, _) => true
    case TimeUp(_) => true
    case Expire(_) => true
  }

  /** The events that keep the router in order: all but a static route of length 0 that displaces the default
      route's entry or a network's flow, a request for route 0 of VLAN 0 or of a VLAN with networks, and one for
      an address id that is an alias of another flow's cookie. */
  ghost predicate Harmless(vid: nat, s: State, e: Event) {
    match e
    case PutAddress(_, _) => true
    case PutRoute(d, gateway) =>
      !(Admits(s, d, gateway) && Displaces(s, NewRoute(d, s.routeId, gateway)))
    case RemoveRoutes(id, _) => !(id == Some(0) && (vid == 0 || s.addresses != map[]))
    case RemoveAddresses(id, _) => id.Some? ==> NoAlias(vid, s.routes, id.value)
    case Arp(_, _, _, _, _, _) => true
    case PacketIn(_, _) => true
    case TimeUp(_) => true
    case Expire(_) => true
  }

  lemma PutAddressOk(vid: nat, s: State, gw: Ip, netmask: int)
    requires RouterOk(vid, s) && s.addressId <= MAX_ID
    ensures RouterOk(vid, After(vid, s, PutAddress(gw, netmask)))
    ensures Others(vid, After(vid, s, PutAddress(gw, netmask)).flows) == Others(vid, s.flows)
  {
    hide RouterOk, Others, Apart, ApplyMask, WithAddress;
    if Free(s, gw, netmask) {
      var a := NewAddress(s.addressId, gw, netmask);
      assert EntryOk(NetOf(a), a);
      SetAddressStep(vid, s, a);
    }
  }

  lemma PutRouteOk(vid: nat, s: State, d: Destination, gateway: Ip)
    requires RouterOk(vid, s) && s.routeId <= MAX_ID && DestinationOk(d)
    ensures RouterOk(vid, After(vid, s, PutRoute(d, gateway))) <==> Harmless(vid, s, PutRoute(d, gateway))
    ensures Others(vid, After(vid, s, PutRoute(d, gateway)).flows) == Others(vid, s.flows)
  {
    hide RouterOk, Others, ApplyMask, Usable, WithRoute, DestinationOk;
    if Admits(s, d, gateway) {
      NewRouteOk(d, s.routeId, gateway);
      SetRouteStep(vid, s, NewRoute(d, s.routeId, gateway));
    }
  }

  lemma RemoveRoutesOk(vid: nat, s: State, id: Option<nat>, report: seq<Slot>)
    requires RouterOk(vid, s) && Report(report, s.flows)
    ensures RouterOk(vid, After(vid, s, RemoveRoutes(id, report))) <==> Harmless(vid, s, RemoveRoutes(id, report))
    ensures Others(vid, After(vid, s, RemoveRoutes(id, report)).flows) == Others(vid, s.flows)
  {
    hide RouterOk, Others, RoutesWithout, FlowsAfter;
    PickedOfPicks(vid, id, report, s.flows);
    DeleteRoutesStep(vid, s, id, PickedOf(vid, id, report, s.flows));
  }

  lemma SkipSetSkips(s: State, ids: Option<nat>)
    ensures Skips(s.addresses, s.routes, ids, SkipSet(s, ids))
  {
    hide InNet;
    forall x | Related(s.addresses, s.routes, x) ensures exists k :: k in s.addresses && s.addresses[k].id == x {
      var r :| r in s.routes && RelatedBy(s.addresses, s.routes[r].gateway, x);
    }
  }

  lemma RemoveAddressesOk(vid: nat, s: State, ids: Option<nat>, report: seq<Slot>)
    requires RouterOk(vid, s) && Report(report, s.flows)
    ensures RouterOk(vid, After(vid, s, RemoveAddresses(ids, report))) <==> Harmless(vid, s, RemoveAddresses(ids, report))
    ensures Others(vid, After(vid, s, RemoveAddresses(ids, report)).flows) == Others(vid, s.flows)
  {
    hide RouterOk, Others, KeptFlows, KeptAddresses, NoAlias, SkipSet, Skips;
    SkipSetSkips(s, ids);
    DeleteAddressStep(vid, s, ids, SkipSet(s, ids));
  }

  /** An event keeps the router in order exactly when it is harmless, and leaves the flows of other VLANs alone
      in any case. */
  lemma EventOk(vid: nat, s: State, e: Event)
    requires RouterOk(vid, s) && Possible(s, e)
    ensures RouterOk(vid, After(vid, s, e)) <==> Harmless(vid, s, e)
    ensures Others(vid, After(vid, s, e).flows) == Others(vid, s.flows)
  {
    match e
    case PutAddress(gw, netmask) => PutAddressOk(vid, s, gw, netmask);
    case PutRoute(d, gateway) => PutRouteOk(vid, s, d, gateway);
    case RemoveRoutes(id, report) => RemoveRoutesOk(vid, s, id, report);
    case RemoveAddresses(ids, report) => RemoveAddressesOk(vid, s, ids, report);
    case Arp(srcIp, srcMac, _, _, port, portMac) =>
      hide RouterOk, Others, AfterArp, Finds;
      TablesOk(vid, s);
      ArpStep(vid, s, Found(s.addresses, srcIp), srcIp, srcMac, port, portMac);
    case PacketIn(_, _) =>
    case TimeUp(_) =>
    case Expire(host) => ExpireStep(vid, s, host);
  }

  lemma WaitingOk(vid: nat, s: State, b: Buffer, e: Event)
    requires Possible(s, e) && BufferOk(b)
    ensures BufferOk(WaitingAfter(vid, s, b, e))
  {
    hide BufferOk;
    match e
    case PutAddress(_, _) =>
    case PutRoute(_, _) =>
    case RemoveRoutes(_, _) =>
    case RemoveAddresses(ids, report) => DeletedOk(b, Dropped(vid, s, ids, report));
    case Arp(srcIp, _, _, _, _, _) => LeftOk(b, Reply(srcIp));
    case PacketIn(inPort, dst) =>
      if Suspends(s.addresses, s.routes, b, dst) {
        AddedOk(b, inPort, dst);
      }
    case TimeUp(id) => LeftOk(b, Timeout(id));
    case Expire(_) =>
  }

  // ---- runs ----

  /** Every event of the run can happen and is harmless when it comes. */
  ghost predicate GoodRun(vid: nat, s: State, events: seq<Event>)
    requires RouterOk(vid, s)
    decreases |events|
  {
    events == [] || (Possible(s, events[0]) && Harmless(vid, s, events[0]) &&
      (EventOk(vid, s, events[0]); GoodRun(vid, After(vid, s, events[0]), events[1..])))
  }

  /** The router is in order after every good run. */
  ghost function RunFrom(vid: nat, s: State, events: seq<Event>): (s': State)
    requires RouterOk(vid, s) && GoodRun(vid, s, events)
    ensures RouterOk(vid, s')
    decreases |events|
  {
    if events == [] then s else
      EventOk(vid, s, events[0]);
      RunFrom(vid, After(vid, s, events[0]), events[1..])
  }

  /** The packets that wait after a run */
  ghost function WaitingFrom(vid: nat, s: State, b: Buffer, events: seq<Event>): Buffer
    requires RouterOk(vid, s) && GoodRun(vid, s, events)
    decreases |events|
  {
    if events == [] then b else
      EventOk(vid, s, events[0]);
      WaitingFrom(vid, After(vid, s, events[0]), WaitingAfter(vid, s, b, events[0]), events[1..])
  }

  lemma SameSkips(s: State, ids: Option<nat>, skip: set<nat>)
    requires Skips(s.addresses, s.routes, ids, skip)
    ensures skip == SkipSet(s, ids)
  {
    hide InNet, Related;
    SkipSetSkips(s, ids);
  }

  /** The router's own methods take these steps. */
  method Handle(router: VlanRouter, e: Event)
    requires router.Valid() && Possible(router.Now(), e)
    modifies router.addressData, router.routingTbl, router.packetBuffer, router.sw
    ensures router.Now() == After(router.vid, old(router.Now()), e)
    ensures router.Waiting() == WaitingAfter(router.vid, old(router.Now()), old(router.Waiting()), e)
    ensures router.packetBuffer.Valid()
  {
    hide RouterOk, FlowsAfter, SkipSet, Skips, Apart, ApplyMask, Usable, Finds, AfterArp, Displaces, NoAlias, KeptFlows;
    hide KeptAddresses, Unreached, BufferOk, Attached, IsOwn, SameNet, Suspends, DroppedNets, ChosenOf;
    ghost var s := router.Now();
    TablesOk(router.vid, s);
    match e
    case PutAddress(gw, netmask) =>
      var r := router.SetAddress(gw, netmask);
    case PutRoute(d, gateway) =>
      var r := router.SetRoute(d, gateway);
    case RemoveRoutes(id, report) =>
      router.DeleteRoutes(id, report);
    case RemoveAddresses(ids, report) =>
      var skip := router.DeleteAddresses(ids, report);
      SameSkips(s, ids, skip);
    case Arp(srcIp, srcMac, dstIp, opcode, port, portMac) =>
      var outcome, sender := router.PacketInArp(srcIp, srcMac, dstIp, opcode, port, portMac);
      FindsIsUnique(s.addresses, s.addressId, srcIp, sender, Found(s.addresses, srcIp));
    case PacketIn(inPort, dst) =>
      router.PacketInIp(inPort, dst);
    case TimeUp(id) =>
      var timedOut := router.packetBuffer.TimeIsUp(id);
    case Expire(host) => router.sw.Expire(router.vid, host);
  }

  /** So does every run of them. */
  method Run(router: VlanRouter, events: seq<Event>)
    requires router.Valid() && GoodRun(router.vid, router.Now(), events)
    modifies router.addressData, router.routingTbl, router.packetBuffer, router.sw
    ensures router.Valid() && router.Now() == RunFrom(router.vid, old(router.Now()), events)
    ensures router.Waiting() == WaitingFrom(router.vid, old(router.Now()), old(router.Waiting()), events)
    decreases |events|
  {
    hide RouterOk, Possible, Harmless, After, WaitingAfter, BufferOk;
    if events != [] {
      EventOk(router.vid, router.Now(), events[0]);
      Handle(router, events[0]);
      Run(router, events[1..]);
    }
  }
}
