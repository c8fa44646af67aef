/** The router of one VLAN as a value, and what keeps it in order when networks and routes are registered and
    MAC addresses are learnt. */
module RouterSteps {
  import opened Options
  import opened Seqs
  import opened Bits
  import opened Ipv4
  import opened AddressTable
  import opened RouteTable
  import opened FlowTables
  import opened FlowSteps
  import opened VlanFlows

  const MAX_ID: nat := 0xffff

  datatype State = State(addresses: Addresses, addressId: nat, routes: Routes, routeId: nat, flows: FlowTable)

  /** Attached networks are disjoint and have their flows, every gateway is in one of them, and the switch
      agrees with the routing table. */
  ghost predicate RouterOk(vid: nat, s: State) {
    && 1 <= s.addressId <= MAX_ID + 1 && TableOk(s.addresses, s.addressId)
    && 1 <= s.routeId <= MAX_ID + 1 && RoutesOk(s.routes, s.routeId)
    && GatewaysOk(s.addresses, s.routes)
    && FlowsOk(vid, s.routes, s.flows)
    && NetworksOk(vid, s.addresses, s.flows)
  }

  /** The gateway of every route is in exactly one registered network, whose own gateway it is not, and the
      lookup finds that network. */
  lemma GatewayFound(addresses: Addresses, addressId: nat, gateway: Ip, r: Option<Address>)
    requires TableOk(addresses, addressId) && Finds(addresses, gateway, r)
    ensures Usable(addresses, gateway) <==> r.Some? && r.value.gw != gateway
  {
    hide InNet;
    if Usable(addresses, gateway) {
      var k :| k in addresses && k.1 <= 32 && InNet(gateway, k) && addresses[k].gw != gateway;
      AtMostOne(addresses, addressId, gateway, k, NetOf(r.value));
    }
  }

  /** Comparing the gateway with that of the network found is looking for it among the router's own addresses. */
  lemma GatewayIsOwn(addresses: Addresses, addressId: nat, gateway: Ip, r: Option<Address>)
    requires TableOk(addresses, addressId) && Finds(addresses, gateway, r)
    ensures r.None? <==> forall k :: k in addresses && k.1 <= 32 ==> !InNet(gateway, k)
    ensures r.Some? && r.value.gw == gateway <==> exists k :: k in addresses && addresses[k].gw == gateway
    ensures r.Some? ==> NetOf(r.value) in addresses && addresses[NetOf(r.value)] == r.value
  {
    hide InNet, Apart;
    if k :| k in addresses && addresses[k].gw == gateway {
      assert EntryOk(k, addresses[k]);
      assert addressId >= 0;
      AtMostOne(addresses, addressId, gateway, k, NetOf(r.value));
    }
  }

  lemma TablesOk(vid: nat, s: State)
    requires RouterOk(vid, s)
    ensures 1 <= s.addressId <= MAX_ID + 1 && TableOk(s.addresses, s.addressId)
    ensures 1 <= s.routeId <= MAX_ID + 1 && RoutesOk(s.routes, s.routeId) && SmallIds(s.routes)
    ensures GatewaysOk(s.addresses, s.routes)
  {
  }

  lemma SmallRouteIds(routes: Routes, routeId: nat)
    requires RoutesOk(routes, routeId) && routeId <= MAX_ID + 1
    ensures SmallIds(routes)
  {
  }

  lemma RoutesPresent(vid: nat, s: State)
    requires RouterOk(vid, s)
    ensures forall k :: k in s.routes ==>
      && RouteSlot(vid, s.routes[k]) in s.flows
      && s.flows[RouteSlot(vid, s.routes[k])].cookie == RouteCookie(vid, s.routes[k].id)
  {
  }

  /** What leaves the flows of other VLANs alone keeps the routers of those VLANs in order. */
  lemma OtherRouterOk(vid: nat, flows': FlowTable, v: nat, s: State)
    requires Tagged(flows') && Others(vid, flows') == Others(vid, s.flows)
    requires v != vid && RouterOk(v, s)
    ensures RouterOk(v, s.(flows := flows'))
  {
    hide FlowsOk, TableOk, RoutesOk, GatewaysOk, Tagged, Others, Attributed;
    assert Tagged(s.flows) by {
      FlowsAreTagged(v, s);
    }
    OtherVlansOk(vid, s.flows, flows', v, s.routes);
    OtherVlansSame(vid, s.flows, flows', v);
    OtherNetworksOk(vid, s.flows, flows', v, s.addresses);
  }

  lemma FlowsAreTagged(vid: nat, s: State)
    requires RouterOk(vid, s)
    ensures Tagged(s.flows)
  {
  }

  lemma OtherNetworksOk(vid: nat, flows: FlowTable, flows': FlowTable, v: nat, addresses: Addresses)
    requires Tagged(flows') && Others(vid, flows') == Others(vid, flows)
    requires v != vid && NetworksOk(v, addresses, flows)
    ensures NetworksOk(v, addresses, flows')
  {
    hide Attributed, Others;
    OtherVlansSame(vid, flows, flows', v);
  }

  // ---- registering a network ----

  /** The flows of _set_address_data */
  function WithAddress(vid: nat, flows: FlowTable, a: Address): FlowTable {
    var cookie := AddressCookie(vid, a.id);
    flows[MacLearningSlot(vid, a) := Flow(cookie, Controller)]
         [IpHandlingSlot(vid, a) := Flow(cookie, Controller)]
         [SwitchingSlot(vid, a) := Flow(cookie, Normal)]
  }

  function NetworkSet(vid: nat, s: State, a: Address): State {
    s.(addresses := s.addresses[NetOf(a) := a], addressId := s.addressId + 1, flows := WithAddress(vid, s.flows, a))
  }

  /** The three flows, in numbers */
  lemma NetworkFlowsAre(vid: nat, flows: FlowTable, a: Address)
    ensures var (net, shift, f) := ((a.nw, a.len), if vid == 0 then 0 else 1000, Flow(vid * 0x1_0000_0000 + a.id, Controller));
      WithAddress(vid, flows, a) == flows
        [(Match(EthIp, vid, None, Some(net)), 2 + shift) := f]
        [(Match(EthIp, vid, None, Some((a.gw, 32))), 1037) := f]
        [(Match(EthIp, vid, Some(net), Some(net)), 36 + shift) := f.(action := Normal)]
  {
  }

  /** Registering a network that is apart from all others keeps the router in order. */
  lemma SetAddressStep(vid: nat, s: State, a: Address)
    requires RouterOk(vid, s) && s.addressId <= MAX_ID
    requires a.id == s.addressId && EntryOk(NetOf(a), a)
    requires forall k :: k in s.addresses ==> k.1 <= 32 && Apart(k, NetOf(a))
    ensures RouterOk(vid, NetworkSet(vid, s, a))
    ensures Others(vid, WithAddress(vid, s.flows, a)) == Others(vid, s.flows)
  {
    hide Agree, Housekept, Tagged, InNet, Others, AddressSlot, NetworksOk, SharedFlows;
    AddKeepsTable(s.addresses, s.addressId, a);
    UsableStays(s.addresses, s.routes, a);
    MaskAgain(a);
    if s.routes != map[] {
      NotEverything(s.addresses, s.addressId, s.routes, NetOf(a));
    }
    SlotsApart(vid, s.routes, s.routeId, a);
    var cookie := AddressCookie(vid, a.id);
    AddressFlowStep(vid, s.routes, s.flows, MacLearningSlot(vid, a), a.id, Controller);
    var f1 := s.flows[MacLearningSlot(vid, a) := Flow(cookie, Controller)];
    AddressFlowStep(vid, s.routes, f1, IpHandlingSlot(vid, a), a.id, Controller);
    var f2 := f1[IpHandlingSlot(vid, a) := Flow(cookie, Controller)];
    AddressFlowStep(vid, s.routes, f2, SwitchingSlot(vid, a), a.id, Normal);
    NetworkAdded(vid, s.addresses, s.addressId, s.flows, a);
  }

  lemma MaskAgain(a: Address)
    requires EntryOk(NetOf(a), a)
    ensures InNet(a.nw, NetOf(a))
  {
    MaskNests(a.gw, a.len, a.len);
  }

  lemma UsableStays(addresses: Addresses, routes: Routes, a: Address)
    requires GatewaysOk(addresses, routes) && EntryOk(NetOf(a), a)
    requires forall k :: k in addresses ==> k.1 <= 32 && Apart(k, NetOf(a))
    ensures GatewaysOk(addresses[NetOf(a) := a], routes)
  {
    hide ApplyMask;
    forall k | k in routes ensures Usable(addresses[NetOf(a) := a], routes[k].gateway) {
      assert Usable(addresses, routes[k].gateway);
      var n :| n in addresses && n.1 <= 32 && InNet(routes[k].gateway, n) && addresses[n].gw != routes[k].gateway;
      assert Apart(n, NetOf(a));
      assert n != NetOf(a);
      assert addresses[NetOf(a) := a][n] == addresses[n];
    }
  }

  /** Networks that are apart have different slots. */
  lemma NetworkSlotsDiffer(vid: nat, a: Address, b: Address)
    requires EntryOk(NetOf(a), a) && EntryOk(NetOf(b), b) && Apart(NetOf(a), NetOf(b))
    ensures MacLearningSlot(vid, a) !in {MacLearningSlot(vid, b), IpHandlingSlot(vid, b), SwitchingSlot(vid, b)}
    ensures IpHandlingSlot(vid, a) !in {MacLearningSlot(vid, b), IpHandlingSlot(vid, b), SwitchingSlot(vid, b)}
    ensures SwitchingSlot(vid, a) !in {MacLearningSlot(vid, b), IpHandlingSlot(vid, b), SwitchingSlot(vid, b)}
  {
    hide InNet;
    assert NetOf(a) != NetOf(b) by {
      assert InNet(a.gw, NetOf(a));
    }
    assert a.gw != b.gw by {
      assert InNet(a.gw, NetOf(a)) && InNet(b.gw, NetOf(b));
    }
  }

  lemma NetworkAdded(vid: nat, addresses: Addresses, addressId: nat, flows: FlowTable, a: Address)
    requires TableOk(addresses, addressId) && NetworksOk(vid, addresses, flows)
    requires a.id == addressId && 1 <= addressId <= MAX_ID && EntryOk(NetOf(a), a)
    requires forall k :: k in addresses ==> k.1 <= 32 && Apart(k, NetOf(a))
    ensures NetworksOk(vid, addresses[NetOf(a) := a], WithAddress(vid, flows, a))
  {
    hide InNet, Attributed, MacLearningSlot, IpHandlingSlot, SwitchingSlot, AddressCookie;
    var addresses', flows' := addresses[NetOf(a) := a], WithAddress(vid, flows, a);
    OwnSlotsDiffer(vid, a);
    forall k | k in addresses' ensures HasFlows(vid, addresses'[k], flows') {
      if k != NetOf(a) {
        assert EntryOk(k, addresses[k]);
        NetworkSlotsDiffer(vid, addresses[k], a);
      }
    }
    AddressCookieRoundTrip(vid, a.id);
    NotRegistered(addresses, a);
    forall s | s in flows' && NetworkFlow(vid, flows'[s]) ensures Attributed(vid, addresses', s, flows'[s]) {
      if s == MacLearningSlot(vid, a) || s == IpHandlingSlot(vid, a) || s == SwitchingSlot(vid, a) {
        AttributedTo(vid, addresses', NetOf(a), s, flows'[s]);
      } else {
        AttributedStill(vid, addresses, a, s, flows[s]);
      }
    }
  }

  lemma NotRegistered(addresses: Addresses, a: Address)
    requires EntryOk(NetOf(a), a) && forall k :: k in addresses ==> k.1 <= 32 && Apart(k, NetOf(a))
    ensures NetOf(a) !in addresses
  {
    hide InNet;
    assert InNet(a.gw, NetOf(a));
  }

  lemma OwnSlotsDiffer(vid: nat, a: Address)
    ensures MacLearningSlot(vid, a) !in {IpHandlingSlot(vid, a), SwitchingSlot(vid, a)}
    ensures IpHandlingSlot(vid, a) != SwitchingSlot(vid, a)
  {
  }

  lemma AttributedTo(vid: nat, addresses: Addresses, k: Net, s: Slot, f: Flow)
    requires k in addresses && addresses[k].id == AddressOf(f.cookie) && OfNetwork(vid, addresses[k], s, f)
    ensures Attributed(vid, addresses, s, f)
  {
  }

  lemma AttributedStill(vid: nat, addresses: Addresses, a: Address, s: Slot, f: Flow)
    requires Attributed(vid, addresses, s, f) && NetOf(a) !in addresses
    ensures Attributed(vid, addresses[NetOf(a) := a], s, f)
  {
    hide OfNetwork;
    var k :| k in addresses && addresses[k].id == AddressOf(f.cookie) && OfNetwork(vid, addresses[k], s, f);
    assert k in addresses[NetOf(a) := a];
  }

  // ---- registering a route ----

  function WithRoute(vid: nat, flows: FlowTable, r: Route): FlowTable {
    flows[RouteSlot(vid, r) := Flow(RouteCookie(vid, r.id), Controller)]
  }

  function RouteSet(vid: nat, s: State, r: Route): State {
    s.(routes := s.routes[KeyOf(r) := r], routeId := s.routeId + 1, flows := WithRoute(vid, s.flows, r))
  }

  /** What a new route is: it has the next id, the gateway and no MAC address yet, and its destination is none for the
      default route, and else the address rounded down to the size of its network. */
  ghost predicate IsNewRoute(d: Destination, id: nat, gateway: Ip, r: Route) {
    && r.id == id && r.gateway == gateway && r.gatewayMac == None
    && (d.DefaultRoute? ==> r.dst == None && r.len == 0)
    && (d.Spelled? ==> 0 <= d.netmask <= 32 && r.len == d.netmask)
    && (d.Spelled? ==> r.dst == Some(d.ip / Pow2(32 - d.netmask) * Pow2(32 - d.netmask)))
  }

  lemma NewRouteIs(d: Destination, id: nat, gateway: Ip)
    requires ValidDestination(d)
    ensures IsNewRoute(d, id, gateway, NewRoute(d, id, gateway))
  {
    hide ApplyMask, Pow2;
    if d.Spelled? {
      ApplyIs(d.ip, d.netmask);
    }
  }

  /** What registering a route changes, in numbers: its entry, and its flow, which has priority 1 for the default
      route and 2 more than the prefix length for the others, and 1000 more on a VLAN of its own. */
  ghost predicate Registered(vid: nat, r: Route, t: Routes, flows: FlowTable, t': Routes, flows': FlowTable) {
    var shift := if vid == 0 then 0 else 1000;
    var dst := if r.dst.Some? then Some((r.dst.value, r.len)) else None;
    && t' == t[(if r.dst.Some? then r.dst.value else 0, r.len) := r]
    && flows' == flows[(Match(EthIp, vid, None, dst), (if dst.Some? then 2 + r.len else 1) + shift)
      := Flow(vid * 0x1_0000_0000 + r.id * 0x1_0000, Controller)]
  }

  lemma RouteSetRegisters(vid: nat, s: State, r: Route)
    ensures Registered(vid, r, s.routes, s.flows, RouteSet(vid, s, r).routes, RouteSet(vid, s, r).flows)
  {
  }

  /** The route is a static one of length 0, and takes the place of the default route in the table or of a
      network's flow on the switch. */
  ghost predicate Displaces(s: State, r: Route) {
    r.dst.Some? && r.len == 0 && (HasDefault(s.routes) || DEFAULT_KEY in s.addresses)
  }

  /** A new route keeps the router in order exactly when it displaces nothing. */
  lemma SetRouteStep(vid: nat, s: State, r: Route)
    requires RouterOk(vid, s) && s.routeId <= MAX_ID
    requires r.id == s.routeId && RouteOk(KeyOf(r), r) && r.gatewayMac.None? && Usable(s.addresses, r.gateway)
    requires r.dst.None? ==> KeyOf(r) !in s.routes
    ensures RouterOk(vid, RouteSet(vid, s, r)) <==> !Displaces(s, r)
    ensures Others(vid, WithRoute(vid, s.flows, r)) == Others(vid, s.flows)
  {
    hide Agree, TableOk, RoutesOk, Housekept, Tagged, Others, GatewaysOk, RouteOk, NetworksOk, SharedFlows;
    SmallRouteIds(s.routes, s.routeId);
    AddRouteStep(vid, s.routes, s.flows, s.routeId, r);
    WithRouteKeeps(vid, s.flows, r);
    RoutesWith(s.addresses, s.routes, s.routeId, r);
    ZeroKey(r);
    NetworksWithRoute(vid, s.addresses, s.addressId, s.flows, r);
  }

  lemma ZeroKey(r: Route)
    requires RouteOk(KeyOf(r), r)
    ensures r.len == 0 <==> KeyOf(r) == DEFAULT_KEY
  {
    if r.len == 0 {
      ZeroMask(r);
    }
  }

  /** The flow of a route replaces a network's only when both are of length 0. */
  lemma NetworksWithRoute(vid: nat, addresses: Addresses, addressId: nat, flows: FlowTable, r: Route)
    requires TableOk(addresses, addressId) && addressId <= MAX_ID + 1 && NetworksOk(vid, addresses, flows)
    requires 1 <= r.id <= MAX_ID && RouteOk(KeyOf(r), r)
    ensures NetworksOk(vid, addresses, WithRoute(vid, flows, r)) <==> !(r.dst.Some? && r.len == 0 && DEFAULT_KEY in addresses)
  {
    hide ApplyMask, Attributed, AddressCookie, TypePriority;
    RouteCookieRoundTrip(vid, r.id);
    forall k | k in addresses
      ensures RouteSlot(vid, r) != IpHandlingSlot(vid, addresses[k]) && RouteSlot(vid, r) != SwitchingSlot(vid, addresses[k])
      ensures RouteSlot(vid, r) == MacLearningSlot(vid, addresses[k]) <==> r.dst.Some? && r.len == 0 && k == DEFAULT_KEY
    {
      RouteOverNetwork(vid, addresses, addressId, r, k);
    }
    if r.dst.Some? && r.len == 0 && DEFAULT_KEY in addresses {
      var a := addresses[DEFAULT_KEY];
      CookiesApart(vid, a.id, r.id);
      assert !HasFlows(vid, a, WithRoute(vid, flows, r));
    }
  }

  lemma RouteOverNetwork(vid: nat, addresses: Addresses, addressId: nat, r: Route, k: Net)
    requires TableOk(addresses, addressId) && k in addresses && RouteOk(KeyOf(r), r)
    ensures RouteSlot(vid, r) != IpHandlingSlot(vid, addresses[k]) && RouteSlot(vid, r) != SwitchingSlot(vid, addresses[k])
    ensures RouteSlot(vid, r) == MacLearningSlot(vid, addresses[k]) <==> r.dst.Some? && r.len == 0 && k == DEFAULT_KEY
  {
    hide ApplyMask, Apart;
    assert EntryOk(k, addresses[k]);
    if r.len == 0 {
      ZeroMask(r);
    }
    if addresses[k].len == 0 {
      NoMask(addresses[k].gw);
    }
  }

  lemma CookiesApart(vid: nat, a: nat, r: nat)
    requires a <= MAX_ID && 1 <= r
    ensures AddressCookie(vid, a) != RouteCookie(vid, r)
  {
  }

  lemma WithRouteKeeps(vid: nat, flows: FlowTable, r: Route)
    requires 1 <= r.id <= MAX_ID && Housekept(vid, flows) && Tagged(flows)
    ensures Housekept(vid, WithRoute(vid, flows, r)) && Tagged(WithRoute(vid, flows, r))
    ensures Others(vid, WithRoute(vid, flows, r)) == Others(vid, flows)
    ensures SharedFlows(flows) ==> SharedFlows(WithRoute(vid, flows, r))
  {
    RouteCookieRoundTrip(vid, r.id);
  }

  lemma RoutesWith(addresses: Addresses, routes: Routes, routeId: nat, r: Route)
    requires RoutesOk(routes, routeId) && GatewaysOk(addresses, routes)
    requires r.id == routeId >= 1 && RouteOk(KeyOf(r), r) && Usable(addresses, r.gateway)
    ensures RoutesOk(routes[KeyOf(r) := r], routeId + 1) && GatewaysOk(addresses, routes[KeyOf(r) := r])
  {
    hide RouteOk, Usable;
  }

  // ---- learning MAC addresses ----

  predicate FlowAt(flows: FlowTable, s: Slot, f: Flow) {
    s in flows && flows[s] == f
  }

  /** The MAC address of a gateway is learnt: all routes through it get it, and their flows forward. */
  lemma LearnGatewayStep(vid: nat, s: State, gateway: Ip, mac: Mac, port: int, srcMac: Mac)
    requires RouterOk(vid, s)
    ensures var flows' := LearntFlows(vid, s.routes, gateway, mac, Output(port, srcMac, mac), s.flows);
      && RouterOk(vid, s.(routes := WithMac(s.routes, gateway, mac), flows := flows'))
      && Others(vid, flows') == Others(vid, s.flows)
  {
    hide Agree, RoutesOk, TableOk, Usable, NetworksOk, NewlyLearnt;
    TablesOk(vid, s);
    LearnMacStep(vid, s.routes, s.flows, s.routeId, gateway, mac, port, srcMac);
    LearntAreRoutes(vid, s.routes, s.flows, gateway, mac);
    NetworksLearnt(vid, s.addresses, s.addressId, s.routes, s.flows, gateway, mac, Output(port, srcMac, mac));
  }

  lemma LearntAreRoutes(vid: nat, t: Routes, flows: FlowTable, gateway: Ip, mac: Mac)
    requires Agree(vid, t, flows) && SmallIds(t)
    ensures forall s :: s in flows && NewlyLearnt(vid, t, gateway, mac, s) ==>
      s.0.eth == EthIp && s.0.vlan == vid && VlanOf(flows[s].cookie) == vid && RouteOf(flows[s].cookie) != 0
  {
    forall s | s in flows && NewlyLearnt(vid, t, gateway, mac, s)
      ensures s.0.eth == EthIp && s.0.vlan == vid && VlanOf(flows[s].cookie) == vid && RouteOf(flows[s].cookie) != 0
    {
      var k :| Learns(vid, t, gateway, mac, k, s);
      RouteCookieRoundTrip(vid, t[k].id);
    }
  }

  lemma NetworksLearnt(vid: nat, addresses: Addresses, addressId: nat, t: Routes, flows: FlowTable, gateway: Ip, mac: Mac, action: Action)
    requires NetworksOk(vid, addresses, flows) && Agree(vid, t, flows) && SmallIds(t)
    requires TableOk(addresses, addressId) && addressId <= MAX_ID + 1
    ensures NetworksOk(vid, addresses, LearntFlows(vid, t, gateway, mac, action, flows))
  {
    hide Agree, NewlyLearnt, Attributed, MacLearningSlot, IpHandlingSlot, SwitchingSlot;
    LearntAreRoutes(vid, t, flows, gateway, mac);
    forall k | k in addresses ensures HasFlows(vid, addresses[k], LearntFlows(vid, t, gateway, mac, action, flows)) {
      AddressCookieRoundTrip(vid, addresses[k].id);
    }
  }

  /** The MAC address is entered for exactly the routes through the gateway. */
  ghost predicate Entered(t: Routes, t': Routes, gateway: Ip, mac: Mac) {
    && t'.Keys == t.Keys
    && (forall k :: k in t && t[k].gateway == gateway ==> t'[k] == t[k].(gatewayMac := Some(mac)))
    && (forall k :: k in t && t[k].gateway != gateway ==> t'[k] == t[k])
  }

  ghost predicate IsNews(t: Routes, gateway: Ip, mac: Mac, k: Net) {
    k in t && t[k].gateway == gateway && t[k].gatewayMac != Some(mac)
  }

  /** Exactly the flows of the routes through the gateway for which the MAC address is news have the new action. */
  ghost predicate Redirected(vid: nat, t: Routes, gateway: Ip, mac: Mac, action: Action, flows: FlowTable, flows': FlowTable) {
    && flows'.Keys == flows.Keys
    && (forall k :: IsNews(t, gateway, mac, k) ==>
      FlowAt(flows', RouteSlot(vid, t[k]), Flow(vid * 0x1_0000_0000 + t[k].id * 0x1_0000, action)))
    && (forall x :: x in flows && flows'[x] != flows[x] ==> exists k :: IsNews(t, gateway, mac, k) && x == RouteSlot(vid, t[k]))
  }

  /** What learning a gateway's MAC address changes */
  lemma GatewayLearnt(vid: nat, s: State, gateway: Ip, mac: Mac, action: Action)
    requires RouterOk(vid, s)
    ensures Entered(s.routes, WithMac(s.routes, gateway, mac), gateway, mac)
    ensures Redirected(vid, s.routes, gateway, mac, action, s.flows, LearntFlows(vid, s.routes, gateway, mac, action, s.flows))
  {
    hide RouterOk, RouteSlot;
    RoutesPresent(vid, s);
    forall k | IsNews(s.routes, gateway, mac, k)
      ensures NewlyLearnt(vid, s.routes, gateway, mac, RouteSlot(vid, s.routes[k]))
    {
      assert Learns(vid, s.routes, gateway, mac, k, RouteSlot(vid, s.routes[k]));
    }
    forall x | x in s.flows && NewlyLearnt(vid, s.routes, gateway, mac, x)
      ensures exists k :: IsNews(s.routes, gateway, mac, k) && x == RouteSlot(vid, s.routes[k])
    {
      var k :| Learns(vid, s.routes, gateway, mac, k, x);
      assert IsNews(s.routes, gateway, mac, k);
    }
  }

  function HostLearnt(vid: nat, flows: FlowTable, a: Address, host: Ip, action: Action): FlowTable {
    flows[HostSlot(vid, host) := Flow(AddressCookie(vid, a.id), action)]
  }

  /** The flow of a host, in numbers */
  lemma HostFlowIs(vid: nat, flows: FlowTable, a: Address, host: Ip, action: Action)
    ensures HostSlot(vid, host) == (Match(EthIp, vid, None, Some((host, 32))), if vid == 0 then 35 else 1035)
    ensures HostLearnt(vid, flows, a, host, action) == flows[HostSlot(vid, host) := Flow(AddressCookie(vid, a.id), action)]
  {
  }

  /** A host's MAC address is learnt: it gets a flow of its network's. */
  lemma LearnHostStep(vid: nat, s: State, a: Address, host: Ip, action: Action)
    requires RouterOk(vid, s) && NetOf(a) in s.addresses && s.addresses[NetOf(a)] == a
    requires a.len <= 32 && InNet(host, NetOf(a)) && action.Output?
    ensures RouterOk(vid, s.(flows := HostLearnt(vid, s.flows, a, host, action)))
    ensures Others(vid, HostLearnt(vid, s.flows, a, host, action)) == Others(vid, s.flows)
  {
    hide Agree, AddressSlot, Housekept, Tagged, RoutesOk, Others, GatewaysOk, NetworksOk, InNet, Apart, EntryOk;
    HostSlotApart(vid, s.routes, s.routeId, host);
    AddressFlowStep(vid, s.routes, s.flows, HostSlot(vid, host), a.id, action);
    NetworkHost(vid, s.addresses, s.flows, a, host, action);
  }

  lemma NetworkHost(vid: nat, addresses: Addresses, flows: FlowTable, a: Address, host: Ip, action: Action)
    requires NetworksOk(vid, addresses, flows) && NetOf(a) in addresses && addresses[NetOf(a)] == a
    requires a.len <= 32 && InNet(host, NetOf(a)) && action.Output? && 1 <= a.id <= MAX_ID
    ensures NetworksOk(vid, addresses, HostLearnt(vid, flows, a, host, action))
  {
    hide InNet, Attributed;
    AddressCookieRoundTrip(vid, a.id);
    var flows' := HostLearnt(vid, flows, a, host, action);
    AttributedTo(vid, addresses, NetOf(a), HostSlot(vid, host), flows'[HostSlot(vid, host)]);
  }

  function HostForgotten(vid: nat, flows: FlowTable, host: Ip): FlowTable {
    flows - {HostSlot(vid, host)}
  }

  /** The flow of a learnt host expires: it is neither a route's nor one of a network's three. */
  lemma ExpireStep(vid: nat, s: State, host: Ip)
    requires RouterOk(vid, s)
    ensures RouterOk(vid, s.(flows := HostForgotten(vid, s.flows, host)))
    ensures Others(vid, HostForgotten(vid, s.flows, host)) == Others(vid, s.flows)
  {
    hide Housekept, RoutesOk, GatewaysOk, NetworksOk, TableOk, Agree, HostSlot;
    HostSlotApart(vid, s.routes, s.routeId, host);
    AgreesWithoutHost(vid, s.routes, s.flows, host);
    HousekeptWithoutHost(vid, s.flows, host);
    NetworksWithoutHost(vid, s.addresses, s.flows, host);
    HostIsNotShared(vid, host);
  }

  lemma HostIsNotShared(vid: nat, host: Ip)
    ensures HostSlot(vid, host).0.vlan == vid && HostSlot(vid, host) !in {ARP_SLOT, NORMAL_SLOT}
  {
  }

  lemma NetworksWithoutHost(vid: nat, addresses: Addresses, flows: FlowTable, host: Ip)
    requires NetworksOk(vid, addresses, flows)
    ensures NetworksOk(vid, addresses, HostForgotten(vid, flows, host))
  {
    hide Attributed;
  }

  lemma AgreesWithoutHost(vid: nat, t: Routes, flows: FlowTable, host: Ip)
    requires Agree(vid, t, flows) && AddressSlot(vid, t, HostSlot(vid, host))
    ensures Agree(vid, t, HostForgotten(vid, flows, host))
  {
    hide HostSlot;
    forall k | k in t ensures RouteSlot(vid, t[k]) != HostSlot(vid, host) {
      assert Owned(vid, t, RouteSlot(vid, t[k]));
    }
  }

  lemma HousekeptWithoutHost(vid: nat, flows: FlowTable, host: Ip)
    requires Housekept(vid, flows)
    ensures Housekept(vid, HostForgotten(vid, flows, host))
  {
  }

  /** The sender of an ARP packet, when it is in an attached network, is the gateway of some routes or else a
      host of that network. */
  ghost function AfterArp(vid: nat, s: State, sender: Option<Address>, srcIp: Ip, srcMac: Mac, port: int, portMac: Mac): State {
    if sender.None? then s
    else if exists k :: k in s.routes && s.routes[k].gateway == srcIp then
      s.(routes := WithMac(s.routes, srcIp, srcMac),
         flows := LearntFlows(vid, s.routes, srcIp, srcMac, Output(port, portMac, srcMac), s.flows))
    else s.(flows := HostLearnt(vid, s.flows, sender.value, srcIp, Output(port, portMac, srcMac)))
  }

  lemma ArpStep(vid: nat, s: State, sender: Option<Address>, srcIp: Ip, srcMac: Mac, port: int, portMac: Mac)
    requires RouterOk(vid, s) && Finds(s.addresses, srcIp, sender)
    ensures RouterOk(vid, AfterArp(vid, s, sender, srcIp, srcMac, port, portMac))
    ensures Others(vid, AfterArp(vid, s, sender, srcIp, srcMac, port, portMac).flows) == Others(vid, s.flows)
  {
    hide RouterOk, Others, LearntFlows, HostLearnt, InNet;
    LearnGatewayStep(vid, s, srcIp, srcMac, port, portMac);
    if sender.Some? {
      assert InNet(srcIp, NetOf(sender.value));
      LearnHostStep(vid, s, sender.value, srcIp, Output(port, portMac, srcMac));
    }
  }
}
