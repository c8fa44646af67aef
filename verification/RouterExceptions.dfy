/** Requests, one of each kind, after which a router is no longer in order. */
module RouterExceptions {
  import opened Options
  import opened Seqs
  import opened Bits
  import opened Ipv4
  import opened AddressTable
  import opened RouteTable
  import opened FlowTables
  import opened FlowSteps
  import opened VlanFlows
  import opened RouterSteps
  import opened RouteDeletion
  import opened AddressDeletion
  import opened SuspendedPackets
  import opened ArpPackets
  import opened VlanRouters
  import opened Forwarding
  import opened NetworkRemoval
  import R = RouterRuns
  import S = SwitchRuns
  import T = TearDowns

  const OWN: Ip := 0x0a00_0001
  const GATEWAY: Ip := 0x0a00_0002
  const NETWORK: Address := Address(1, 0x0a00_0000, 24, OWN)
  const EVERYTHING: Address := Address(1, 0, 0, OWN)
  const DEFAULT: Route := Route(1, None, 0, GATEWAY, None)
  const SHARED: FlowTable := map[ARP_SLOT := Flow(0, Controller), NORMAL_SLOT := Flow(0, Normal)]

  /** A router with the network 10.0.0.0/24, on a switch with these flows */
  function OneOn(vid: nat, flows: FlowTable): State {
    NetworkSet(vid, Empty(vid, flows), NETWORK)
  }

  /** The same with a default route through 10.0.0.2 */
  function TwoOn(vid: nat, flows: FlowTable): State {
    RouteSet(vid, OneOn(vid, flows), DEFAULT)
  }

  function One(vid: nat): State {
    OneOn(vid, SHARED)
  }

  function Two(vid: nat): State {
    TwoOn(vid, SHARED)
  }

  /** A router with the network 0.0.0.0/0 */
  function All(vid: nat): State {
    NetworkSet(vid, Empty(vid, SHARED), EVERYTHING)
  }

  lemma SharedIsUnused(vid: nat)
    ensures Tagged(SHARED) && Unused(vid, SHARED)
  {
    VlanCookieRoundTrip(0);
  }

  lemma TwentyFour(ip: Ip)
    ensures ApplyMask(ip, 24) == ip / 256 * 256
  {
    assert Pow2(8) == 256 by {
      assert Pow2(4) == 16;
      Pow2Add(4, 4);
    }
    ApplyIs(ip, 24);
  }

  lemma OneOnIsOk(vid: nat, flows: FlowTable)
    requires Tagged(flows) && Unused(vid, flows)
    ensures RouterOk(vid, OneOn(vid, flows)) && Usable(OneOn(vid, flows).addresses, GATEWAY)
  {
    hide RouterOk, ApplyMask, WithAddress, DropSlot, DropFlow, Tagged, Unused;
    EmptyIsOk(vid, flows);
    TwentyFour(OWN);
    TwentyFour(GATEWAY);
    SetAddressStep(vid, Empty(vid, flows), NETWORK);
    assert NetOf(NETWORK) in OneOn(vid, flows).addresses && InNet(GATEWAY, NetOf(NETWORK));
  }

  lemma TwoOnIsOk(vid: nat, flows: FlowTable)
    requires Tagged(flows) && Unused(vid, flows)
    ensures RouterOk(vid, TwoOn(vid, flows)) && Usable(TwoOn(vid, flows).addresses, GATEWAY) && HasDefault(TwoOn(vid, flows).routes)
  {
    hide RouterOk, Usable, WithRoute, WithAddress, Tagged, Unused;
    OneOnIsOk(vid, flows);
    SetRouteStep(vid, OneOn(vid, flows), DEFAULT);
  }

  lemma OneIsOk(vid: nat)
    ensures RouterOk(vid, One(vid)) && Usable(One(vid).addresses, GATEWAY)
  {
    SharedIsUnused(vid);
    OneOnIsOk(vid, SHARED);
  }

  lemma TwoIsOk(vid: nat)
    ensures RouterOk(vid, Two(vid)) && Usable(Two(vid).addresses, GATEWAY) && HasDefault(Two(vid).routes)
  {
    SharedIsUnused(vid);
    TwoOnIsOk(vid, SHARED);
  }

  lemma AllIsOk(vid: nat)
    ensures RouterOk(vid, All(vid)) && Usable(All(vid).addresses, GATEWAY)
  {
    hide RouterOk, ApplyMask, WithAddress, DropSlot, DropFlow;
    SharedIsUnused(vid);
    EmptyIsOk(vid, SHARED);
    NoMask(OWN);
    NoMask(GATEWAY);
    SetAddressStep(vid, Empty(vid, SHARED), EVERYTHING);
    assert NetOf(EVERYTHING) in All(vid).addresses && InNet(GATEWAY, NetOf(EVERYTHING));
  }

  // ---- static routes ----

  /** The route to 1.2.3.4/0, not spelled as the default route */
  function Zero(id: nat): Route {
    NewRoute(Spelled(0x0102_0304, 0, false), id, GATEWAY)
  }

  lemma ZeroIsOk(id: nat)
    ensures RouteOk(KeyOf(Zero(id)), Zero(id)) && KeyOf(Zero(id)) == DEFAULT_KEY
  {
    NewRouteOk(Spelled(0x0102_0304, 0, false), id, GATEWAY);
    NoMask(0x0102_0304);
  }

  /** The route to 1.2.3.4/0 replaces the default route in the table and leaves its flow behind. */
  lemma StaticOverDefault(vid: nat)
    ensures RouterOk(vid, Two(vid)) && !RouterOk(vid, RouteSet(vid, Two(vid), Zero(2)))
  {
    hide RouterOk, Usable, WithRoute, WithAddress, ApplyMask;
    TwoIsOk(vid);
    ZeroIsOk(2);
    SetRouteStep(vid, Two(vid), Zero(2));
  }

  /** The route to 1.2.3.4/0 replaces the flow that learns the hosts of the network 0.0.0.0/0. */
  lemma StaticOverNetwork(vid: nat)
    ensures RouterOk(vid, All(vid)) && !RouterOk(vid, RouteSet(vid, All(vid), Zero(1)))
  {
    hide RouterOk, Usable, WithRoute, WithAddress, ApplyMask;
    AllIsOk(vid);
    ZeroIsOk(1);
    SetRouteStep(vid, All(vid), Zero(1));
  }

  /** With a route to 1.2.3.0/24, adding one to 1.2.3.0/24 is refused, and adding one to 1.2.3.4/24 replaces it. */
  lemma NetworkReplaced(gateway: Ip)
    ensures var (d, d') := (Spelled(0x0102_0300, 24, true), Spelled(0x0102_0304, 24, false));
      var (r, r') := (NewRoute(d, 1, gateway), NewRoute(d', 2, gateway));
      && DestinationOk(d) && DestinationOk(d')
      && d.asKey && KeyOf(NewRoute(d, 2, gateway)) in map[KeyOf(r) := r]
      && map[KeyOf(r) := r][KeyOf(r') := r'] == map[KeyOf(r) := r']
  {
    hide ApplyMask;
    TwentyFour(0x0102_0300);
    TwentyFour(0x0102_0304);
  }

  // ---- deleting by address id ----

  lemma NothingSkipped(s: State, id: nat)
    requires forall k :: k in s.addresses ==> s.addresses[k].id != id
    ensures Skips(s.addresses, s.routes, Some(id), {})
  {
  }

  /** Deleting the address with id 65536 deletes the flow of route 1. */
  lemma AddressIdOfRoute(vid: nat)
    ensures RouterOk(vid, Two(vid)) && !RouterOk(vid, AddressesDeleted(vid, Two(vid), Some(0x1_0000), {}))
  {
    hide RouterOk, WithRoute, WithAddress, KeptFlows, KeptAddresses;
    TwoIsOk(vid);
    NothingSkipped(Two(vid), 0x1_0000);
    DeleteAddressStep(vid, Two(vid), Some(0x1_0000), {});
    assert Two(vid).routes[DEFAULT_KEY].id == 1;
  }

  /** Deleting the address with id 0 deletes the drop flow. */
  lemma AddressIdZero(vid: nat)
    ensures RouterOk(vid, One(vid)) && !RouterOk(vid, AddressesDeleted(vid, One(vid), Some(0), {}))
  {
    hide RouterOk, WithAddress, KeptFlows, KeptAddresses;
    OneIsOk(vid);
    NothingSkipped(One(vid), 0);
    DeleteAddressStep(vid, One(vid), Some(0), {});
  }

  /** On VLAN 0 it deletes the shared flows too, also when there is a default route and no drop flow. */
  lemma AddressIdZeroShared()
    ensures RouterOk(0, Two(0)) && HasDefault(Two(0).routes)
    ensures var s := AddressesDeleted(0, Two(0), Some(0), {});
      !RouterOk(0, s) && ARP_SLOT !in s.flows && NORMAL_SLOT !in s.flows
  {
    hide RouterOk, Two, KeptAddresses;
    TwoIsOk(0);
    NoIdZero(Two(0));
    NothingSkipped(Two(0), 0);
    DeleteAddressStep(0, Two(0), Some(0), {});
    TheSharedFlows(Two(0));
  }

  lemma NoIdZero(s: State)
    requires RouterOk(0, s)
    ensures forall k :: k in s.addresses ==> s.addresses[k].id != 0
  {
  }

  lemma TheSharedFlows(s: State)
    requires RouterOk(0, s)
    ensures SharedFlows(s.flows)
  {
  }

  // ---- deleting route 0 ----

  /** On a VLAN of its own, deleting route 0 deletes the flows of the attached network. */
  lemma RouteIdZeroNetwork(vid: nat, list: seq<Slot>)
    requires vid != 0 && Picks(vid, Some(0), One(vid).flows, list)
    ensures RouterOk(vid, One(vid))
    ensures var flows := FlowsAfter(vid, One(vid).flows, list);
      && MacLearningSlot(vid, NETWORK) !in flows && IpHandlingSlot(vid, NETWORK) !in flows && SwitchingSlot(vid, NETWORK) !in flows
  {
    hide RouterOk, FlowsAfter, Picks, WithAddress, MacLearningSlot, IpHandlingSlot, SwitchingSlot;
    OneIsOk(vid);
    TheNetworkFlows(vid, One(vid), NetOf(NETWORK));
    NetworkFlowsGo(vid, One(vid).flows, Some(0), list);
  }

  lemma TheNetworkFlows(vid: nat, s: State, k: Net)
    requires RouterOk(vid, s) && k in s.addresses
    ensures Housekept(vid, s.flows) && HasFlows(vid, s.addresses[k], s.flows)
    ensures forall action :: NetworkFlow(vid, Flow(AddressCookie(vid, s.addresses[k].id), action))
  {
    AddressCookieRoundTrip(vid, s.addresses[k].id);
  }

  /** After that a request to delete all networks deletes none, until an ARP packet from 10.0.0.5 has come: then it
      deletes the network. */
  lemma StuckUntilArp(vid: nat, list: seq<Slot>, mac: Mac, port: int, portMac: Mac)
    requires vid != 0 && Picks(vid, Some(0), One(vid).flows, list)
    ensures var s := RouteZeroDeleted(vid, One(vid), list);
      var s' := AfterArp(vid, s, Some(NETWORK), HOST, mac, port, portMac);
      && Finds(s.addresses, HOST, Some(NETWORK)) && s.addresses == map[NetOf(NETWORK) := NETWORK]
      && Unreached(vid, None, {}, s.addresses, s.flows) == s.addresses
      && Unreached(vid, None, {}, s'.addresses, s'.flows) == map[]
  {
    hide RouterOk, FlowsAfter, Picked, AfterArp, Reached, One, Unreached, Finds, RoutesWithout;
    OneIsOk(vid);
    OneHasHost(vid);
    NetworksStuck(vid, One(vid), list, None, {});
    ArpFrees(vid, One(vid), list, NETWORK, HOST, mac, port, portMac, None, {}, NetOf(NETWORK));
    AddressesStay(vid, RouteZeroDeleted(vid, One(vid), list), HOST, mac, port, portMac);
    NothingElse(vid, AfterArp(vid, RouteZeroDeleted(vid, One(vid), list), Some(NETWORK), HOST, mac, port, portMac));
  }

  lemma OneHasHost(vid: nat)
    ensures One(vid).addresses == map[NetOf(NETWORK) := NETWORK] && One(vid).routes == map[]
    ensures Finds(One(vid).addresses, HOST, Some(NETWORK))
  {
    hide ApplyMask;
    TwentyFour(HOST);
  }

  lemma AddressesStay(vid: nat, s: State, srcIp: Ip, mac: Mac, port: int, portMac: Mac)
    ensures AfterArp(vid, s, Some(NETWORK), srcIp, mac, port, portMac).addresses == s.addresses
  {
  }

  lemma NothingElse(vid: nat, s: State)
    requires s.addresses == map[NetOf(NETWORK) := NETWORK] && NetOf(NETWORK) !in Unreached(vid, None, {}, s.addresses, s.flows)
    ensures Unreached(vid, None, {}, s.addresses, s.flows) == map[]
  {
    hide Reached;
  }

  /** Deleting route 0 on a switch without VLANs leaves no drop flow when the flows are reported in this
      order. */
  lemma RouteIdZero()
    ensures var flows := Empty(0, SHARED).flows;
      && RouterOk(0, Empty(0, SHARED)) && Picks(0, Some(0), flows, [DropSlot(0), ARP_SLOT, NORMAL_SLOT])
      && !Agree(0, map[], FlowsAfter(0, flows, [DropSlot(0), ARP_SLOT, NORMAL_SLOT]))
  {
    var flows := Empty(0, SHARED).flows;
    var list := [DropSlot(0), ARP_SLOT, NORMAL_SLOT];
    VlanCookieRoundTrip(0);
    SharedIsUnused(0);
    EmptyIsOk(0, SHARED);
    RouteZero(map[], flows, list);
  }

  // ---- a packet that waits for a gateway ----

  const ELSEWHERE: Ip := 0x0102_0304

  /** The packet to 1.2.3.4 takes the default route, and 10.0.0.2 is asked for its MAC address. */
  lemma TakesDefaultRoute(vid: nat)
    ensures Finds(Two(vid).addresses, ELSEWHERE, None) && Longest(Two(vid).routes, ELSEWHERE, Some(DEFAULT))
    ensures Asks(Two(vid).addresses, (OWN, GATEWAY), GATEWAY) && Attached(Two(vid).addresses, GATEWAY)
  {
    hide ApplyMask;
    TwentyFour(ELSEWHERE);
    TwentyFour(GATEWAY);
    assert Two(vid).addresses == map[NetOf(NETWORK) := NETWORK];
    assert Two(vid).routes == map[DEFAULT_KEY := DEFAULT];
    assert InNet(GATEWAY, NetOf(NETWORK));
  }

  /** The reply of 10.0.0.2 does not release it; its timer does. */
  lemma RoutedPacketWaits(vid: nat)
    ensures RouterOk(vid, Two(vid)) && Finds(Two(vid).addresses, ELSEWHERE, None) && Longest(Two(vid).routes, ELSEWHERE, Some(DEFAULT))
    ensures Asks(Two(vid).addresses, (OWN, GATEWAY), GATEWAY)
    ensures var (p, reply) := (Packet(0, 1, ELSEWHERE), Departure(Reply(GATEWAY)));
      && Within(Two(vid).addresses, reply)
      && BufferAfter([Arrival(1, ELSEWHERE), reply]).held == [p]
      && BufferAfter([Arrival(1, ELSEWHERE), reply] + [Departure(Timeout(0))]) == Buffer([], 1, [(0, Timeout(0))])
  {
    hide RouterOk, Attached, Finds, Longest, Asks, BufferAfter;
    TwoIsOk(vid);
    TakesDefaultRoute(vid);
    OnlyTheTimer(Packet(0, 1, ELSEWHERE), Reply(GATEWAY));
  }

  lemma OnlyTheTimer(p: Packet, reply: Cause)
    requires p.id == 0 && !Leaves(reply, p)
    ensures var e := [Arrival(p.inPort, p.dst), Departure(reply)];
      BufferAfter(e) == Buffer([p], 1, []) && BufferAfter(e + [Departure(Timeout(0))]) == Buffer([], 1, [(0, Timeout(0))])
  {
    var first := [Arrival(p.inPort, p.dst)];
    assert first[..0] == [];
    assert BufferAfter([]) == Buffer([], 0, []);
    assert [] + [p] == [p];
    assert BufferAfter(first) == Buffer([p], 1, []);
    var second := [Arrival(p.inPort, p.dst), Departure(reply)];
    assert second[..1] == first;
    OnePacket(reply, p);
    assert BufferAfter(second) == Buffer([p], 1, []);
    var third := second + [Departure(Timeout(0))];
    assert third[..2] == second;
    OnePacket(Timeout(0), p);
    assert BufferAfter(third) == Left(BufferAfter(second), Timeout(0));
  }

  lemma OnePacket(c: Cause, p: Packet)
    ensures Left(Buffer([p], 1, []), c) == if Leaves(c, p) then Buffer([], 1, [(p.id, c)]) else Buffer([p], 1, [])
  {
    assert [p][1..] == [] && [p] + [] == [p];
    assert Staying(c, [p]) == if Leaves(c, p) then [] else [p];
    assert Leaving(c, [p]) == if Leaves(c, p) then [p] else [];
    var m: seq<(nat, Cause)> := [(p.id, c)];
    assert m + [] == m && [] + m == m;
    assert Marked(c, [p]) == m;
  }

  // ---- tearing down while a packet waits ----

  /** On a fresh switch VLAN 2 gets the network 10.0.0.0/24 and a default route, and a packet to 1.2.3.4 comes. */
  function Beginning(): seq<S.SwitchEvent> {
    [S.NewVlan(2), S.On(2, R.PutAddress(OWN, 24)), S.On(2, R.PutRoute(DefaultRoute, GATEWAY)), S.On(2, R.PacketIn(1, ELSEWHERE))]
  }

  function Waits(): S.Whole {
    S.With(S.Start(), 2, TwoOn(2, S.Start().flows), BufferAfter([Arrival(1, ELSEWHERE)]))
  }

  lemma StartIsUnused()
    ensures Tagged(S.Start().flows) && Unused(2, S.Start().flows)
  {
    VlanCookieRoundTrip(0);
  }

  /** The event can happen, is good, and takes the whole from w to w'. */
  ghost predicate Goes(w: S.Whole, e: S.SwitchEvent, w': S.Whole) {
    T.Leads(w, e, w') && S.Good(w, e) && S.WholeOk(w')
  }

  /** The event can happen and takes the router of VLAN 2 from s to s', both in order. */
  ghost predicate Turns(s: State, e: R.Event, s': State) {
    RouterOk(2, s) && R.Possible(s, e) && s' == R.After(2, s, e) && RouterOk(2, s')
  }

  lemma NextOn(s: State, b: Buffer, e: R.Event, s': State, b': Buffer)
    requires Turns(s, e, s') && b' == R.WaitingAfter(2, s, b, e) && S.WholeOk(S.With(S.Start(), 2, s, b))
    ensures Goes(S.With(S.Start(), 2, s, b), S.On(2, e), S.With(S.Start(), 2, s', b'))
  {
    hide RouterOk, S.WholeOk, R.After, R.WaitingAfter, R.Possible, R.Harmless, S.Start;
    var w := S.With(S.Start(), 2, s, b);
    assert S.Part(w, 2) == s;
    R.EventOk(2, s, e);
    S.NextOk(w, S.On(2, e));
    assert S.Next(w, S.On(2, e)) == S.With(S.Start(), 2, s', b');
  }

  lemma RouterIsMade()
    ensures S.WholeOk(S.Start())
    ensures Goes(S.Start(), S.NewVlan(2), S.With(S.Start(), 2, Empty(2, S.Start().flows), BufferAfter([])))
  {
    hide S.WholeOk, Empty, BufferAfter;
    S.StartIsOk();
    S.NextOk(S.Start(), S.NewVlan(2));
  }

  /** One event more in front of a good run */
  lemma FirstEvent(w: S.Whole, e: S.SwitchEvent, w': S.Whole, rest: seq<S.SwitchEvent>)
    requires Goes(w, e, w') && S.GoodRun(w', rest)
    ensures S.WholeOk(w) && S.GoodRun(w, [e] + rest) && S.RunFrom(w, [e] + rest) == S.RunFrom(w', rest)
  {
    hide S.WholeOk, S.Happens, S.Good, S.Next;
    assert ([e] + rest)[1..] == rest;
  }

  lemma NoMore(w: S.Whole)
    requires S.WholeOk(w)
    ensures S.GoodRun(w, []) && S.RunFrom(w, []) == w
  {
    hide S.WholeOk;
  }

  lemma FourEvents(w0: S.Whole, e0: S.SwitchEvent, w1: S.Whole, e1: S.SwitchEvent, w2: S.Whole, e2: S.SwitchEvent, w3: S.Whole,
                   e3: S.SwitchEvent, w4: S.Whole)
    requires Goes(w0, e0, w1) && Goes(w1, e1, w2) && Goes(w2, e2, w3) && Goes(w3, e3, w4)
    ensures S.WholeOk(w0) && S.GoodRun(w0, [e0, e1, e2, e3]) && S.RunFrom(w0, [e0, e1, e2, e3]) == w4
  {
    hide T.Leads, S.Good, S.WholeOk, S.GoodRun, S.RunFrom;
    NoMore(w4);
    FirstEvent(w3, e3, w4, []);
    assert [e3] + [] == [e3];
    FirstEvent(w2, e2, w3, [e3]);
    assert [e2] + [e3] == [e2, e3];
    FirstEvent(w1, e1, w2, [e2, e3]);
    assert [e1] + [e2, e3] == [e1, e2, e3];
    FirstEvent(w0, e0, w1, [e1, e2, e3]);
    assert [e0] + [e1, e2, e3] == [e0, e1, e2, e3];
  }

  lemma NetworkIsSet()
    ensures Turns(Empty(2, S.Start().flows), R.PutAddress(OWN, 24), OneOn(2, S.Start().flows))
  {
    hide RouterOk, WithAddress, ApplyMask, S.Start;
    var flows := S.Start().flows;
    StartIsUnused();
    EmptyIsOk(2, flows);
    OneOnIsOk(2, flows);
    TwentyFour(OWN);
    assert R.Free(Empty(2, flows), OWN, 24);
    assert NewAddress(1, OWN, 24) == NETWORK;
  }

  lemma RouteIsSet()
    ensures Turns(OneOn(2, S.Start().flows), R.PutRoute(DefaultRoute, GATEWAY), TwoOn(2, S.Start().flows))
  {
    hide RouterOk, WithRoute, WithAddress, Usable, S.Start;
    var flows := S.Start().flows;
    StartIsUnused();
    OneOnIsOk(2, flows);
    TwoOnIsOk(2, flows);
    assert NewRoute(DefaultRoute, 1, GATEWAY) == DEFAULT;
    assert R.Admits(OneOn(2, flows), DefaultRoute, GATEWAY);
  }

  lemma PacketTurns()
    ensures Turns(TwoOn(2, S.Start().flows), R.PacketIn(1, ELSEWHERE), TwoOn(2, S.Start().flows))
  {
    hide RouterOk, TwoOn, S.Start;
    StartIsUnused();
    TwoOnIsOk(2, S.Start().flows);
  }

  /** The packet is suspended. */
  lemma PacketIsHeld()
    ensures var s := TwoOn(2, S.Start().flows);
      && Suspends(s.addresses, s.routes, BufferAfter([]), ELSEWHERE) && !Attached(s.addresses, ELSEWHERE)
      && R.WaitingAfter(2, s, BufferAfter([]), R.PacketIn(1, ELSEWHERE)) == BufferAfter([Arrival(1, ELSEWHERE)])
      && BufferAfter([Arrival(1, ELSEWHERE)]).held == [Packet(0, 1, ELSEWHERE)]
  {
    hide ApplyMask;
    var s := TwoOn(2, S.Start().flows);
    assert s.addresses == Two(2).addresses && s.routes == Two(2).routes;
    TakesDefaultRoute(2);
    var e := [Arrival(1, ELSEWHERE)];
    assert e[..0] == [];
    assert BufferAfter([]) == Buffer([], 0, []);
    assert [] + [Packet(0, 1, ELSEWHERE)] == [Packet(0, 1, ELSEWHERE)];
  }

  /** This beginning is a good run. */
  lemma WaitsIsReached()
    ensures S.WholeOk(S.Start()) && S.GoodRun(S.Start(), Beginning()) && S.RunFrom(S.Start(), Beginning()) == Waits()
    ensures S.WholeOk(Waits())
  {
    hide Turns, S.Start, Empty, OneOn, TwoOn, R.WaitingAfter, S.With, BufferAfter, S.GoodRun, S.RunFrom;
    hide S.WholeOk, T.Leads, S.Good;
    var flows, b := S.Start().flows, BufferAfter([]);
    var s0, s1, s2 := Empty(2, flows), OneOn(2, flows), TwoOn(2, flows);
    var e1, e2, e3 := R.PutAddress(OWN, 24), R.PutRoute(DefaultRoute, GATEWAY), R.PacketIn(1, ELSEWHERE);
    RouterIsMade();
    NetworkIsSet();
    NothingWaits(s0, b, e1, s1);
    NextOn(s0, b, e1, s1, b);
    RouteIsSet();
    NothingWaits(s1, b, e2, s2);
    NextOn(s1, b, e2, s2, b);
    PacketTurns();
    PacketIsHeld();
    NextOn(s2, b, e3, s2, BufferAfter([Arrival(1, ELSEWHERE)]));
    FourEvents(S.Start(), S.NewVlan(2), S.With(S.Start(), 2, s0, b), S.On(2, e1), S.With(S.Start(), 2, s1, b),
               S.On(2, e2), S.With(S.Start(), 2, s2, b), S.On(2, e3), Waits());
  }

  lemma NothingWaits(s: State, b: Buffer, e: R.Event, s': State)
    requires (e.PutAddress? || e.PutRoute?) && Turns(s, e, s')
    ensures R.WaitingAfter(2, s, b, e) == b
  {
    hide RouterOk, R.After;
  }

  /** Then all routes and networks are deleted, in whatever order the switch reports. The packet still waits, so
      that tearing the router down fails: it stays, without its drop flow. */
  lemma TearDownFails(report: seq<Slot>, w1: S.Whole, report': seq<Slot>, w2: S.Whole, report'': seq<Slot>, w3: S.Whole)
    requires T.Leads(Waits(), S.On(2, T.NoRoutes(report)), w1)
    requires T.Leads(w1, S.On(2, T.NoNetworks(report')), w2) && T.Leads(w2, S.DropVlan(2, report''), w3)
    ensures S.Good(Waits(), S.On(2, T.NoRoutes(report))) && S.Good(w1, S.On(2, T.NoNetworks(report')))
    ensures S.Unneeded(w2, 2) && Packet(0, 1, ELSEWHERE) in w2.vlans[2].waiting.held
    ensures !S.WholeOk(w3) && 2 in w3.vlans && DropSlot(2) !in w3.flows
  {
    hide T.Leads, S.WholeOk, S.Good, S.Unneeded, S.Start, TwoOn, BufferAfter, Attached;
    PacketIsHeld();
    var p := Packet(0, 1, ELSEWHERE);
    assert p in Waits().vlans[2].waiting.held;
    T.TearDown(Waits(), 2, report, w1, report', w2, report'', w3);
  }

  // ---- ids, priorities and VLANs ----

  /** The cookie of route 65536 is that of the next VLAN's own flows. */
  lemma RouteIdOverflows(vid: nat)
    ensures RouteCookie(vid, 0x1_0000) == VlanCookie(vid + 1)
    ensures VlanOf(RouteCookie(vid, 0x1_0000)) == vid + 1 && RouteOf(RouteCookie(vid, 0x1_0000)) == 0
  {
    VlanCookieRoundTrip(vid + 1);
  }

  const HOST: Ip := 0x0a00_0005

  /** Next to the network 10.0.0.0/24, the route to 1.2.3.4/0 ties with the flow that learns hosts: both match a
      packet to 10.0.0.5, with one priority. */
  lemma StaticTies(vid: nat, src: Ip)
    ensures var s := RouteSet(vid, One(vid), Zero(1));
      var (t, u) := (RouteSlot(vid, Zero(1)), MacLearningSlot(vid, NETWORK));
      && RouterOk(vid, s) && t in s.flows && u in s.flows && t != u && t.1 == u.1
      && MatchesIp(t.0, vid, src, HOST) && MatchesIp(u.0, vid, src, HOST)
  {
    hide RouterOk, Usable, ApplyMask;
    OneIsOk(vid);
    ZeroIsOk(1);
    SetRouteStep(vid, One(vid), Zero(1));
    NoMask(HOST);
    TwentyFour(HOST);
    TheNetworkFlows(vid, RouteSet(vid, One(vid), Zero(1)), NetOf(NETWORK));
  }

  /** VLAN 0 with the network 10.0.0.0/24, and VLAN 2 without networks and routes */
  function Mixed(): State {
    Empty(2, One(0).flows)
  }

  lemma MixedIsOk()
    ensures RouterOk(2, Mixed()) && RouterOk(0, One(0).(flows := Mixed().flows))
  {
    hide RouterOk, Others, Tagged;
    OneIsOk(0);
    FlowsAreTagged(0, One(0));
    assert Unused(2, One(0).flows) by {
      OnlyItsVlan();
    }
    EmptyIsOk(2, One(0).flows);
    FlowsAreTagged(2, Mixed());
    OtherRouterOk(2, Mixed().flows, 0, One(0));
  }

  lemma OnlyItsVlan()
    ensures forall s :: s in One(0).flows ==> VlanOf(One(0).flows[s].cookie) == 0
  {
    VlanCookieRoundTrip(0);
    AddressCookieRoundTrip(0, 1);
  }

  /** On VLAN 2 a packet to 10.0.0.1 matches the drop flow, but a flow of VLAN 0 that sends it to the controller
      comes first. */
  lemma OtherVlansGateway(src: Ip)
    ensures RouterOk(2, Mixed()) && Decision(2, Mixed(), src, OWN, None, None) == DropSlot(2)
    ensures Finds(Mixed().addresses, OWN, None) && Longest(Mixed().routes, OWN, None)
    ensures var t := IpHandlingSlot(0, NETWORK);
      t in Mixed().flows && Mixed().flows[t].action == Controller && MatchesIp(t.0, 2, src, OWN) && t.1 > DropSlot(2).1
  {
    hide RouterOk, ApplyMask;
    MixedIsOk();
    FullMask(OWN, OWN);
    TheNetworkFlows(0, One(0).(flows := Mixed().flows), NetOf(NETWORK));
  }
}
