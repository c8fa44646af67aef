/** Runs of all the VLANs' routers on one switch, class Router of rest_router.py. */
module SwitchRuns {
  import opened Options
  import opened Ipv4
  import opened AddressTable
  import opened RouteTable
  import opened FlowTables
  import opened VlanFlows
  import opened SuspendedPackets
  import opened RouterSteps
  import opened RouteDeletion
  import opened VlanRouters
  import opened Forwarding
  import opened RouterRuns

  datatype Tables = Tables(addresses: Addresses, addressId: nat, routes: Routes, routeId: nat, waiting: Buffer)

  /** The tables and the waiting packets of each VLAN's router, and the flows on the switch */
  datatype Whole = Whole(vlans: map<nat, Tables>, flows: FlowTable)

  /** `report` is the order in which the switch lists its flows when a router is torn down. */
  datatype SwitchEvent = NewVlan(vid: nat) | DropVlan(vid: nat, report: seq<Slot>) | On(vid: nat, event: Event)

  function Part(w: Whole, vid: nat): State
    requires vid in w.vlans
  {
    var t := w.vlans[vid];
    State(t.addresses, t.addressId, t.routes, t.routeId, w.flows)
  }

  function With(w: Whole, vid: nat, s: State, b: Buffer): Whole {
    Whole(w.vlans[vid := Tables(s.addresses, s.addressId, s.routes, s.routeId, b)], s.flows)
  }

  /** Every router is in order, that of VLAN 0 is there, and every flow is one of a router's. */
  ghost predicate WholeOk(w: Whole) {
    && 0 in w.vlans && Tagged(w.flows)
    && (forall v :: v in w.vlans ==> RouterOk(v, Part(w, v)) && BufferOk(w.vlans[v].waiting))
    && (forall s :: s in w.flows ==> VlanOf(w.flows[s].cookie) in w.vlans)
  }

  /** The router is not VLAN 0's and has neither networks nor routes, so that it is torn down. */
  predicate Unneeded(w: Whole, v: nat) {
    v in w.vlans && v != 0 && w.vlans[v].addresses == map[] && w.vlans[v].routes == map[]
  }

  ghost predicate Happens(w: Whole, e: SwitchEvent) {
    match e
    case NewVlan(_) => true
    case DropVlan(_, report) => Report(report, w.flows)
    case On(v, e) => v in w.vlans ==> Possible(Part(w, v), e)
  }

  /** A router of a VLAN is made for its first request. When it has neither networks nor routes its flows are
      deleted; then it is removed, unless packets are still waiting, so that the assertion fails and it stays. */
  ghost function Next(w: Whole, e: SwitchEvent): Whole
    requires WholeOk(w) && Happens(w, e)
  {
    match e
    case NewVlan(v) => if v in w.vlans then w else With(w, v, Empty(v, w.flows), BufferAfter([]))
    case DropVlan(v, _) =>
      if !Unneeded(w, v) then w
      else Whole(if w.vlans[v].waiting.held == [] then w.vlans - {v} else w.vlans, Others(v, w.flows))
    case On(v, e) =>
      if v in w.vlans
      then With(w, v, After(v, Part(w, v), e), WaitingAfter(v, Part(w, v), w.vlans[v].waiting, e))
      else w
  }

  /** The events that keep the whole in order: those that are harmless to their router, and tearing a router down
      while no packets are waiting */
  ghost predicate Good(w: Whole, e: SwitchEvent) {
    match e
    case NewVlan(_) => true
    case DropVlan(v, _) => Unneeded(w, v) ==> w.vlans[v].waiting.held == []
    case On(v, e) => v in w.vlans ==> Harmless(v, Part(w, v), e)
  }

  function Start(): Whole {
    Whole(map[0 := Tables(map[], 1, map[], 1, BufferAfter([]))],
      map[ARP_SLOT := Flow(0, Controller), NORMAL_SLOT := Flow(0, Normal), DropSlot(0) := DropFlow(0)])
  }

  lemma StartIsOk()
    ensures WholeOk(Start())
  {
    hide RouterOk, BufferOk, Tagged;
    StartRouterIsOk();
    FlowsAreTagged(0, Part(Start(), 0));
    RunIsOk([]);
    VlanCookieRoundTrip(0);
    assert Start().flows.Keys == {ARP_SLOT, NORMAL_SLOT, DropSlot(0)};
  }

  lemma StartRouterIsOk()
    ensures RouterOk(0, Part(Start(), 0))
  {
    hide RouterOk;
    var flows := map[ARP_SLOT := Flow(0, Controller), NORMAL_SLOT := Flow(0, Normal)];
    VlanCookieRoundTrip(0);
    EmptyIsOk(0, flows);
    assert Part(Start(), 0) == Empty(0, flows);
  }

  /** A step of one VLAN's router that leaves the flows of the others alone keeps the whole in order exactly when
      it keeps that router in order. */
  lemma PartStep(w: Whole, v: nat, s: State, b: Buffer)
    requires Others(v, s.flows) == Others(v, w.flows) && 0 in w.vlans && Tagged(w.flows) && BufferOk(b)
    requires forall u :: u in w.vlans && u != v ==> RouterOk(u, Part(w, u)) && BufferOk(w.vlans[u].waiting)
    requires forall x :: x in w.flows ==> VlanOf(w.flows[x].cookie) in w.vlans
    ensures WholeOk(With(w, v, s, b)) <==> RouterOk(v, s)
  {
    hide RouterOk, Others, BufferOk;
    var w' := With(w, v, s, b);
    assert Part(w', v) == s;
    if RouterOk(v, s) {
      FlowsAreTagged(v, s);
      forall u | u in w'.vlans ensures RouterOk(u, Part(w', u)) && BufferOk(w'.vlans[u].waiting) {
        if u != v {
          OtherRouterOk(v, s.flows, u, Part(w, u));
        }
      }
      forall x | x in w'.flows ensures VlanOf(w'.flows[x].cookie) in w'.vlans {
        if x.0.vlan != v {
          OtherVlansSame(v, w.flows, s.flows, x.0.vlan);
        }
      }
    }
  }

  /** An event keeps the whole in order exactly when it is good. */
  lemma NextOk(w: Whole, e: SwitchEvent)
    requires WholeOk(w) && Happens(w, e)
    ensures WholeOk(Next(w, e)) <==> Good(w, e)
  {
    hide RouterOk, Others, After, WaitingAfter, Harmless, Possible, Tagged, BufferOk;
    match e
    case NewVlan(v) =>
      if v !in w.vlans {
        EmptyIsOk(v, w.flows);
        RunIsOk([]);
        PartStep(w, v, Empty(v, w.flows), BufferAfter([]));
      }
    case DropVlan(v, report) => DropOk(w, v, report);
    case On(v, event) =>
      if v in w.vlans {
        EventOk(v, Part(w, v), event);
        WaitingOk(v, Part(w, v), w.vlans[v].waiting, event);
        PartStep(w, v, After(v, Part(w, v), event), WaitingAfter(v, Part(w, v), w.vlans[v].waiting, event));
      }
  }

  /** Tearing the router of a VLAN down keeps the whole in order exactly when no packets are waiting: otherwise
      the router stays without its drop flow. */
  lemma DropOk(w: Whole, v: nat, report: seq<Slot>)
    requires WholeOk(w) && Report(report, w.flows)
    ensures WholeOk(Next(w, DropVlan(v, report))) <==> (Unneeded(w, v) ==> w.vlans[v].waiting.held == [])
  {
    hide RouterOk, BufferOk;
    var w' := Next(w, DropVlan(v, report));
    if Unneeded(w, v) {
      assert Others(v, w'.flows) == Others(v, w.flows);
      forall u | u in w'.vlans && u != v ensures RouterOk(u, Part(w', u)) {
        OtherRouterOk(v, w'.flows, u, Part(w, u));
      }
      if w.vlans[v].waiting.held != [] {
        NoDropFlow(v, Part(w', v));
      }
    }
  }

  lemma NoDropFlow(v: nat, s: State)
    requires DropSlot(v) !in s.flows && s.routes == map[]
    ensures !RouterOk(v, s)
  {
  }

  ghost predicate GoodRun(w: Whole, events: seq<SwitchEvent>)
    requires WholeOk(w)
    decreases |events|
  {
    events == [] || (Happens(w, events[0]) && Good(w, events[0]) && (NextOk(w, events[0]); GoodRun(Next(w, events[0]), events[1..])))
  }

  /** All routers are in order after every good run. */
  ghost function RunFrom(w: Whole, events: seq<SwitchEvent>): (w': Whole)
    requires WholeOk(w) && GoodRun(w, events)
    ensures WholeOk(w')
    decreases |events|
  {
    if events == [] then w else
      NextOk(w, events[0]);
      RunFrom(Next(w, events[0]), events[1..])
  }

  lemma RouterOfStaysOk(w: Whole, vid: nat)
    requires WholeOk(w) && vid in w.vlans
    ensures RouterOk(vid, Part(w, vid)) && RouterOk(0, Part(w, 0))
  {
    hide RouterOk;
  }

  /** After every good run of requests, packets and expiries on all VLANs: for every packet on a VLAN with a router,
      the flow that decides over it is on the switch and matches. Of all the flows on the switch that match it has
      strictly the highest priority, exactly when the packet is not one for which a static route of length 0 ties
      with the flow that learns hosts, and its destination is, on a VLAN of its own, no gateway address of VLAN 0. */
  lemma EveryRunForwards(w: Whole, events: seq<SwitchEvent>, vid: nat, src: Ip, dst: Ip, a: Option<Address>, r: Option<Route>)
    requires WholeOk(w) && GoodRun(w, events)
    requires var w' := RunFrom(w, events);
      vid in w'.vlans && Finds(w'.vlans[vid].addresses, dst, a) && Longest(w'.vlans[vid].routes, dst, r)
    ensures var w' := RunFrom(w, events);
      var best := Decision(vid, Part(w', vid), src, dst, a, r);
      && best in w'.flows && MatchesIp(best.0, vid, src, dst)
      && (First(w'.flows, vid, src, dst, best)
          <==> !Ties(vid, Part(w', vid), src, dst, a, r) && !(vid != 0 && IsOwn(w'.vlans[0].addresses, dst)))
  {
    hide RouterOk, Decision, Finds, Longest, Ties, MatchesIp, RunFrom, GoodRun, IsOwn;
    var w' := RunFrom(w, events);
    RouterOfStaysOk(w', vid);
    var s := Part(w', vid);
    var best := Decision(vid, s, src, dst, a, r);
    DecisionStands(vid, s, src, dst, a, r);
    VlanDecides(vid, s, src, dst, a, r);
    ItsOwnVlan(vid, s, src, dst, a, r);
    forall t | t in w'.flows && MatchesIp(t.0, vid, src, dst) && VlanOf(w'.flows[t].cookie) != vid ensures vid != 0 {
      MatchedVlan(w', vid, src, dst, t);
    }
    if vid != 0 {
      SwitchDecides(vid, s, Part(w', 0), src, dst, a, r);
    }
  }

  /** All other flows that match the packet have lower priorities. */
  ghost predicate First(flows: FlowTable, vid: nat, src: Ip, dst: Ip, best: Slot) {
    forall t :: t in flows && t != best && MatchesIp(t.0, vid, src, dst) ==> t.1 < best.1
  }

  lemma ItsOwnVlan(vid: nat, s: State, src: Ip, dst: Ip, a: Option<Address>, r: Option<Route>)
    requires RouterOk(vid, s) && Decision(vid, s, src, dst, a, r) in s.flows
    ensures VlanOf(s.flows[Decision(vid, s, src, dst, a, r)].cookie) == vid
  {
    hide RouterOk, InNet;
    FlowsAreTagged(vid, s);
  }

  /** A flow of another VLAN that matches is one of VLAN 0. */
  lemma MatchedVlan(w: Whole, vid: nat, src: Ip, dst: Ip, t: Slot)
    requires WholeOk(w) && t in w.flows && MatchesIp(t.0, vid, src, dst) && VlanOf(w.flows[t].cookie) != vid
    ensures vid != 0 && VlanOf(w.flows[t].cookie) == 0
  {
    hide RouterOk, InNet;
  }
}
