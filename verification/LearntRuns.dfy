/** What the flows of learnt hosts and of routes remember of a run: the port and the MAC addresses of the last ARP
    packet that was learnt from. */
module LearntRuns {
  import opened Options
  import opened Ipv4
  import opened AddressTable
  import opened RouteTable
  import opened FlowTables
  import opened FlowSteps
  import opened VlanFlows
  import opened RouterSteps
  import opened RouteDeletion
  import opened AddressDeletion
  import opened Forwarding
  import opened VlanRouters
  import opened RouterRuns
  import W = SwitchRuns

  /** What an event teaches about a host: an ARP packet from it, when it is in an attached network and no route's
      gateway, came in by a port with a MAC address of its own. */
  ghost function OfHost(s: State, e: Event, host: Ip): Option<Action> {
    if e.Arp? && e.srcIp == host && Attached(s.addresses, host) && forall k :: k in s.routes ==> s.routes[k].gateway != host
    then Some(Output(e.port, e.portMac, e.srcMac)) else None
  }

  /** What an event teaches about a route: an ARP packet from its gateway with a MAC address that is news */
  ghost function OfRoute(s: State, e: Event, id: nat): Option<Action> {
    if e.Arp? && Attached(s.addresses, e.srcIp) && exists k :: IsNews(s.routes, e.srcIp, e.srcMac, k) && s.routes[k].id == id
    then Some(Output(e.port, e.portMac, e.srcMac)) else None
  }

  // ---- hosts ----

  /** The flow that deletions of routes leave in another slot than the default route's is as it was. */
  lemma LeftByDeletion(vid: nat, s: State, id: Option<nat>, report: seq<Slot>, t: Slot)
    requires RouterOk(vid, s) && Report(report, s.flows) && t != DropSlot(vid)
    ensures var flows := FlowsAfter(vid, s.flows, PickedOf(vid, id, report, s.flows));
      t in flows ==> t in s.flows && flows[t] == s.flows[t]
  {
    hide RouterOk, FlowsAfter, DropSlot, Picked;
    PickedOfPicks(vid, id, report, s.flows);
    PickedGo(vid, id, s.flows, PickedOf(vid, id, report, s.flows));
  }

  /** The slot of a host is none of a network's, a route's or the drop flow. */
  lemma NoNetworksSlot(vid: nat, host: Ip, a: Address)
    ensures HostSlot(vid, host) !in {MacLearningSlot(vid, a), IpHandlingSlot(vid, a), SwitchingSlot(vid, a)}
  {
  }

  lemma NoRoutesSlot(vid: nat, host: Ip, r: Route)
    requires r.len <= 32
    ensures HostSlot(vid, host) != RouteSlot(vid, r)
  {
  }

  lemma NoDropSlot(vid: nat, host: Ip)
    ensures HostSlot(vid, host) != DropSlot(vid)
  {
  }

  lemma HostAfterArp(vid: nat, s: State, e: Event, host: Ip)
    requires RouterOk(vid, s) && Possible(s, e) && e.Arp? && HostSlot(vid, host) in After(vid, s, e).flows
    ensures var (slot, learnt) := (HostSlot(vid, host), OfHost(s, e, host));
      if learnt.Some? then After(vid, s, e).flows[slot].action == learnt.value
      else slot in s.flows && After(vid, s, e).flows[slot] == s.flows[slot]
  {
    hide RouterOk, Finds, InNet, RoutesOk;
    TablesOk(vid, s);
    HostSlotApart(vid, s.routes, s.routeId, host);
    hide RouteSlot;
  }

  /** The flow of a host after an event is what the event teaches, or as it was. */
  lemma HostStep(vid: nat, s: State, e: Event, host: Ip)
    requires RouterOk(vid, s) && Possible(s, e) && HostSlot(vid, host) in After(vid, s, e).flows
    ensures var (slot, learnt) := (HostSlot(vid, host), OfHost(s, e, host));
      if learnt.Some? then After(vid, s, e).flows[slot].action == learnt.value
      else slot in s.flows && After(vid, s, e).flows[slot] == s.flows[slot]
  {
    hide RouterOk, Finds, InNet, Fits, SkipSet, ApplyMask, FlowsAfter, HostSlot, RouteSlot, DropSlot, AfterArp;
    hide MacLearningSlot, IpHandlingSlot, SwitchingSlot, Usable;
    match e
    case PutAddress(gw, netmask) =>
      if Free(s, gw, netmask) {
        NoNetworksSlot(vid, host, NewAddress(s.addressId, gw, netmask));
      }
    case PutRoute(d, gateway) =>
      if Admits(s, d, gateway) {
        NoRoutesSlot(vid, host, NewRoute(d, s.routeId, gateway));
      }
    case RemoveRoutes(id, report) =>
      NoDropSlot(vid, host);
      LeftByDeletion(vid, s, id, report, HostSlot(vid, host));
    case Arp(_, _, _, _, _, _) => HostAfterArp(vid, s, e, host);
    case _ =>
  }

  // ---- routes ----

  /** A route that forwards after an event has the flow that the event teaches, or was there before with the flow
      that it has. */
  ghost predicate RouteKeeps(vid: nat, s: State, s': State, learnt: Option<Action>, k: Net) {
    k in s'.routes && s'.routes[k].gatewayMac.Some? && RouteSlot(vid, s'.routes[k]) in s'.flows ==>
      var action := s'.flows[RouteSlot(vid, s'.routes[k])].action;
      if learnt.Some? then action == learnt.value
      else
        && k in s.routes && s.routes[k] == s'.routes[k]
        && FlowAt(s.flows, RouteSlot(vid, s.routes[k]), s'.flows[RouteSlot(vid, s.routes[k])])
  }

  lemma RouteAfterAddress(vid: nat, s: State, gw: Ip, netmask: int, k: Net)
    requires RouterOk(vid, s) && s.addressId <= MAX_ID
    requires var s' := After(vid, s, PutAddress(gw, netmask)); RouterOk(vid, s')
    ensures RouteKeeps(vid, s, After(vid, s, PutAddress(gw, netmask)), None, k)
  {
    hide RouterOk, Fits, ApplyMask, MacLearningSlot, IpHandlingSlot, SwitchingSlot, RouteSlot;
    var s' := After(vid, s, PutAddress(gw, netmask));
    if k in s.routes && Free(s, gw, netmask) {
      TablesOk(vid, s);
      RoutesPresent(vid, s');
      CookiesApart(vid, s.addressId, s.routes[k].id);
    }
  }

  lemma RouteAfterRoute(vid: nat, s: State, d: Destination, gateway: Ip, k: Net)
    requires RouterOk(vid, s) && s.routeId <= MAX_ID && DestinationOk(d)
    requires RouterOk(vid, After(vid, s, PutRoute(d, gateway)))
    ensures RouteKeeps(vid, s, After(vid, s, PutRoute(d, gateway)), None, k)
  {
    hide RouterOk, ApplyMask, Usable, RouteSlot, RoutesOk, DestinationOk;
    var s' := After(vid, s, PutRoute(d, gateway));
    if k in s'.routes && Admits(s, d, gateway) {
      TablesOk(vid, s');
      var r := NewRoute(d, s.routeId, gateway);
      assert s'.routes[KeyOf(r)] == r;
      if RouteSlot(vid, s'.routes[k]) == RouteSlot(vid, r) {
        SlotsDiffer(vid, s'.routes, s'.routeId, k, KeyOf(r));
      }
    }
  }

  /** What deletions of routes leave with another cookie than the drop flow's is as it was. */
  lemma KeptByDeletion(vid: nat, flows: FlowTable, id: Option<nat>, t: Slot)
    requires t in FlowsWithout(vid, id, flows) && FlowsWithout(vid, id, flows)[t].cookie != VlanCookie(vid)
    ensures t in flows && FlowsWithout(vid, id, flows)[t] == flows[t]
  {
  }

  lemma NoDropCookie(vid: nat, t: Routes, nextId: nat, k: Net)
    requires RoutesOk(t, nextId) && k in t
    ensures RouteCookie(vid, t[k].id) != VlanCookie(vid)
  {
  }

  lemma RouteLeft(vid: nat, s: State, s': State, id: Option<nat>, k: Net)
    requires RouterOk(vid, s) && RouterOk(vid, s')
    requires s'.routes == RoutesWithout(s.routes, id) && s'.flows == FlowsWithout(vid, id, s.flows)
    ensures RouteKeeps(vid, s, s', None, k)
  {
    hide RouterOk, RouteSlot, RoutesOk, FlowsWithout, RouteCookie, VlanCookie, TableOk, GatewaysOk, SmallIds;
    if k in s'.routes {
      TablesOk(vid, s);
      RoutesPresent(vid, s');
      assert s'.routes[k] == s.routes[k];
      NoDropCookie(vid, s.routes, s.routeId, k);
      KeptByDeletion(vid, s.flows, id, RouteSlot(vid, s.routes[k]));
    }
  }

  lemma RouteAfterDeletion(vid: nat, s: State, id: Option<nat>, report: seq<Slot>, k: Net)
    requires RouterOk(vid, s) && Report(report, s.flows)
    requires RouterOk(vid, After(vid, s, RemoveRoutes(id, report)))
    ensures RouteKeeps(vid, s, After(vid, s, RemoveRoutes(id, report)), None, k)
  {
    hide RouterOk, FlowsAfter, FlowsWithout, Picked, Others, RoutesAfter, RouteKeeps, RoutesWithout;
    PickedOfPicks(vid, id, report, s.flows);
    DeleteRoutesStep(vid, s, id, PickedOf(vid, id, report, s.flows));
    RouteLeft(vid, s, After(vid, s, RemoveRoutes(id, report)), id, k);
  }

  lemma RouteAfterArp(vid: nat, s: State, e: Event, k: Net)
    requires RouterOk(vid, s) && Possible(s, e) && e.Arp? && k in s.routes
    ensures RouteKeeps(vid, s, After(vid, s, e), OfRoute(s, e, s.routes[k].id), k)
  {
    hide RouterOk, Finds, InNet, RoutesOk, RouteSlot, HostSlot, LearntFlows, WithMac, RouteOk, TableOk;
    TablesOk(vid, s);
    if exists j :: j in s.routes && s.routes[j].gateway == e.srcIp {
      GatewayLearnt(vid, s, e.srcIp, e.srcMac, Output(e.port, e.portMac, e.srcMac));
      OnlyItsFlow(vid, s.routes, s.routeId, k);
      SameRouteSlot(vid, s.routes[k], Some(e.srcMac));
      if IsNews(s.routes, e.srcIp, e.srcMac, k) {
        assert Attached(s.addresses, e.srcIp) ==> OfRoute(s, e, s.routes[k].id).Some?;
      } else {
        assert OfRoute(s, e, s.routes[k].id).None?;
      }
    } else {
      LengthIs(s.routes, s.routeId, k);
      NoRoutesSlot(vid, e.srcIp, s.routes[k]);
    }
  }

  lemma LengthIs(t: Routes, nextId: nat, k: Net)
    requires RoutesOk(t, nextId) && k in t
    ensures t[k].len <= 32
  {
  }

  lemma SameRouteSlot(vid: nat, r: Route, mac: Option<Mac>)
    ensures RouteSlot(vid, r.(gatewayMac := mac)) == RouteSlot(vid, r)
  {
  }

  /** No other route has its slot or its id. */
  lemma OnlyItsFlow(vid: nat, t: Routes, nextId: nat, k: Net)
    requires RoutesOk(t, nextId) && k in t
    ensures forall j :: j in t && (RouteSlot(vid, t[j]) == RouteSlot(vid, t[k]) || t[j].id == t[k].id) ==> j == k
  {
    hide RouteSlot, RouteOk;
    forall j | j in t && RouteSlot(vid, t[j]) == RouteSlot(vid, t[k]) ensures j == k {
      SlotsDiffer(vid, t, nextId, j, k);
    }
  }

  /** The flow of a route that forwards after an event is what the event teaches, or as it was. */
  lemma RouteStep(vid: nat, s: State, e: Event, k: Net)
    requires RouterOk(vid, s) && Possible(s, e) && RouterOk(vid, After(vid, s, e)) && k in After(vid, s, e).routes
    ensures RouteKeeps(vid, s, After(vid, s, e), OfRoute(s, e, After(vid, s, e).routes[k].id), k)
  {
    hide RouterOk, Finds, InNet, Fits, SkipSet, ApplyMask, FlowsAfter, HostSlot, RouteSlot, DropSlot, WithAddress, Usable;
    hide LearntFlows;
    match e
    case PutAddress(gw, netmask) => RouteAfterAddress(vid, s, gw, netmask, k);
    case PutRoute(d, gateway) => RouteAfterRoute(vid, s, d, gateway, k);
    case RemoveRoutes(id, report) => RouteAfterDeletion(vid, s, id, report, k);
    case Arp(_, _, _, _, _, _) => RouteAfterArp(vid, s, e, k);
    case _ =>
  }

  // ---- all the VLANs of a switch ----

  /** What an event on the switch teaches about a host of a VLAN */
  ghost function OnHost(w: W.Whole, e: W.SwitchEvent, v: nat, host: Ip): Option<Action> {
    if e.On? && e.vid == v && v in w.vlans then OfHost(W.Part(w, v), e.event, host) else None
  }

  ghost function OnRoute(w: W.Whole, e: W.SwitchEvent, v: nat, id: nat): Option<Action> {
    if e.On? && e.vid == v && v in w.vlans then OfRoute(W.Part(w, v), e.event, id) else None
  }

  /** The last that a run teaches about a host */
  ghost function LastOnHost(w: W.Whole, events: seq<W.SwitchEvent>, v: nat, host: Ip): Option<Action>
    requires W.WholeOk(w) && W.GoodRun(w, events)
    decreases |events|
  {
    if events == [] then None else
      W.NextOk(w, events[0]);
      var later := LastOnHost(W.Next(w, events[0]), events[1..], v, host);
      if later.Some? then later else OnHost(w, events[0], v, host)
  }

  /** The last that a run teaches about a route */
  ghost function LastOnRoute(w: W.Whole, events: seq<W.SwitchEvent>, v: nat, id: nat): Option<Action>
    requires W.WholeOk(w) && W.GoodRun(w, events)
    decreases |events|
  {
    if events == [] then None else
      W.NextOk(w, events[0]);
      var later := LastOnRoute(W.Next(w, events[0]), events[1..], v, id);
      if later.Some? then later else OnRoute(w, events[0], v, id)
  }

  /** The flow of a host on the switch is what was learnt, or as it was. */
  ghost predicate HostKeeps(flows: FlowTable, flows': FlowTable, learnt: Option<Action>, slot: Slot) {
    slot in flows' ==> if learnt.Some? then flows'[slot].action == learnt.value else FlowAt(flows, slot, flows'[slot])
  }

  lemma HostOnSwitch(w: W.Whole, e: W.SwitchEvent, v: nat, host: Ip)
    requires W.WholeOk(w) && W.Happens(w, e)
    ensures HostKeeps(w.flows, W.Next(w, e).flows, OnHost(w, e, v, host), HostSlot(v, host))
  {
    hide W.WholeOk, OfHost, Possible, After, WaitingAfter, Harmless, RouterOk;
    match e
    case NewVlan(u) => NotItsDropSlot(u, v, host);
    case DropVlan(u, _) =>
    case On(u, event) =>
      if u in w.vlans {
        PartOk(w, u);
        if u == v && HostSlot(v, host) in After(v, W.Part(w, v), event).flows {
          HostStep(v, W.Part(w, v), event, host);
        }
        EventOk(u, W.Part(w, u), event);
        if u != v {
          OtherVlansSame(u, w.flows, After(u, W.Part(w, u), event).flows, v);
        }
      }
  }

  lemma NotItsDropSlot(u: nat, v: nat, host: Ip)
    ensures HostSlot(v, host) != DropSlot(u)
  {
  }

  lemma PartOk(w: W.Whole, v: nat)
    requires W.WholeOk(w) && v in w.vlans
    ensures RouterOk(v, W.Part(w, v))
  {
    hide RouterOk;
  }

  /** After every run on the switch the flow of a host does what the run last taught about it, or what it did before
      the run. */
  lemma {:induction false} HostRemembers(w: W.Whole, events: seq<W.SwitchEvent>, v: nat, host: Ip)
    requires W.WholeOk(w) && W.GoodRun(w, events)
    ensures HostKeeps(w.flows, W.RunFrom(w, events).flows, LastOnHost(w, events, v, host), HostSlot(v, host))
    decreases |events|
  {
    hide W.WholeOk, W.Happens, W.Good, W.Next, HostSlot, OnHost;
    if events != [] {
      W.NextOk(w, events[0]);
      HostRemembers(W.Next(w, events[0]), events[1..], v, host);
      HostOnSwitch(w, events[0], v, host);
    }
  }

  /** A route of a VLAN that forwards has the flow that was learnt, or was there before with the flow that it has. */
  ghost predicate KeepsRoute(w: W.Whole, w': W.Whole, learnt: Option<Action>, v: nat, k: Net) {
    v in w'.vlans && k in w'.vlans[v].routes && w'.vlans[v].routes[k].gatewayMac.Some? ==>
      && (learnt.None? ==> v in w.vlans)
      && RouteKeeps(v, W.Part(if v in w.vlans then w else w', v), W.Part(w', v), learnt, k)
  }

  lemma RouteOnSwitch(w: W.Whole, e: W.SwitchEvent, v: nat, k: Net)
    requires W.WholeOk(w) && W.Happens(w, e) && W.WholeOk(W.Next(w, e))
    requires v in W.Next(w, e).vlans && k in W.Next(w, e).vlans[v].routes
    ensures KeepsRoute(w, W.Next(w, e), OnRoute(w, e, v, W.Next(w, e).vlans[v].routes[k].id), v, k)
  {
    hide W.WholeOk, OfRoute, Possible, After, WaitingAfter, Harmless, RouterOk, RouteSlot;
    var w' := W.Next(w, e);
    OnItsVlan(v, w'.vlans[v].routes[k]);
    match e
    case NewVlan(u) =>
    case DropVlan(u, _) =>
    case On(u, event) =>
      if u in w.vlans {
        PartOk(w, u);
        if u == v {
          PartOk(w', v);
          assert W.Part(w', v) == After(v, W.Part(w, v), event);
          RouteStep(v, W.Part(w, v), event, k);
        } else {
          EventOk(u, W.Part(w, u), event);
          OtherVlansSame(u, w.flows, After(u, W.Part(w, u), event).flows, v);
        }
      }
  }

  lemma OnItsVlan(v: nat, r: Route)
    ensures RouteSlot(v, r).0.vlan == v
  {
  }

  /** After every run on the switch the flow of a route that forwards does what the run last taught about the route, or
      what it did before the run. */
  lemma {:induction false} RouteRemembers(w: W.Whole, events: seq<W.SwitchEvent>, v: nat, k: Net)
    requires W.WholeOk(w) && W.GoodRun(w, events)
    requires var w' := W.RunFrom(w, events); v in w'.vlans && k in w'.vlans[v].routes
    ensures var w' := W.RunFrom(w, events);
      KeepsRoute(w, w', LastOnRoute(w, events, v, w'.vlans[v].routes[k].id), v, k)
    decreases |events|
  {
    hide W.WholeOk, W.Happens, W.Good, W.Next, RouteSlot, OnRoute;
    if events != [] {
      W.NextOk(w, events[0]);
      var w1 := W.Next(w, events[0]);
      RouteRemembers(w1, events[1..], v, k);
      if v in w1.vlans && k in w1.vlans[v].routes {
        RouteOnSwitch(w, events[0], v, k);
        RouteHasFlow(w1, v, k);
      }
      RouteHasFlow(W.RunFrom(w, events), v, k);
    }
  }

  lemma RouteHasFlow(w: W.Whole, v: nat, k: Net)
    requires W.WholeOk(w) && v in w.vlans && k in w.vlans[v].routes
    ensures RouteSlot(v, w.vlans[v].routes[k]) in w.flows
  {
    hide RouterOk;
    PartOk(w, v);
    RoutesPresent(v, W.Part(w, v));
  }

  // ---- the decision ----

  lemma StartsEmpty(v: nat, host: Ip)
    ensures HostSlot(v, host) !in W.Start().flows
    ensures v in W.Start().vlans ==> W.Start().vlans[v].routes == map[]
  {
  }

  /** After every good run from the start of a switch, on all its VLANs: the flow that decides over a packet to a learnt
      host sends it out by the port, from the MAC address and to the MAC address that the run last taught about the
      host; and if it is a route's whose gateway's MAC address is known, by those that it last taught about the
      route. */
  lemma DecisionSends(events: seq<W.SwitchEvent>, vid: nat, src: Ip, dst: Ip, a: Option<Address>, r: Option<Route>)
    requires W.WholeOk(W.Start()) && W.GoodRun(W.Start(), events)
    requires var w := W.RunFrom(W.Start(), events);
      vid in w.vlans && Finds(w.vlans[vid].addresses, dst, a) && Longest(w.vlans[vid].routes, dst, r)
    ensures var w := W.RunFrom(W.Start(), events);
      var best := Decision(vid, W.Part(w, vid), src, dst, a, r);
      && best in w.flows
      && (best == HostSlot(vid, dst) ==> Some(w.flows[best].action) == LastOnHost(W.Start(), events, vid, dst))
      && (r.Some? && best == RouteSlot(vid, r.value) && r.value.gatewayMac.Some? && (a.None? || r.value.len > 0) ==>
        && Some(w.flows[best].action) == LastOnRoute(W.Start(), events, vid, r.value.id)
        && w.flows[best].action.dstMac == r.value.gatewayMac.value)
  {
    hide W.WholeOk, RouterOk, Decision, Finds, RouteSlot, HostSlot, W.Start, MatchesIp, InNet, Matches;
    var w := W.RunFrom(W.Start(), events);
    StartsEmpty(vid, dst);
    PartOk(w, vid);
    DecisionActs(vid, W.Part(w, vid), src, dst, a, r);
    HostRemembers(W.Start(), events, vid, dst);
    if r.Some? {
      RouteRemembers(W.Start(), events, vid, KeyOf(r.value));
      RouteHasFlow(w, vid, KeyOf(r.value));
    }
  }
}
