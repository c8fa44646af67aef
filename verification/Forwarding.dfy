/** Which of all the flows on the switch decides over an IP packet. */
module Forwarding {
  import opened Options
  import opened Ipv4
  import opened AddressTable
  import opened RouteTable
  import opened FlowTables
  import opened FlowSteps
  import opened VlanFlows
  import opened RouterSteps

  /** The deciding flow, for a destination in the attached network `a`, or in none, and with the longest-prefix
      route `r`, or none: outside all networks the route's, or the drop flow. Inside a network, packets to its
      gateway address come first, then those from inside, then those to learnt hosts; only then a static route
      takes the packet, and failing that the controller learns the host. */
  ghost function Decision(vid: nat, s: State, src: Ip, dst: Ip, a: Option<Address>, r: Option<Route>): Slot {
    match a
    case None => Expected(vid, r)
    case Some(a) =>
      if dst == a.gw then IpHandlingSlot(vid, a)
      else if a.len <= 32 && InNet(src, NetOf(a)) then SwitchingSlot(vid, a)
      else if HostSlot(vid, dst) in s.flows then HostSlot(vid, dst)
      else if r.Some? && r.value.dst.Some? && r.value.len > 0 then RouteSlot(vid, r.value)
      else MacLearningSlot(vid, a)
  }

  /** The route is a static one of length 0, and the destination in an attached network is neither its gateway
      address nor a learnt host, nor is the source inside. */
  ghost predicate Ties(vid: nat, s: State, src: Ip, dst: Ip, a: Option<Address>, r: Option<Route>) {
    && a.Some? && r.Some? && r.value.dst.Some? && r.value.len == 0
    && dst != a.value.gw && !(a.value.len <= 32 && InNet(src, NetOf(a.value))) && HostSlot(vid, dst) !in s.flows
  }

  /** A static route of length 0 has the priority of the flow that learns hosts, so that neither of the two
      comes first. */
  predicate Tied(best: Slot, t: Slot, vid: nat, r: Option<Route>) {
    && r.Some? && r.value.dst.Some? && r.value.len == 0 && t == RouteSlot(vid, r.value)
    && best.1 == TypePriority(PRIORITY_MAC_LEARNING, vid)
  }

  lemma FullMask(ip: Ip, host: Ip)
    ensures InNet(ip, (host, 32)) <==> ip == host
  {
    ApplyIs(ip, 32);
  }

  /** A flow of a network's that matches the packet belongs to the network that contains the destination, and
      does not come ahead of the decision. */
  lemma NetworkFlowsBehind(vid: nat, s: State, src: Ip, dst: Ip, a: Option<Address>, r: Option<Route>, t: Slot)
    requires RouterOk(vid, s) && Finds(s.addresses, dst, a) && Longest(s.routes, dst, r)
    requires t in s.flows && NetworkFlow(vid, s.flows[t]) && MatchesIp(t.0, vid, src, dst)
    ensures a.Some? && (t == Decision(vid, s, src, dst, a, r) || t.1 < Decision(vid, s, src, dst, a, r).1)
  {
    hide RouterOk, Finds, Longest, MatchesIp, NetworkFlow, Decision;
    FlowOfNetwork(vid, s, src, dst, a, t);
    RankingInside(vid, s, src, dst, a.value, r, t);
  }

  /** The flow is one of those that can match a packet to a network. */
  ghost predicate Candidate(vid: nat, src: Ip, dst: Ip, a: Address, t: Slot) {
    || t == MacLearningSlot(vid, a)
    || (t == IpHandlingSlot(vid, a) && dst == a.gw)
    || (t == SwitchingSlot(vid, a) && a.len <= 32 && InNet(src, NetOf(a)))
    || t == HostSlot(vid, dst)
  }

  lemma RankingInside(vid: nat, s: State, src: Ip, dst: Ip, a: Address, r: Option<Route>, t: Slot)
    requires t in s.flows && Candidate(vid, src, dst, a, t)
    ensures t == Decision(vid, s, src, dst, Some(a), r) || t.1 < Decision(vid, s, src, dst, Some(a), r).1
  {
    hide InNet;
  }

  /** The flow is one of the network's that contains the destination. */
  lemma FlowOfNetwork(vid: nat, s: State, src: Ip, dst: Ip, a: Option<Address>, t: Slot)
    requires RouterOk(vid, s) && Finds(s.addresses, dst, a)
    requires t in s.flows && NetworkFlow(vid, s.flows[t]) && MatchesIp(t.0, vid, src, dst)
    ensures a.Some? && Candidate(vid, src, dst, a.value, t)
  {
    hide Agree, Housekept, RoutesOk, ApplyMask, GatewaysOk;
    assert Attributed(vid, s.addresses, t, s.flows[t]);
    var k :| k in s.addresses && s.addresses[k].id == AddressOf(s.flows[t].cookie) && OfNetwork(vid, s.addresses[k], t, s.flows[t]);
    var b := s.addresses[k];
    assert EntryOk(k, b);
    FullMask(dst, b.gw);
    if t == MacLearningSlot(vid, b) || t == IpHandlingSlot(vid, b) || t == SwitchingSlot(vid, b) {
      assert InNet(dst, k);
    } else {
      var host :| InNet(host, NetOf(b)) && t == HostSlot(vid, host);
      FullMask(dst, host);
      assert InNet(dst, k);
    }
    AtMostOne(s.addresses, s.addressId, dst, k, NetOf(a.value));
  }

  /** A route flow that matches the packet does not come ahead of the decision either, unless it is tied. */
  lemma RouteFlowsBehind(vid: nat, s: State, src: Ip, dst: Ip, a: Option<Address>, r: Option<Route>, t: Slot)
    requires RouterOk(vid, s) && Finds(s.addresses, dst, a) && Longest(s.routes, dst, r)
    requires t in s.flows && RouteFlow(vid, t, s.flows[t]) && MatchesIp(t.0, vid, src, dst)
    ensures var best := Decision(vid, s, src, dst, a, r); t == best || t.1 < best.1 || Tied(best, t, vid, r)
  {
    hide RouterOk, Finds, Longest, MatchesIp, RouteFlow, Decision;
    RouteFlowsRanked(vid, s, src, dst, r, t);
    RankingOutside(vid, s, src, dst, a, r, t);
  }

  lemma RouteFlowsRanked(vid: nat, s: State, src: Ip, dst: Ip, r: Option<Route>, t: Slot)
    requires RouterOk(vid, s) && Longest(s.routes, dst, r)
    requires t in s.flows && RouteFlow(vid, t, s.flows[t]) && MatchesIp(t.0, vid, src, dst)
    ensures t == Expected(vid, r) || t.1 < Expected(vid, r).1
    ensures r.Some? ==> r.value.len <= 32 && (r.value.dst.None? ==> r.value.len == 0)
  {
    hide Agree, Housekept, Tagged, TableOk, RoutesOk, RouteFlow, MatchesIp, Expected, NetworksOk;
    TablesOk(vid, s);
    SwitchFollowsTable(vid, s.routes, s.routeId, s.flows, src, dst, r);
    if r.Some? {
      LengthOk(s.routes, s.routeId, dst, r.value);
    }
  }

  lemma LengthOk(t: Routes, nextId: nat, dst: Ip, r: Route)
    requires RoutesOk(t, nextId) && Longest(t, dst, Some(r))
    ensures r.len <= 32 && (r.dst.None? ==> r.len == 0)
  {
    assert RouteOk(KeyOf(r), r);
  }

  lemma RankingOutside(vid: nat, s: State, src: Ip, dst: Ip, a: Option<Address>, r: Option<Route>, t: Slot)
    requires t == Expected(vid, r) || t.1 < Expected(vid, r).1
    requires r.Some? ==> r.value.len <= 32 && (r.value.dst.None? ==> r.value.len == 0)
    ensures var best := Decision(vid, s, src, dst, a, r); t == best || t.1 < best.1 || Tied(best, t, vid, r)
  {
    hide InNet;
  }

  /** The flow that decides is on the switch, and matches the packet. */
  lemma DecisionStands(vid: nat, s: State, src: Ip, dst: Ip, a: Option<Address>, r: Option<Route>)
    requires RouterOk(vid, s) && Finds(s.addresses, dst, a) && Longest(s.routes, dst, r)
    ensures var best := Decision(vid, s, src, dst, a, r); best in s.flows && MatchesIp(best.0, vid, src, dst)
  {
    hide RouterOk, Longest, MatchesIp, Finds, Expected, InNet;
    hide MacLearningSlot, IpHandlingSlot, SwitchingSlot, HostSlot, RouteSlot;
    RouteStands(vid, s, src, dst, r);
    if a.Some? {
      NetworkStands(vid, s, src, dst, a.value);
    }
  }

  lemma RouteStands(vid: nat, s: State, src: Ip, dst: Ip, r: Option<Route>)
    requires RouterOk(vid, s) && Longest(s.routes, dst, r)
    ensures Expected(vid, r) in s.flows && MatchesIp(Expected(vid, r).0, vid, src, dst)
    ensures r.Some? ==> Expected(vid, r) == RouteSlot(vid, r.value)
  {
    hide Agree, Housekept, Tagged, TableOk, RoutesOk, Longest, NetworksOk, MatchesIp, RouteFlow;
    TablesOk(vid, s);
    SwitchFollowsTable(vid, s.routes, s.routeId, s.flows, src, dst, r);
  }

  lemma NetworkStands(vid: nat, s: State, src: Ip, dst: Ip, a: Address)
    requires RouterOk(vid, s) && Finds(s.addresses, dst, Some(a))
    ensures MacLearningSlot(vid, a) in s.flows && MatchesIp(MacLearningSlot(vid, a).0, vid, src, dst)
    ensures IpHandlingSlot(vid, a) in s.flows && (dst == a.gw ==> MatchesIp(IpHandlingSlot(vid, a).0, vid, src, dst))
    ensures SwitchingSlot(vid, a) in s.flows
    ensures a.len <= 32 && (InNet(src, NetOf(a)) ==> MatchesIp(SwitchingSlot(vid, a).0, vid, src, dst))
    ensures MatchesIp(HostSlot(vid, dst).0, vid, src, dst)
  {
    hide Agree, Housekept, Tagged, TableOk, RoutesOk, Attributed, InNet, GatewaysOk;
    FullMask(dst, dst);
    assert HasFlows(vid, a, s.flows);
  }

  /** What the deciding flow does: packets to a gateway address go to the controller, those inside a network are
      switched, those to a learnt host are sent out, those outside all networks without a route are dropped, and
      a route's are sent out exactly when its gateway's MAC address is known. */
  lemma DecisionActs(vid: nat, s: State, src: Ip, dst: Ip, a: Option<Address>, r: Option<Route>)
    requires RouterOk(vid, s) && Finds(s.addresses, dst, a) && Longest(s.routes, dst, r)
    ensures var best := Decision(vid, s, src, dst, a, r);
      && best in s.flows
      && (a.None? ==> (s.flows[best].action == Drop <==> r.None?))
      && (a.Some? && dst == a.value.gw ==> s.flows[best].action == Controller)
      && (a.Some? && dst != a.value.gw && a.value.len <= 32 && InNet(src, NetOf(a.value)) ==> s.flows[best].action == Normal)
      && (a.Some? && best == HostSlot(vid, dst) ==> s.flows[best].action.Output?)
      && (a.Some? && best == MacLearningSlot(vid, a.value) ==> s.flows[best].action == Controller)
      && (r.Some? && best == RouteSlot(vid, r.value) && (a.None? || r.value.len > 0) ==>
            (s.flows[best].action.Output? <==> r.value.gatewayMac.Some?)
            && (s.flows[best].action.Output? ==> s.flows[best].action.dstMac == r.value.gatewayMac.value))
  {
    hide Agree, Housekept, Tagged, TableOk, RoutesOk, Longest, Attributed, InNet, EntryOk, Apart;
    hide RouteFlow, MatchesIp, GatewaysOk, SharedFlows;
    TablesOk(vid, s);
    DecisionStands(vid, s, src, dst, a, r);
    SwitchFollowsTable(vid, s.routes, s.routeId, s.flows, src, dst, r);
    if a.Some? {
      assert HasFlows(vid, a.value, s.flows);
      if HostSlot(vid, dst) in s.flows {
        HostFlow(vid, s, dst);
      }
    }
  }

  /** The flow in a host's slot is that of a learnt host. */
  lemma HostFlow(vid: nat, s: State, host: Ip)
    requires RouterOk(vid, s) && HostSlot(vid, host) in s.flows
    ensures s.flows[HostSlot(vid, host)].action.Output?
  {
    hide FlowsOk, TableOk, RoutesOk, GatewaysOk, OfNetwork, HostSlot, NetworkFlow;
    var t := HostSlot(vid, host);
    HostFlowKind(vid, s, host);
    assert Attributed(vid, s.addresses, t, s.flows[t]);
    var k :| k in s.addresses && s.addresses[k].id == AddressOf(s.flows[t].cookie) && OfNetwork(vid, s.addresses[k], t, s.flows[t]);
    HostFlowAction(vid, s.addresses[k], host, s.flows[t]);
  }

  lemma HostFlowAction(vid: nat, a: Address, host: Ip, f: Flow)
    requires OfNetwork(vid, a, HostSlot(vid, host), f)
    ensures f.action.Output?
  {
    hide InNet;
  }

  lemma HostFlowKind(vid: nat, s: State, host: Ip)
    requires RouterOk(vid, s) && HostSlot(vid, host) in s.flows
    ensures NetworkFlow(vid, s.flows[HostSlot(vid, host)])
  {
    hide TableOk, RoutesOk, GatewaysOk, NetworksOk, Housekept, SharedFlows;
    HostSlotApart(vid, s.routes, s.routeId, host);
  }

  /** No other flow of the VLAN that matches a packet comes ahead of the decision, and only a tied one has the
      same priority. */
  lemma VlanFlowsBehind(vid: nat, s: State, src: Ip, dst: Ip, a: Option<Address>, r: Option<Route>, t: Slot)
    requires RouterOk(vid, s) && Finds(s.addresses, dst, a) && Longest(s.routes, dst, r)
    requires t in s.flows && VlanOf(s.flows[t].cookie) == vid && MatchesIp(t.0, vid, src, dst)
    ensures var best := Decision(vid, s, src, dst, a, r); t == best || t.1 < best.1 || Tied(best, t, vid, r)
  {
    hide Agree, Tagged, TableOk, RoutesOk, Longest, Finds, Decision, InNet, NetworksOk, GatewaysOk;
    if NetworkFlow(vid, s.flows[t]) {
      NetworkFlowsBehind(vid, s, src, dst, a, r, t);
    } else if RouteFlow(vid, t, s.flows[t]) {
      RouteFlowsBehind(vid, s, src, dst, a, r, t);
    } else {
      assert t == NORMAL_SLOT;
      PriorityPositive(vid, s, src, dst, a, r);
    }
  }

  /** Among all the flows of a VLAN that match a packet, the one that decides has strictly the highest priority,
      exactly when the packet is not one for which a static route of length 0 ties with the flow that learns
      hosts. */
  lemma VlanDecides(vid: nat, s: State, src: Ip, dst: Ip, a: Option<Address>, r: Option<Route>)
    requires RouterOk(vid, s) && Finds(s.addresses, dst, a) && Longest(s.routes, dst, r)
    ensures var best := Decision(vid, s, src, dst, a, r);
      (forall t :: t in s.flows && t != best && VlanOf(s.flows[t].cookie) == vid && MatchesIp(t.0, vid, src, dst) ==> t.1 < best.1)
        <==> !Ties(vid, s, src, dst, a, r)
  {
    hide RouterOk, Finds, Longest, MatchesIp, InNet, HostSlot, Tied, Decision;
    var best := Decision(vid, s, src, dst, a, r);
    if Ties(vid, s, src, dst, a, r) {
      RouteTies(vid, s, src, dst, a.value, r.value);
    } else {
      forall t | t in s.flows && t != best && VlanOf(s.flows[t].cookie) == vid && MatchesIp(t.0, vid, src, dst) ensures t.1 < best.1 {
        VlanFlowsBehind(vid, s, src, dst, a, r, t);
        OnlyTies(vid, s, src, dst, a, r, t);
      }
    }
  }

  lemma OnlyTies(vid: nat, s: State, src: Ip, dst: Ip, a: Option<Address>, r: Option<Route>, t: Slot)
    requires t != Decision(vid, s, src, dst, a, r)
    ensures Tied(Decision(vid, s, src, dst, a, r), t, vid, r) ==> Ties(vid, s, src, dst, a, r)
  {
    hide InNet;
  }

  lemma RouteTies(vid: nat, s: State, src: Ip, dst: Ip, a: Address, r: Route)
    requires RouterOk(vid, s) && Finds(s.addresses, dst, Some(a)) && Longest(s.routes, dst, Some(r))
    requires Ties(vid, s, src, dst, Some(a), Some(r))
    ensures var (best, t) := (Decision(vid, s, src, dst, Some(a), Some(r)), RouteSlot(vid, r));
      && t in s.flows && t != best && VlanOf(s.flows[t].cookie) == vid && MatchesIp(t.0, vid, src, dst) && t.1 == best.1
  {
    hide RouterOk, Finds, MatchesIp, InNet, MacLearningSlot, Expected;
    RouteStands(vid, s, src, dst, Some(r));
    RouteFlowIs(vid, s, dst, r);
    LearningFlowIs(vid, s, dst, a);
    SamePriority(vid, a, r);
  }

  lemma RouteFlowIs(vid: nat, s: State, dst: Ip, r: Route)
    requires RouterOk(vid, s) && Longest(s.routes, dst, Some(r))
    ensures RouteSlot(vid, r) in s.flows && VlanOf(s.flows[RouteSlot(vid, r)].cookie) == vid
    ensures RouteOf(s.flows[RouteSlot(vid, r)].cookie) != 0
  {
    hide Housekept, Tagged, TableOk, RoutesOk, NetworksOk, GatewaysOk;
    TablesOk(vid, s);
    RouteCookieRoundTrip(vid, r.id);
  }

  lemma LearningFlowIs(vid: nat, s: State, dst: Ip, a: Address)
    requires RouterOk(vid, s) && Finds(s.addresses, dst, Some(a))
    ensures MacLearningSlot(vid, a) in s.flows && RouteOf(s.flows[MacLearningSlot(vid, a)].cookie) == 0
  {
    hide Agree, Housekept, Tagged, RoutesOk, GatewaysOk, Attributed, InNet, Apart;
    assert HasFlows(vid, a, s.flows);
    AddressCookieRoundTrip(vid, a.id);
  }

  lemma SamePriority(vid: nat, a: Address, r: Route)
    requires r.dst.Some? && r.len == 0
    ensures RouteSlot(vid, r).1 == MacLearningSlot(vid, a).1
  {
  }

  lemma PriorityPositive(vid: nat, s: State, src: Ip, dst: Ip, a: Option<Address>, r: Option<Route>)
    ensures 1 + VlanShift(vid) <= Decision(vid, s, src, dst, a, r).1
    ensures (r.Some? ==> r.value.len <= 32) ==> Decision(vid, s, src, dst, a, r).1 <= TypePriority(PRIORITY_IP_HANDLING, vid)
  {
    hide InNet;
  }

  // ---- the flows of VLAN 0, which match packets of every VLAN ----

  /** On a VLAN of its own, the flow that decides comes ahead of the flows of all VLANs, exactly when the
      destination is not a gateway address on VLAN 0: that one's packets go to the controller, with the
      highest priority there is. */
  lemma SwitchDecides(vid: nat, s: State, s0: State, src: Ip, dst: Ip, a: Option<Address>, r: Option<Route>)
    requires vid != 0 && RouterOk(vid, s) && RouterOk(0, s0) && s0.flows == s.flows
    requires Finds(s.addresses, dst, a) && Longest(s.routes, dst, r)
    ensures var best := Decision(vid, s, src, dst, a, r);
      (forall t :: t in s.flows && VlanOf(s.flows[t].cookie) != vid && MatchesIp(t.0, vid, src, dst) ==> t.1 < best.1)
        <==> !IsOwn(s0.addresses, dst)
  {
    hide RouterOk, Decision, Finds, Longest, MatchesIp;
    var best := Decision(vid, s, src, dst, a, r);
    PriorityPositive(vid, s, src, dst, a, r);
    if r.Some? {
      TablesOk(vid, s);
      LengthOk(s.routes, s.routeId, dst, r.value);
    }
    if IsOwn(s0.addresses, dst) {
      GatewayFlowMatches(vid, s0, src, dst);
    } else {
      forall t | t in s.flows && VlanOf(s.flows[t].cookie) != vid && MatchesIp(t.0, vid, src, dst) ensures t.1 < best.1 {
        SharedVlanBehind(vid, s0, src, dst, t);
      }
    }
  }

  lemma GatewayFlowMatches(vid: nat, s0: State, src: Ip, dst: Ip)
    requires vid != 0 && RouterOk(0, s0) && IsOwn(s0.addresses, dst)
    ensures exists t ::
      && t in s0.flows && VlanOf(s0.flows[t].cookie) != vid && MatchesIp(t.0, vid, src, dst)
      && t.1 == TypePriority(PRIORITY_IP_HANDLING, 0)
  {
    hide Agree, Housekept, Tagged, RoutesOk, Attributed, Apart;
    var k :| k in s0.addresses && s0.addresses[k].gw == dst;
    assert HasFlows(0, s0.addresses[k], s0.flows);
    var t := IpHandlingSlot(0, s0.addresses[k]);
    FullMask(dst, dst);
    AddressCookieRoundTrip(0, s0.addresses[k].id);
    assert t in s0.flows && VlanOf(s0.flows[t].cookie) != vid && MatchesIp(t.0, vid, src, dst);
  }

  /** Every other flow of VLAN 0 has a priority below those of other VLANs. */
  lemma SharedVlanBehind(vid: nat, s0: State, src: Ip, dst: Ip, t: Slot)
    requires vid != 0 && RouterOk(0, s0) && !IsOwn(s0.addresses, dst)
    requires t in s0.flows && VlanOf(s0.flows[t].cookie) != vid && MatchesIp(t.0, vid, src, dst)
    ensures t.1 < PRIORITY_VLAN_SHIFT
  {
    hide Agree, RoutesOk, TableOk, GatewaysOk, NetworksOk, NetworkFlow, RouteFlow;
    ItsVlan(vid, s0, src, dst, t);
    if NetworkFlow(0, s0.flows[t]) {
      NetworkPriorities(vid, s0, src, dst, t);
    } else if RouteFlow(0, t, s0.flows[t]) {
      RoutePriorities(s0, t);
    } else {
      OtherPriorities(s0, t);
    }
  }

  lemma ItsVlan(vid: nat, s0: State, src: Ip, dst: Ip, t: Slot)
    requires RouterOk(0, s0) && t in s0.flows && VlanOf(s0.flows[t].cookie) != vid && MatchesIp(t.0, vid, src, dst)
    ensures VlanOf(s0.flows[t].cookie) == 0
  {
    hide Agree, Housekept, RoutesOk, TableOk, GatewaysOk, NetworksOk, InNet;
  }

  lemma NetworkPriorities(vid: nat, s0: State, src: Ip, dst: Ip, t: Slot)
    requires RouterOk(0, s0) && !IsOwn(s0.addresses, dst)
    requires t in s0.flows && NetworkFlow(0, s0.flows[t]) && MatchesIp(t.0, vid, src, dst)
    ensures t.1 < PRIORITY_VLAN_SHIFT
  {
    hide Agree, Housekept, Tagged, RoutesOk, TableOk, GatewaysOk, OfNetwork, MatchesIp;
    assert Attributed(0, s0.addresses, t, s0.flows[t]);
    var k :| k in s0.addresses && s0.addresses[k].id == AddressOf(s0.flows[t].cookie) && OfNetwork(0, s0.addresses[k], t, s0.flows[t]);
    NetworkPriority(vid, s0.addresses[k], t, s0.flows[t], src, dst);
  }

  lemma NetworkPriority(vid: nat, a: Address, t: Slot, f: Flow, src: Ip, dst: Ip)
    requires OfNetwork(0, a, t, f) && MatchesIp(t.0, vid, src, dst)
    ensures t.1 < PRIORITY_VLAN_SHIFT || a.gw == dst
  {
    hide InNet;
    FullMask(dst, a.gw);
  }

  lemma OtherPriorities(s0: State, t: Slot)
    requires RouterOk(0, s0) && t in s0.flows && VlanOf(s0.flows[t].cookie) == 0
    requires !NetworkFlow(0, s0.flows[t]) && !RouteFlow(0, t, s0.flows[t])
    ensures t == ARP_SLOT || t == NORMAL_SLOT
  {
    hide Agree, Tagged, RoutesOk, TableOk, GatewaysOk, NetworksOk;
  }

  lemma RoutePriorities(s0: State, t: Slot)
    requires RouterOk(0, s0) && t in s0.flows && RouteFlow(0, t, s0.flows[t])
    ensures t.1 <= 34
  {
    hide ApplyMask;
    if Owned(0, s0.routes, t) {
      var k :| k in s0.routes && t == RouteSlot(0, s0.routes[k]);
      assert RouteOk(k, s0.routes[k]);
    }
  }
}
