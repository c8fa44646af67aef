/** Deleting routes by walking over the flows that the switch reports, _delete_routing_data. */
module RouteDeletion {
  import opened Options
  import opened Seqs
  import opened Ipv4
  import opened AddressTable
  import opened RouteTable
  import opened FlowTables
  import opened FlowSteps
  import opened VlanFlows
  import opened RouterSteps

  /** The flows that a request picks: those of every route, or those whose cookie has this route id */
  predicate Picked(vid: nat, id: Option<nat>, f: Flow) {
    VlanOf(f.cookie) == vid && (if id.Some? then RouteOf(f.cookie) == id.value else RouteOf(f.cookie) != 0)
  }

  /** The picked flows of a report, in its order */
  function PickedOf(vid: nat, id: Option<nat>, report: seq<Slot>, flows: FlowTable): (list: seq<Slot>)
    requires forall s :: s in report ==> s in flows
    ensures forall s :: s in list ==> s in flows
  {
    if report == [] then [] else
      var n := |report| - 1;
      var before := PickedOf(vid, id, report[..n], flows);
      if Picked(vid, id, flows[report[n]]) then before + [report[n]] else before
  }

  ghost predicate Picks(vid: nat, id: Option<nat>, flows: FlowTable, list: seq<Slot>) {
    forall s :: s in list <==> s in flows && Picked(vid, id, flows[s])
  }

  /** What the switch reports when asked for its flows: all of them, in an order of its own */
  ghost predicate Report(report: seq<Slot>, flows: FlowTable) {
    forall s :: s in report <==> s in flows
  }

  lemma {:induction false} PickedOfPicks(vid: nat, id: Option<nat>, report: seq<Slot>, flows: FlowTable)
    requires forall s :: s in report ==> s in flows
    ensures forall s :: s in PickedOf(vid, id, report, flows) <==> s in report && Picked(vid, id, flows[s])
  {
    if report != [] {
      TakeNext(report, |report| - 1);
      PickedOfPicks(vid, id, report[..|report| - 1], flows);
    }
  }

  /** The flow table after the deletions for a list of reported flows */
  function FlowsAfter(vid: nat, flows: FlowTable, list: seq<Slot>): FlowTable
    requires forall s :: s in list ==> s in flows
    decreases |list|
  {
    if list == [] then flows
    else
      var last := list[|list| - 1];
      DeleteRouteFlow(vid, FlowsAfter(vid, flows, list[..|list| - 1]), last, flows[last].cookie)
  }

  /** The routing table after the deletions for a list of reported flows */
  ghost function RoutesAfter(t: Routes, flows: FlowTable, list: seq<Slot>): Routes
    requires forall s :: s in list ==> s in flows
  {
    map k | k in t && (forall s :: s in list ==> RouteOf(flows[s].cookie) != t[k].id) :: t[k]
  }

  lemma RoutesAfterNext(t: Routes, flows: FlowTable, list: seq<Slot>)
    requires list != [] && forall s :: s in list ==> s in flows
    ensures RoutesAfter(t, flows, list) == WithoutRoute(RoutesAfter(t, flows, list[..|list| - 1]), RouteOf(flows[list[|list| - 1]].cookie))
  {
    TakeNext(list, |list| - 1);
  }

  /** What is left of the table is what the request asks for. */
  function RoutesWithout(t: Routes, id: Option<nat>): Routes {
    if id.Some? then WithoutRoute(t, id.value) else map[]
  }

  lemma DeletedRoutes(vid: nat, t: Routes, flows: FlowTable, id: Option<nat>, list: seq<Slot>)
    requires SmallIds(t) && Agree(vid, t, flows) && Picks(vid, id, flows, list)
    ensures RoutesAfter(t, flows, list) == RoutesWithout(t, id)
  {
    forall k | k in t && (id.Some? ==> t[k].id == id.value)
      ensures exists s :: s in list && RouteOf(flows[s].cookie) == t[k].id
    {
      var s := RouteSlot(vid, t[k]);
      RouteCookieRoundTrip(vid, t[k].id);
      assert s in list;
    }
  }

  // ---- the flows, whatever the order of the report ----

  /** In all slots but that of the default route, exactly the flows that share a cookie with a listed one go,
      and nothing else changes. */
  lemma {:induction false} OtherSlots(vid: nat, flows: FlowTable, list: seq<Slot>, s: Slot)
    requires s != DropSlot(vid) && forall x :: x in list ==> x in flows
    ensures s in FlowsAfter(vid, flows, list) <==> s in flows && forall x :: x in list ==> flows[x].cookie != flows[s].cookie
    ensures s in FlowsAfter(vid, flows, list) ==> FlowsAfter(vid, flows, list)[s] == flows[s]
    decreases |list|
  {
    hide DropSlot, DropFlow;
    if list != [] {
      TakeNext(list, |list| - 1);
      OtherSlots(vid, flows, list[..|list| - 1], s);
    }
  }

  /** A request picks the flow s exactly when a listed flow shares its cookie. */
  lemma SharesCookie(vid: nat, id: Option<nat>, flows: FlowTable, list: seq<Slot>, s: Slot)
    requires Picks(vid, id, flows, list) && s in flows
    ensures (forall x :: x in list ==> flows[x].cookie != flows[s].cookie) <==> !Picked(vid, id, flows[s])
  {
  }

  /** For every request and every order of the report, in all slots but that of the default route exactly the
      picked flows go. */
  lemma PickedGo(vid: nat, id: Option<nat>, flows: FlowTable, list: seq<Slot>)
    requires Picks(vid, id, flows, list)
    ensures forall s: Slot :: s != DropSlot(vid) ==>
      && (s in FlowsAfter(vid, flows, list) <==> s in flows && !Picked(vid, id, flows[s]))
      && (s in FlowsAfter(vid, flows, list) ==> FlowsAfter(vid, flows, list)[s] == flows[s])
  {
    hide FlowsAfter, Picked;
    forall s: Slot | s != DropSlot(vid)
      ensures s in FlowsAfter(vid, flows, list) <==> s in flows && !Picked(vid, id, flows[s])
      ensures s in FlowsAfter(vid, flows, list) ==> FlowsAfter(vid, flows, list)[s] == flows[s]
    {
      OtherSlots(vid, flows, list, s);
      if s in flows {
        SharesCookie(vid, id, flows, list, s);
      }
    }
  }

  /** Among the listed flows, the one in the slot of the default route is the one with its priority, and the
      others have not the drop flow's cookie. */
  ghost predicate Tame(vid: nat, flows: FlowTable, list: seq<Slot>) {
    forall s :: s in list ==>
      && s in flows
      && (s.1 == PRIORITY_DEFAULT_ROUTING + VlanShift(vid) <==> s == DropSlot(vid))
      && (s != DropSlot(vid) ==> flows[s].cookie != VlanCookie(vid))
  }

  /** The slot of the default route has the drop flow once its flow has been treated. */
  lemma {:induction false} DefaultSlot(vid: nat, flows: FlowTable, list: seq<Slot>)
    requires Tame(vid, flows, list) && DropSlot(vid) in flows
    requires DropSlot(vid) !in list ==> forall x :: x in list ==> flows[x].cookie != flows[DropSlot(vid)].cookie
    ensures DropSlot(vid) in list ==>
      DropSlot(vid) in FlowsAfter(vid, flows, list) && FlowsAfter(vid, flows, list)[DropSlot(vid)] == DropFlow(vid)
    ensures DropSlot(vid) !in list ==>
      DropSlot(vid) in FlowsAfter(vid, flows, list) && FlowsAfter(vid, flows, list)[DropSlot(vid)] == flows[DropSlot(vid)]
    decreases |list|
  {
    hide DropSlot, VlanCookie, VlanShift;
    if list != [] {
      var n := |list| - 1;
      TakeNext(list, n);
      if DropSlot(vid) in list[..n] || list[n] != DropSlot(vid) {
        DefaultSlot(vid, flows, list[..n]);
      }
    }
  }

  /** A request that leaves the flows alone that VLAN 0 shares with the others picks tame flows. */
  lemma PicksAreTame(vid: nat, t: Routes, nextId: nat, flows: FlowTable, id: Option<nat>, list: seq<Slot>)
    requires RoutesOk(t, nextId) && SmallIds(t) && FlowsOk(vid, t, flows) && Picks(vid, id, flows, list)
    requires !(vid == 0 && id == Some(0))
    ensures Tame(vid, flows, list)
  {
    hide ApplyMask;
    VlanCookieRoundTrip(vid);
    forall s | s in list
      ensures s.1 == PRIORITY_DEFAULT_ROUTING + VlanShift(vid) <==> s == DropSlot(vid)
      ensures s != DropSlot(vid) ==> flows[s].cookie != VlanCookie(vid)
    {
      if RouteOf(flows[s].cookie) != 0 {
        var k := RouteOfFlow(vid, t, flows, s);
        assert RouteOk(k, t[k]);
      } else {
        OtherFlow(vid, t, flows, s);
      }
    }
  }

  /** A flow with the VLAN's own cookie is the drop flow, unless it is one of those that VLAN 0 shares. */
  lemma OtherFlow(vid: nat, t: Routes, flows: FlowTable, s: Slot)
    requires FlowsOk(vid, t, flows) && SmallIds(t) && vid != 0
    requires s in flows && VlanOf(flows[s].cookie) == vid && RouteOf(flows[s].cookie) == 0
    ensures AddressOf(flows[s].cookie) == 0 ==> s == DropSlot(vid) && !HasDefault(t)
    ensures AddressOf(flows[s].cookie) != 0 ==> s.1 != PRIORITY_DEFAULT_ROUTING + VlanShift(vid)
  {
    if AddressOf(flows[s].cookie) == 0 {
      assert RouteFlow(vid, s, flows[s]);
      forall k | k in t ensures RouteOf(RouteCookie(vid, t[k].id)) != 0 {
        RouteCookieRoundTrip(vid, t[k].id);
      }
    }
  }

  /** The flows without the picked ones, and with the drop flow in place of a picked default route's */
  function FlowsWithout(vid: nat, id: Option<nat>, flows: FlowTable): FlowTable {
    map s | s in flows && (s == DropSlot(vid) || !Picked(vid, id, flows[s])) ::
      if Picked(vid, id, flows[s]) then DropFlow(vid) else flows[s]
  }

  /** In numbers: of the flows whose cookie has the VLAN in its high word and the route id asked for in the upper half
      of its low word, or any when all routes are, only the one in the default route's slot stays, and drops. */
  ghost predicate Unrouted(vid: nat, id: Option<nat>, flows: FlowTable, flows': FlowTable) {
    var drop := (Match(EthIp, vid, None, None), if vid == 0 then 1 else 1001);
    && (forall s :: s in flows' ==> s in flows)
    && forall s :: s in flows ==>
      var (high, route) := (flows[s].cookie / 0x1_0000_0000, flows[s].cookie % 0x1_0000_0000 / 0x1_0000);
      var asked := high == vid && (if id.Some? then route == id.value else route != 0);
      && (s in flows' <==> !asked || s == drop)
      && (s in flows' ==> flows'[s] == if asked then Flow(vid * 0x1_0000_0000, Drop) else flows[s])
  }

  lemma WithoutIsUnrouted(vid: nat, id: Option<nat>, flows: FlowTable)
    ensures Unrouted(vid, id, flows, FlowsWithout(vid, id, flows))
  {
  }

  lemma DefaultSlotTaken(vid: nat, t: Routes, flows: FlowTable)
    requires Agree(vid, t, flows)
    ensures DropSlot(vid) in flows
  {
    if HasDefault(t) {
      assert RouteSlot(vid, t[DEFAULT_KEY]) == DropSlot(vid);
    }
  }

  lemma FlowByFlow(vid: nat, id: Option<nat>, flows: FlowTable, after: FlowTable)
    requires DropSlot(vid) in flows && DropSlot(vid) in after
    requires after[DropSlot(vid)] == if Picked(vid, id, flows[DropSlot(vid)]) then DropFlow(vid) else flows[DropSlot(vid)]
    requires forall s: Slot :: s != DropSlot(vid) ==>
      (s in after <==> s in flows && !Picked(vid, id, flows[s])) && (s in after ==> after[s] == flows[s])
    ensures after == FlowsWithout(vid, id, flows)
  {
    hide Picked, DropSlot, DropFlow;
  }

  /** The loop leaves exactly those flows, in whatever order the switch reports them, unless the request is for
      route 0 of VLAN 0. */
  lemma DeletionRun(vid: nat, t: Routes, nextId: nat, flows: FlowTable, id: Option<nat>, list: seq<Slot>)
    requires RoutesOk(t, nextId) && SmallIds(t) && FlowsOk(vid, t, flows) && Picks(vid, id, flows, list)
    requires !(vid == 0 && id == Some(0))
    ensures FlowsAfter(vid, flows, list) == FlowsWithout(vid, id, flows)
  {
    hide FlowsAfter, FlowsWithout, Tame, Picked, DropSlot, DropFlow, FlowsOk, Agree;
    PicksAreTame(vid, t, nextId, flows, id, list);
    PickedGo(vid, id, flows, list);
    assert Agree(vid, t, flows) by {
      ItAgrees(vid, t, flows);
    }
    DefaultSlotTaken(vid, t, flows);
    SharesCookie(vid, id, flows, list, DropSlot(vid));
    DefaultSlot(vid, flows, list);
    FlowByFlow(vid, id, flows, FlowsAfter(vid, flows, list));
  }

  lemma ItAgrees(vid: nat, t: Routes, flows: FlowTable)
    requires FlowsOk(vid, t, flows)
    ensures Agree(vid, t, flows)
  {
  }

  /** Without the picked flows the switch agrees with the table without the routes asked for. */
  lemma WithoutAgrees(vid: nat, t: Routes, nextId: nat, flows: FlowTable, id: Option<nat>)
    requires RoutesOk(t, nextId) && SmallIds(t) && FlowsOk(vid, t, flows) && !(vid == 0 && id == Some(0))
    ensures FlowsOk(vid, RoutesWithout(t, id), FlowsWithout(vid, id, flows))
    ensures Others(vid, FlowsWithout(vid, id, flows)) == Others(vid, flows)
  {
    var t', flows' := RoutesWithout(t, id), FlowsWithout(vid, id, flows);
    WithoutKeeps(vid, t, flows, id);
    DefaultDropped(vid, t, flows, id);
    hide FlowsOk, RoutesOk, SmallIds, FlowsWithout, RoutesWithout, DropSlot, DropFlow, HasDefault, RouteSlot, RouteFlow, Picked;
    forall k | k in t'
      ensures RouteSlot(vid, t'[k]) in flows' && Carries(vid, t'[k], flows'[RouteSlot(vid, t'[k])])
    {
      RouteRemains(vid, t, flows, id, k);
    }
    forall s | s in flows' && RouteFlow(vid, s, flows'[s])
      ensures Owned(vid, t', s) || (s == DropSlot(vid) && !HasDefault(t'))
    {
      StillAccountedFor(vid, t, nextId, flows, id, s);
    }
    AllOk(vid, t', flows');
  }

  lemma AllOk(vid: nat, t: Routes, flows: FlowTable)
    requires forall k :: k in t ==> RouteSlot(vid, t[k]) in flows && Carries(vid, t[k], flows[RouteSlot(vid, t[k])])
    requires !HasDefault(t) ==> DropSlot(vid) in flows && flows[DropSlot(vid)] == DropFlow(vid)
    requires forall s :: s in flows && RouteFlow(vid, s, flows[s]) ==> Owned(vid, t, s) || (s == DropSlot(vid) && !HasDefault(t))
    requires Housekept(vid, flows) && Tagged(flows) && (vid == 0 ==> SharedFlows(flows))
    ensures FlowsOk(vid, t, flows)
  {
    hide Carries, HasDefault, DropSlot, RouteFlow, Owned, Housekept, Tagged, RouteSlot;
  }

  lemma RouteRemains(vid: nat, t: Routes, flows: FlowTable, id: Option<nat>, k: Net)
    requires SmallIds(t) && FlowsOk(vid, t, flows) && k in RoutesWithout(t, id)
    ensures k in t && RoutesWithout(t, id)[k] == t[k]
    ensures RouteSlot(vid, t[k]) in FlowsWithout(vid, id, flows)
    ensures Carries(vid, t[k], FlowsWithout(vid, id, flows)[RouteSlot(vid, t[k])])
  {
    RouteCookieRoundTrip(vid, t[k].id);
  }

  lemma DefaultDropped(vid: nat, t: Routes, flows: FlowTable, id: Option<nat>)
    requires SmallIds(t) && FlowsOk(vid, t, flows)
    ensures !HasDefault(RoutesWithout(t, id)) ==>
      DropSlot(vid) in FlowsWithout(vid, id, flows) && FlowsWithout(vid, id, flows)[DropSlot(vid)] == DropFlow(vid)
  {
    DefaultSlotTaken(vid, t, flows);
    if HasDefault(t) {
      RouteCookieRoundTrip(vid, t[DEFAULT_KEY].id);
      assert RouteSlot(vid, t[DEFAULT_KEY]) == DropSlot(vid);
    }
  }

  lemma WithoutKeeps(vid: nat, t: Routes, flows: FlowTable, id: Option<nat>)
    requires FlowsOk(vid, t, flows) && !(vid == 0 && id == Some(0))
    ensures Housekept(vid, FlowsWithout(vid, id, flows)) && Tagged(FlowsWithout(vid, id, flows))
    ensures vid == 0 ==> SharedFlows(FlowsWithout(vid, id, flows))
    ensures Others(vid, FlowsWithout(vid, id, flows)) == Others(vid, flows)
  {
    hide Agree;
    VlanCookieRoundTrip(vid);
  }

  lemma StillAccountedFor(vid: nat, t: Routes, nextId: nat, flows: FlowTable, id: Option<nat>, s: Slot)
    requires RoutesOk(t, nextId) && SmallIds(t) && FlowsOk(vid, t, flows) && !(vid == 0 && id == Some(0))
    requires s in FlowsWithout(vid, id, flows) && RouteFlow(vid, s, FlowsWithout(vid, id, flows)[s])
    ensures Owned(vid, RoutesWithout(t, id), s) || (s == DropSlot(vid) && !HasDefault(RoutesWithout(t, id)))
  {
    hide ApplyMask;
    VlanCookieRoundTrip(vid);
    if !Picked(vid, id, flows[s]) && Owned(vid, t, s) {
      var k :| k in t && s == RouteSlot(vid, t[k]);
      RouteCookieRoundTrip(vid, t[k].id);
      assert k in RoutesWithout(t, id);
    } else if Picked(vid, id, flows[s]) && HasDefault(t) {
      RouteCookieRoundTrip(vid, t[DEFAULT_KEY].id);
      assert RouteSlot(vid, t[DEFAULT_KEY]) == DropSlot(vid);
    }
  }

  // ---- the whole router ----

  function RoutesDeleted(vid: nat, s: State, id: Option<nat>): State {
    s.(routes := RoutesWithout(s.routes, id), flows := FlowsWithout(vid, id, s.flows))
  }

  /** In every order of the report, the flows of the attached networks stay exactly when the request is not for
      route 0. */
  lemma NetworkFlowsGo(vid: nat, flows: FlowTable, id: Option<nat>, list: seq<Slot>)
    requires Housekept(vid, flows) && Picks(vid, id, flows, list)
    ensures forall s :: s in flows && NetworkFlow(vid, flows[s]) ==>
      && (s in FlowsAfter(vid, flows, list) <==> id != Some(0))
      && (id != Some(0) ==> FlowsAfter(vid, flows, list)[s] == flows[s])
  {
    hide FlowsAfter;
    PickedGo(vid, id, flows, list);
  }

  /** In every order of the report, a request for route 0 of VLAN 0 leaves none of the shared flows. */
  lemma SharedFlowsGo(flows: FlowTable, list: seq<Slot>)
    requires SharedFlows(flows) && Picks(0, Some(0), flows, list)
    ensures ARP_SLOT !in FlowsAfter(0, flows, list) && NORMAL_SLOT !in FlowsAfter(0, flows, list)
  {
    hide FlowsAfter;
    PickedGo(0, Some(0), flows, list);
  }

  lemma OtherVlansStay(vid: nat, flows: FlowTable, id: Option<nat>, list: seq<Slot>)
    requires Tagged(flows) && Picks(vid, id, flows, list)
    ensures Others(vid, FlowsAfter(vid, flows, list)) == Others(vid, flows)
  {
    hide FlowsAfter;
    PickedGo(vid, id, flows, list);
  }

  /** In every order of the report, a request to delete routes keeps the router in order exactly when it is not
      for route 0 of VLAN 0 or of a VLAN with attached networks. */
  lemma DeleteRoutesStep(vid: nat, s: State, id: Option<nat>, list: seq<Slot>)
    requires RouterOk(vid, s) && Picks(vid, id, s.flows, list)
    ensures RoutesAfter(s.routes, s.flows, list) == RoutesWithout(s.routes, id)
    ensures Others(vid, FlowsAfter(vid, s.flows, list)) == Others(vid, s.flows)
    ensures !(vid == 0 && id == Some(0)) ==> FlowsAfter(vid, s.flows, list) == FlowsWithout(vid, id, s.flows)
    ensures RouterOk(vid, s.(routes := RoutesWithout(s.routes, id), flows := FlowsAfter(vid, s.flows, list)))
      <==> !(id == Some(0) && (vid == 0 || s.addresses != map[]))
  {
    hide Agree, Housekept, Tagged, TableOk, Others, FlowsAfter, FlowsWithout, NetworksOk, Picked, SharedFlows;
    TablesOk(vid, s);
    DeletedRoutes(vid, s.routes, s.flows, id, list);
    OtherVlansStay(vid, s.flows, id, list);
    if vid == 0 && id == Some(0) {
      SharedFlowsGo(s.flows, list);
      NoShared(FlowsAfter(vid, s.flows, list));
    } else {
      DeletionRun(vid, s.routes, s.routeId, s.flows, id, list);
      WithoutAgrees(vid, s.routes, s.routeId, s.flows, id);
      NetworksAfter(vid, s.addresses, s.addressId, s.flows, id, list);
      FewerRoutes(s.addresses, s.routes, s.routeId, id);
    }
  }

  lemma NoShared(flows: FlowTable)
    requires ARP_SLOT !in flows
    ensures !SharedFlows(flows)
  {
  }

  lemma FewerRoutes(addresses: Addresses, routes: Routes, routeId: nat, id: Option<nat>)
    requires RoutesOk(routes, routeId) && GatewaysOk(addresses, routes)
    ensures RoutesOk(RoutesWithout(routes, id), routeId) && GatewaysOk(addresses, RoutesWithout(routes, id))
  {
    hide RouteOk, Usable;
  }

  lemma NetworksAfter(vid: nat, addresses: Addresses, addressId: nat, flows: FlowTable, id: Option<nat>, list: seq<Slot>)
    requires TableOk(addresses, addressId) && addressId <= MAX_ID + 1
    requires NetworksOk(vid, addresses, flows) && Housekept(vid, flows) && Picks(vid, id, flows, list)
    ensures NetworksOk(vid, addresses, FlowsAfter(vid, flows, list)) <==> id != Some(0) || addresses == map[]
  {
    hide FlowsAfter, Attributed, MacLearningSlot, IpHandlingSlot, SwitchingSlot, Apart, EntryOk, Picked, DropSlot;
    NetworkFlowsGo(vid, flows, id, list);
    NothingNew(vid, flows, id, list);
    forall k | k in addresses ensures NetworkFlow(vid, Flow(AddressCookie(vid, addresses[k].id), Controller)) {
      AddressCookieRoundTrip(vid, addresses[k].id);
    }
    if id != Some(0) {
      forall k | k in addresses ensures HasFlows(vid, addresses[k], FlowsAfter(vid, flows, list)) {
        assert HasFlows(vid, addresses[k], flows);
        AddressCookieRoundTrip(vid, addresses[k].id);
      }
    } else if addresses != map[] {
      var k := SomeElement(addresses.Keys);
      assert HasFlows(vid, addresses[k], flows);
      AddressCookieRoundTrip(vid, addresses[k].id);
      assert !HasFlows(vid, addresses[k], FlowsAfter(vid, flows, list));
    }
  }

  /** No flow of a network's is new. */
  lemma NothingNew(vid: nat, flows: FlowTable, id: Option<nat>, list: seq<Slot>)
    requires Picks(vid, id, flows, list)
    ensures var after := FlowsAfter(vid, flows, list);
      forall s :: s in after && NetworkFlow(vid, after[s]) ==> s in flows && flows[s] == after[s]
  {
    VlanCookieRoundTrip(vid);
    hide FlowsAfter;
    PickedGo(vid, id, flows, list);
    DefaultSlotValue(vid, flows, list);
  }

  lemma {:induction false} DefaultSlotValue(vid: nat, flows: FlowTable, list: seq<Slot>)
    requires forall s :: s in list ==> s in flows
    ensures var after := FlowsAfter(vid, flows, list);
      DropSlot(vid) in after ==>
        || after[DropSlot(vid)] == DropFlow(vid)
        || (DropSlot(vid) in flows && after[DropSlot(vid)] == flows[DropSlot(vid)])
    decreases |list|
  {
    hide DropSlot, DropFlow;
    if list != [] {
      TakeNext(list, |list| - 1);
      DefaultSlotValue(vid, flows, list[..|list| - 1]);
    }
  }

  // ---- route 0 of VLAN 0 ----

  /** Once the flow for ARP is treated, which has the priority of a default route, the slot of the default
      route can only hold the drop flow. */
  lemma {:induction false} ArpOverwrites(flows: FlowTable, list: seq<Slot>)
    requires ARP_SLOT in list && forall s :: s in list ==> s in flows
    ensures var after := FlowsAfter(0, flows, list); DropSlot(0) in after ==> after[DropSlot(0)].cookie == 0
    decreases |list|
  {
    var n := |list| - 1;
    TakeNext(list, n);
    if list[n] != ARP_SLOT {
      ArpOverwrites(flows, list[..n]);
    }
  }

  /** A request for route 0 of VLAN 0 picks the shared flows too. When the switch reports the flow for
      normal switching last, neither a drop flow nor a default route's flow is left. */
  lemma RouteZero(t: Routes, flows: FlowTable, list: seq<Slot>)
    requires SharedFlows(flows) && Picks(0, Some(0), flows, list)
    requires list != [] && list[|list| - 1] == NORMAL_SLOT
    ensures !Agree(0, t, FlowsAfter(0, flows, list))
  {
    var n := |list| - 1;
    TakeNext(list, n);
    assert ARP_SLOT in list;
    ArpOverwrites(flows, list[..n]);
    assert DropSlot(0) !in FlowsAfter(0, flows, list);
  }

  /** A request to delete routes keeps switch and table in agreement in every order of the report exactly
      when it is not the one for route 0 of VLAN 0. */
  lemma DeletionAgrees(vid: nat, s: State, id: Option<nat>)
    requires RouterOk(vid, s)
    ensures (forall list: seq<Slot> | Picks(vid, id, s.flows, list) ::
              Agree(vid, RoutesWithout(s.routes, id), FlowsAfter(vid, s.flows, list)))
      <==> !(vid == 0 && id == Some(0))
  {
    hide FlowsAfter, FlowsWithout, Agree, NetworksOk, RoutesWithout;
    TablesOk(vid, s);
    if vid == 0 && id == Some(0) {
      var picked := set x | x in s.flows && Picked(0, id, s.flows[x]) && x != NORMAL_SLOT;
      var others := Ordered(picked);
      var list := others + [NORMAL_SLOT];
      RouteZero(RoutesWithout(s.routes, id), s.flows, list);
      assert Picks(vid, id, s.flows, list);
    } else {
      WithoutAgrees(vid, s.routes, s.routeId, s.flows, id);
      ItAgrees(vid, RoutesWithout(s.routes, id), FlowsWithout(vid, id, s.flows));
      forall list: seq<Slot> | Picks(vid, id, s.flows, list)
        ensures Agree(vid, RoutesWithout(s.routes, id), FlowsAfter(vid, s.flows, list))
      {
        DeletionRun(vid, s.routes, s.routeId, s.flows, id, list);
      }
    }
  }
}
