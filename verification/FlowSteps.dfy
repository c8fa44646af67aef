/** What each kind of flow modification does to the agreement of the switch with the routing table. */
module FlowSteps {
  import opened Options
  import opened Ipv4
  import opened RouteTable
  import opened FlowTables

  /** Routes have different slots. */
  lemma SlotsDiffer(vid: nat, t: Routes, nextId: nat, j: Net, k: Net)
    requires RoutesOk(t, nextId) && j in t && k in t && RouteSlot(vid, t[j]) == RouteSlot(vid, t[k])
    ensures j == k
  {
    assert RouteOk(j, t[j]) && RouteOk(k, t[k]);
  }

  /** Adding a route with its packet-in flow. The switch goes on agreeing with the table unless a route
      of length 0 that is not written as the default route replaces the default route in the table: the
      default route's flow is then left behind. */
  lemma AddRouteStep(vid: nat, t: Routes, flows: FlowTable, nextId: nat, r: Route)
    requires RoutesOk(t, nextId) && SmallIds(t) && Agree(vid, t, flows)
    requires r.id == nextId <= 0xffff && RouteOk(KeyOf(r), r) && r.gatewayMac.None?
    requires r.dst.None? ==> KeyOf(r) !in t
    ensures Agree(vid, t[KeyOf(r) := r], flows[RouteSlot(vid, r) := Flow(RouteCookie(vid, r.id), Controller)])
      <==> !(r.dst.Some? && KeyOf(r) == DEFAULT_KEY && HasDefault(t))
  {
    hide ApplyMask;
    var t', f := t[KeyOf(r) := r], Flow(RouteCookie(vid, r.id), Controller);
    var flows' := flows[RouteSlot(vid, r) := f];
    if r.dst.Some? && KeyOf(r) == DEFAULT_KEY && HasDefault(t) {
      assert flows'[DropSlot(vid)] == flows[RouteSlot(vid, t[DEFAULT_KEY])];
      assert !HasDefault(t');
    } else {
      forall k | k in t'
        ensures RouteSlot(vid, t'[k]) in flows' && Carries(vid, t'[k], flows'[RouteSlot(vid, t'[k])])
      {
        if k != KeyOf(r) {
          assert RouteOk(k, t[k]);
        }
      }
      forall s | s in flows' && RouteFlow(vid, s, flows'[s])
        ensures Owned(vid, t', s) || (s == DropSlot(vid) && !HasDefault(t'))
      {
        if s == RouteSlot(vid, r) {
          assert s == RouteSlot(vid, t'[KeyOf(r)]);
        } else if Owned(vid, t, s) {
          StillOwned(vid, t, nextId, r, s);
        }
      }
    }
  }

  lemma StillOwned(vid: nat, t: Routes, nextId: nat, r: Route, s: Slot)
    requires RoutesOk(t, nextId) && RouteOk(KeyOf(r), r) && Owned(vid, t, s) && s != RouteSlot(vid, r)
    requires !(r.dst.Some? && KeyOf(r) == DEFAULT_KEY && HasDefault(t))
    requires r.dst.None? ==> KeyOf(r) !in t
    ensures Owned(vid, t[KeyOf(r) := r], s)
  {
    hide ApplyMask;
    var k :| k in t && s == RouteSlot(vid, t[k]);
    assert RouteOk(k, t[k]);
    assert k != KeyOf(r);
    assert t[KeyOf(r) := r][k] == t[k];
  }

  /** Adding a flow that is not a route's, in a slot that is not a route's */
  lemma AddOtherStep(vid: nat, t: Routes, flows: FlowTable, s: Slot, f: Flow)
    requires Agree(vid, t, flows) && !RouteFlow(vid, s, f) && !Owned(vid, t, s) && s != DropSlot(vid)
    ensures Agree(vid, t, flows[s := f])
  {
    forall k | k in t ensures RouteSlot(vid, t[k]) != s {
      assert Owned(vid, t, RouteSlot(vid, t[k]));
    }
  }

  function DeleteByCookies(flows: FlowTable, cookies: set<nat>): FlowTable {
    map s | s in flows && flows[s].cookie !in cookies :: flows[s]
  }

  /** Deleting the flows with some cookies leaves the table alone, so that the switch goes on agreeing with
      it exactly when none of them is a route flow. */
  lemma DeleteOtherStep(vid: nat, t: Routes, flows: FlowTable, cookies: set<nat>)
    requires Agree(vid, t, flows) && SmallIds(t)
    ensures Agree(vid, t, DeleteByCookies(flows, cookies))
      <==> forall s :: s in flows && flows[s].cookie in cookies ==> !RouteFlow(vid, s, flows[s])
  {
    var flows' := DeleteByCookies(flows, cookies);
    if Agree(vid, t, flows') {
      forall s | s in flows && flows[s].cookie in cookies ensures !RouteFlow(vid, s, flows[s]) {
        assert s !in flows';
      }
    }
    if forall s :: s in flows && flows[s].cookie in cookies ==> !RouteFlow(vid, s, flows[s]) {
      RouteFlowsAreFlows(vid, t, flows);
    }
  }

  lemma RouteFlowsAreFlows(vid: nat, t: Routes, flows: FlowTable)
    requires Agree(vid, t, flows)
    ensures forall k :: k in t && 1 <= t[k].id <= 0xffff ==> RouteFlow(vid, RouteSlot(vid, t[k]), flows[RouteSlot(vid, t[k])])
    ensures !HasDefault(t) ==> RouteFlow(vid, DropSlot(vid), flows[DropSlot(vid)])
  {
    forall k | k in t && 1 <= t[k].id <= 0xffff ensures RouteFlow(vid, RouteSlot(vid, t[k]), flows[RouteSlot(vid, t[k])]) {
      RouteCookieRoundTrip(vid, t[k].id);
    }
    VlanCookieRoundTrip(vid);
  }

  // ---- learning a gateway's MAC address ----

  /** The routes with a MAC address filled in for those through a gateway */
  function WithMac(t: Routes, gateway: Ip, mac: Mac): Routes {
    map k | k in t :: if t[k].gateway == gateway then t[k].(gatewayMac := Some(mac)) else t[k]
  }

  ghost predicate Learns(vid: nat, t: Routes, gateway: Ip, mac: Mac, k: Net, s: Slot) {
    k in t && t[k].gateway == gateway && t[k].gatewayMac != Some(mac) && s == RouteSlot(vid, t[k])
  }

  /** The slot is that of a route through the gateway, whose MAC address is news. */
  ghost predicate NewlyLearnt(vid: nat, t: Routes, gateway: Ip, mac: Mac, s: Slot) {
    exists k :: Learns(vid, t, gateway, mac, k, s)
  }

  /** The flows of those routes have the action, and all others are as they were. */
  ghost function LearntFlows(vid: nat, t: Routes, gateway: Ip, mac: Mac, action: Action, flows: FlowTable): FlowTable {
    map s | s in flows :: if NewlyLearnt(vid, t, gateway, mac, s) then Flow(flows[s].cookie, action) else flows[s]
  }

  /** Filling in the MAC address of a gateway, and replacing the flows of the routes for which it is news by
      forwarding ones, keeps the agreement. */
  lemma LearnMacStep(vid: nat, t: Routes, flows: FlowTable, nextId: nat, gateway: Ip, mac: Mac, port: int, srcMac: Mac)
    requires RoutesOk(t, nextId) && Agree(vid, t, flows)
    ensures RoutesOk(WithMac(t, gateway, mac), nextId)
    ensures Agree(vid, WithMac(t, gateway, mac), LearntFlows(vid, t, gateway, mac, Output(port, srcMac, mac), flows))
  {
    hide ApplyMask, RoutesOk, RouteFlow;
    RoutesStayOk(t, nextId, gateway, mac);
    var t', flows' := WithMac(t, gateway, mac), LearntFlows(vid, t, gateway, mac, Output(port, srcMac, mac), flows);
    forall k | k in t'
      ensures RouteSlot(vid, t'[k]) in flows' && Carries(vid, t'[k], flows'[RouteSlot(vid, t'[k])])
    {
      var s := RouteSlot(vid, t[k]);
      if NewlyLearnt(vid, t, gateway, mac, s) {
        var j :| Learns(vid, t, gateway, mac, j, s);
        SlotsDiffer(vid, t, nextId, j, k);
      } else {
        assert !Learns(vid, t, gateway, mac, k, s);
      }
    }
    forall s | s in flows' && RouteFlow(vid, s, flows'[s])
      ensures Owned(vid, t', s) || (s == DropSlot(vid) && !HasDefault(t'))
    {
      SameRouteFlow(vid, s, flows[s], flows'[s]);
      if Owned(vid, t, s) {
        var j :| j in t && s == RouteSlot(vid, t[j]);
        assert s == RouteSlot(vid, t'[j]);
      }
    }
  }

  /** Whose flow it is does not depend on its action. */
  lemma SameRouteFlow(vid: nat, s: Slot, f: Flow, f': Flow)
    requires f.cookie == f'.cookie
    ensures RouteFlow(vid, s, f) <==> RouteFlow(vid, s, f')
  {
  }

  lemma RoutesStayOk(t: Routes, nextId: nat, gateway: Ip, mac: Mac)
    requires RoutesOk(t, nextId)
    ensures RoutesOk(WithMac(t, gateway, mac), nextId)
  {
    hide ApplyMask;
    forall k | k in t ensures RouteOk(k, WithMac(t, gateway, mac)[k]) {
      assert RouteOk(k, t[k]);
    }
  }

  // ---- deleting routes ----

  function WithoutRoute(t: Routes, id: nat): Routes {
    map k | k in t && t[k].id != id :: t[k]
  }

  /** What _delete_routing_data does to the switch for one flow of its list */
  function DeleteRouteFlow(vid: nat, flows: FlowTable, s: Slot, cookie: nat): FlowTable {
    var rest := DeleteByCookie(flows, cookie);
    if s.1 == PRIORITY_DEFAULT_ROUTING + VlanShift(vid) then rest[DropSlot(vid) := DropFlow(vid)] else rest
  }

  /** A flow with a route's cookie is the flow of that route. */
  lemma RouteOfFlow(vid: nat, t: Routes, flows: FlowTable, s: Slot) returns (k: Net)
    requires SmallIds(t) && Agree(vid, t, flows)
    requires s in flows && VlanOf(flows[s].cookie) == vid && RouteOf(flows[s].cookie) != 0
    ensures k in t && s == RouteSlot(vid, t[k]) && RouteOf(flows[s].cookie) == t[k].id
    ensures flows[s].cookie == RouteCookie(vid, t[k].id)
  {
    VlanCookieRoundTrip(vid);
    assert Owned(vid, t, s);
    k :| k in t && s == RouteSlot(vid, t[k]);
    RouteCookieRoundTrip(vid, t[k].id);
  }
}
