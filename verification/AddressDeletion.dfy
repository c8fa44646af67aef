/** Deleting attached networks by walking over the flows that the switch reports, _delete_address_data. */
module AddressDeletion {
  import opened Options
  import opened Seqs
  import opened Ipv4
  import opened AddressTable
  import opened RouteTable
  import opened FlowTables
  import opened FlowSteps
  import opened VlanFlows
  import opened RouterSteps

  /** The network with this id contains the gateway. */
  ghost predicate RelatedBy(addresses: Addresses, gateway: Ip, id: nat) {
    exists k :: k in addresses && k.1 <= 32 && InNet(gateway, k) && addresses[k].id == id
  }

  /** The network with this id contains the gateway of a route. */
  ghost predicate Related(addresses: Addresses, routes: Routes, id: nat) {
    exists r :: r in routes && RelatedBy(addresses, routes[r].gateway, id)
  }

  lemma FoundIsRelated(addresses: Addresses, addressId: nat, gateway: Ip, r: Option<Address>)
    requires TableOk(addresses, addressId) && Finds(addresses, gateway, r)
    ensures forall id :: RelatedBy(addresses, gateway, id) <==> r.Some? && r.value.id == id
  {
    hide InNet;
    forall id | RelatedBy(addresses, gateway, id) ensures r.Some? && r.value.id == id {
      var k :| k in addresses && k.1 <= 32 && InNet(gateway, k) && addresses[k].id == id;
      AtMostOne(addresses, addressId, gateway, k, NetOf(r.value));
    }
  }

  /** The ids that a request leaves out, _chk_addr_relation_route */
  ghost predicate Skips(addresses: Addresses, routes: Routes, id: Option<nat>, skip: set<nat>) {
    forall x :: x in skip <==> Related(addresses, routes, x) && (id.Some? ==> x == id.value)
  }

  /** The cookies that a request picks: those of all addresses, or those with this id in their low word */
  predicate Chosen(vid: nat, id: Option<nat>, skip: set<nat>, cookie: nat) {
    && VlanOf(cookie) == vid && AddressOf(cookie) !in skip
    && (if id.Some? then AddressOf(cookie) == id.value else 0 < AddressOf(cookie) <= MAX_ID)
  }

  function KeptFlows(vid: nat, id: Option<nat>, skip: set<nat>, flows: FlowTable): FlowTable {
    map s | s in flows && !Chosen(vid, id, skip, flows[s].cookie) :: flows[s]
  }

  /** In numbers: exactly the flows go whose cookie has the VLAN in its high word and in its low word the id asked for,
      or one of 1 to 65535 when all networks are, unless that id is left out. */
  ghost predicate Unattached(vid: nat, id: Option<nat>, skip: set<nat>, flows: FlowTable, flows': FlowTable) {
    && (forall s :: s in flows' ==> s in flows && flows'[s] == flows[s])
    && forall s :: s in flows ==>
      var (high, low) := (flows[s].cookie / 0x1_0000_0000, flows[s].cookie % 0x1_0000_0000);
      s !in flows' <==> high == vid && low !in skip && (if id.Some? then low == id.value else 1 <= low <= 0xffff)
  }

  lemma KeptAreUnattached(vid: nat, id: Option<nat>, skip: set<nat>, flows: FlowTable)
    ensures Unattached(vid, id, skip, flows, KeptFlows(vid, id, skip, flows))
  {
  }

  /** The networks that stay: those left out, and those with another id */
  function KeptAddresses(id: Option<nat>, skip: set<nat>, addresses: Addresses): Addresses {
    map k | k in addresses && (addresses[k].id in skip || (id.Some? && addresses[k].id != id.value)) :: addresses[k]
  }

  function AddressesDeleted(vid: nat, s: State, id: Option<nat>, skip: set<nat>): State {
    s.(addresses := KeptAddresses(id, skip, s.addresses), flows := KeptFlows(vid, id, skip, s.flows))
  }

  /** An id that is no alias of another flow's cookie: not the VLAN's own id 0, which the drop flow has and on
      VLAN 0 the shared flows, and not a route's id shifted into the place of an address's */
  ghost predicate NoAlias(vid: nat, routes: Routes, id: nat) {
    (id == 0 ==> vid != 0 && HasDefault(routes)) && (forall k :: k in routes ==> id != routes[k].id * SHIFT_ROUTEID)
  }

  /** No route loses the network of its gateway. */
  lemma RelatedStay(addresses: Addresses, addressId: nat, routes: Routes, id: Option<nat>, skip: set<nat>)
    requires TableOk(addresses, addressId) && GatewaysOk(addresses, routes) && Skips(addresses, routes, id, skip)
    ensures TableOk(KeptAddresses(id, skip, addresses), addressId)
    ensures GatewaysOk(KeptAddresses(id, skip, addresses), routes)
  {
    hide ApplyMask, InNet, Apart, EntryOk, Related;
    forall r | r in routes ensures Usable(KeptAddresses(id, skip, addresses), routes[r].gateway) {
      StaysUsable(addresses, routes, id, skip, r);
    }
  }

  lemma StaysUsable(addresses: Addresses, routes: Routes, id: Option<nat>, skip: set<nat>, r: Net)
    requires GatewaysOk(addresses, routes) && Skips(addresses, routes, id, skip) && r in routes
    ensures Usable(KeptAddresses(id, skip, addresses), routes[r].gateway)
  {
    hide InNet;
    assert Usable(addresses, routes[r].gateway);
    var k :| k in addresses && k.1 <= 32 && InNet(routes[r].gateway, k) && addresses[k].gw != routes[r].gateway;
    assert RelatedBy(addresses, routes[r].gateway, addresses[k].id);
    assert Related(addresses, routes, addresses[k].id);
    assert k in KeptAddresses(id, skip, addresses);
  }

  /** The flows picked include a route flow, or one that all VLANs share, exactly when the id is an alias. */
  lemma PickedRouteFlows(vid: nat, routes: Routes, flows: FlowTable, id: Option<nat>, skip: set<nat>)
    requires Agree(vid, routes, flows) && SmallIds(routes) && (vid == 0 ==> SharedFlows(flows))
    requires forall x :: x in skip ==> 1 <= x <= MAX_ID
    ensures (&& (forall s :: s in flows && Chosen(vid, id, skip, flows[s].cookie) ==> !RouteFlow(vid, s, flows[s]))
             && (vid == 0 ==> !Chosen(vid, id, skip, 0)))
      <==> (id.Some? ==> NoAlias(vid, routes, id.value))
  {
    VlanCookieRoundTrip(vid);
    forall k | k in routes
      ensures var f := flows[RouteSlot(vid, routes[k])];
        && RouteFlow(vid, RouteSlot(vid, routes[k]), f)
        && VlanOf(f.cookie) == vid && AddressOf(f.cookie) == routes[k].id * SHIFT_ROUTEID > MAX_ID
    {
      RouteCookieRoundTrip(vid, routes[k].id);
    }
    if id.Some? && !NoAlias(vid, routes, id.value) {
      if id.value == 0 && vid != 0 && !HasDefault(routes) {
        assert Chosen(vid, id, skip, flows[DropSlot(vid)].cookie);
      } else if id.value == 0 && vid == 0 {
        assert Chosen(vid, id, skip, 0);
      } else {
        var k :| k in routes && id.value == routes[k].id * SHIFT_ROUTEID;
        assert Chosen(vid, id, skip, flows[RouteSlot(vid, routes[k])].cookie);
      }
    }
  }

  /** A request to delete networks keeps the router in order exactly when the id is no alias. Networks with
      the gateway of a route are never deleted. */
  lemma DeleteAddressStep(vid: nat, s: State, id: Option<nat>, skip: set<nat>)
    requires RouterOk(vid, s) && Skips(s.addresses, s.routes, id, skip)
    ensures RouterOk(vid, AddressesDeleted(vid, s, id, skip)) <==> (id.Some? ==> NoAlias(vid, s.routes, id.value))
    ensures Others(vid, KeptFlows(vid, id, skip, s.flows)) == Others(vid, s.flows)
  {
    hide Agree, Housekept, Tagged, Others, KeptAddresses, RouteFlow, GatewaysOk, TableOk, RoutesOk;
    hide NoAlias, NetworksOk, SharedFlows, Chosen, Skips;
    TablesOk(vid, s);
    RelatedStay(s.addresses, s.addressId, s.routes, id, skip);
    SkippedIds(s.addresses, s.addressId, s.routes, id, skip);
    PickedRouteFlows(vid, s.routes, s.flows, id, skip);
    OthersKept(vid, id, skip, s.flows);
    SharedKept(vid, id, skip, s.flows);
    NetworksKept(vid, s.addresses, s.addressId, s.flows, id, skip);
    var gone := set x | x in s.flows && Chosen(vid, id, skip, s.flows[x].cookie) :: s.flows[x].cookie;
    assert KeptFlows(vid, id, skip, s.flows) == DeleteByCookies(s.flows, gone);
    DeleteOtherStep(vid, s.routes, s.flows, gone);
  }

  lemma OthersKept(vid: nat, id: Option<nat>, skip: set<nat>, flows: FlowTable)
    requires Housekept(vid, flows) && Tagged(flows)
    ensures Housekept(vid, KeptFlows(vid, id, skip, flows)) && Tagged(KeptFlows(vid, id, skip, flows))
    ensures Others(vid, KeptFlows(vid, id, skip, flows)) == Others(vid, flows)
  {
  }

  lemma SharedKept(vid: nat, id: Option<nat>, skip: set<nat>, flows: FlowTable)
    requires vid == 0 ==> SharedFlows(flows)
    ensures vid == 0 ==> (SharedFlows(KeptFlows(vid, id, skip, flows)) <==> !Chosen(vid, id, skip, 0))
  {
  }

  /** The networks that stay keep their flows, and no flow of the others is left. */
  lemma NetworksKept(vid: nat, addresses: Addresses, addressId: nat, flows: FlowTable, id: Option<nat>, skip: set<nat>)
    requires TableOk(addresses, addressId) && addressId <= MAX_ID + 1 && NetworksOk(vid, addresses, flows)
    ensures NetworksOk(vid, KeptAddresses(id, skip, addresses), KeptFlows(vid, id, skip, flows))
  {
    hide MacLearningSlot, IpHandlingSlot, SwitchingSlot, OfNetwork, Apart, EntryOk;
    var kept, flows' := KeptAddresses(id, skip, addresses), KeptFlows(vid, id, skip, flows);
    forall k | k in kept ensures HasFlows(vid, kept[k], flows') {
      AddressCookieRoundTrip(vid, addresses[k].id);
    }
    forall s | s in flows' && NetworkFlow(vid, flows'[s]) ensures Attributed(vid, kept, s, flows'[s]) {
      assert Attributed(vid, addresses, s, flows[s]);
      var k :| k in addresses && addresses[k].id == AddressOf(flows[s].cookie) && OfNetwork(vid, addresses[k], s, flows[s]);
      assert k in kept;
    }
  }

  lemma SkippedIds(addresses: Addresses, addressId: nat, routes: Routes, id: Option<nat>, skip: set<nat>)
    requires TableOk(addresses, addressId) && addressId <= MAX_ID + 1 && Skips(addresses, routes, id, skip)
    ensures forall x :: x in skip ==> 1 <= x <= MAX_ID
  {
  }

  // ---- the loop over the picked flows ----

  /** The picked flows of a report, in its order */
  function ChosenOf(vid: nat, id: Option<nat>, skip: set<nat>, report: seq<Slot>, flows: FlowTable): (list: seq<Slot>)
    requires forall s :: s in report ==> s in flows
    ensures forall s :: s in list ==> s in flows
  {
    if report == [] then [] else
      var n := |report| - 1;
      var before := ChosenOf(vid, id, skip, report[..n], flows);
      if Chosen(vid, id, skip, flows[report[n]].cookie) then before + [report[n]] else before
  }

  lemma {:induction false} ChosenOfChooses(vid: nat, id: Option<nat>, skip: set<nat>, report: seq<Slot>, flows: FlowTable)
    requires forall s :: s in report ==> s in flows
    ensures forall s :: s in ChosenOf(vid, id, skip, report, flows) <==> s in report && Chosen(vid, id, skip, flows[s].cookie)
  {
    hide Chosen;
    if report != [] {
      TakeNext(report, |report| - 1);
      ChosenOfChooses(vid, id, skip, report[..|report| - 1], flows);
    }
  }

  ghost predicate Chooses(vid: nat, id: Option<nat>, skip: set<nat>, flows: FlowTable, list: seq<Slot>) {
    forall s :: s in list <==> s in flows && Chosen(vid, id, skip, flows[s].cookie)
  }

  /** A picked flow has the network's id. */
  ghost predicate Reached(vid: nat, id: Option<nat>, skip: set<nat>, flows: FlowTable, x: nat) {
    exists s :: s in flows && Chosen(vid, id, skip, flows[s].cookie) && AddressOf(flows[s].cookie) == x
  }

  /** The networks that the loop leaves, whatever flows the switch has */
  ghost function Unreached(vid: nat, id: Option<nat>, skip: set<nat>, addresses: Addresses, flows: FlowTable): Addresses {
    map k | k in addresses && !Reached(vid, id, skip, flows, addresses[k].id) :: addresses[k]
  }

  ghost predicate HasCookie(vid: nat, flows: FlowTable, id: nat) {
    exists s :: s in flows && flows[s].cookie == AddressCookie(vid, id)
  }

  /** Whatever flows the switch has, the networks that go are those asked for and not left out that have a flow
      with their cookie on the switch. */
  lemma GoesWithItsFlow(vid: nat, id: Option<nat>, skip: set<nat>, addresses: Addresses, addressId: nat, flows: FlowTable, k: Net)
    requires TableOk(addresses, addressId) && addressId <= MAX_ID + 1 && k in addresses
    ensures k in Unreached(vid, id, skip, addresses, flows) <==>
      || addresses[k].id in skip || (id.Some? && id.value != addresses[k].id)
      || !HasCookie(vid, flows, addresses[k].id)
  {
    hide Apart, EntryOk;
    var x := addresses[k].id;
    AddressCookieRoundTrip(vid, x);
    if HasCookie(vid, flows, x) && x !in skip && (id.Some? ==> id.value == x) {
      var s :| s in flows && flows[s].cookie == AddressCookie(vid, x);
      assert Chosen(vid, id, skip, flows[s].cookie);
    }
    if Reached(vid, id, skip, flows, x) {
      var s :| s in flows && Chosen(vid, id, skip, flows[s].cookie) && AddressOf(flows[s].cookie) == x;
      assert flows[s].cookie == AddressCookie(vid, x);
    }
  }

  /** On a router in order all networks have their flows, so that all go that are asked for. */
  lemma UnreachedAreKept(vid: nat, id: Option<nat>, skip: set<nat>, addresses: Addresses, addressId: nat, flows: FlowTable)
    requires TableOk(addresses, addressId) && addressId <= MAX_ID + 1 && NetworksOk(vid, addresses, flows)
    ensures Unreached(vid, id, skip, addresses, flows) == KeptAddresses(id, skip, addresses)
  {
    hide Apart, EntryOk, Attributed, MacLearningSlot, IpHandlingSlot, SwitchingSlot, Reached;
    forall k | k in addresses
      ensures k in Unreached(vid, id, skip, addresses, flows) <==> k in KeptAddresses(id, skip, addresses)
    {
      GoesWithItsFlow(vid, id, skip, addresses, addressId, flows, k);
      assert HasFlows(vid, addresses[k], flows);
    }
  }

  ghost function AddressesLeft(vid: nat, addresses: Addresses, gone: set<nat>): Addresses {
    map k | k in addresses && AddressCookie(vid, addresses[k].id) !in gone :: addresses[k]
  }

  lemma NothingGone(vid: nat, addresses: Addresses, flows: FlowTable)
    ensures AddressesLeft(vid, addresses, {}) == addresses && DeleteByCookies(flows, {}) == flows
  {
  }

  lemma OneMoreGone(vid: nat, addresses: Addresses, addressId: nat, flows: FlowTable, id: Option<nat>, skip: set<nat>,
                    gone: set<nat>, cookie: nat)
    requires TableOk(addresses, addressId) && addressId <= MAX_ID + 1 && Chosen(vid, id, skip, cookie)
    ensures DeleteByCookies(flows, gone + {cookie}) == DeleteByCookie(DeleteByCookies(flows, gone), cookie)
    ensures var left := AddressesLeft(vid, addresses, gone);
      AddressesLeft(vid, addresses, gone + {cookie}) == map k | k in left && left[k].id != AddressOf(cookie) :: left[k]
  {
    hide Apart, EntryOk;
    forall k | k in addresses ensures AddressCookie(vid, addresses[k].id) == cookie <==> addresses[k].id == AddressOf(cookie) {
      AddressCookieRoundTrip(vid, addresses[k].id);
    }
  }

  lemma AllGone(vid: nat, addresses: Addresses, addressId: nat, flows: FlowTable, id: Option<nat>, skip: set<nat>,
                list: seq<Slot>, gone: set<nat>)
    requires TableOk(addresses, addressId) && addressId <= MAX_ID + 1 && Chooses(vid, id, skip, flows, list)
    requires forall c :: c in gone <==> exists s :: s in list && flows[s].cookie == c
    ensures DeleteByCookies(flows, gone) == KeptFlows(vid, id, skip, flows)
    ensures AddressesLeft(vid, addresses, gone) == Unreached(vid, id, skip, addresses, flows)
  {
    hide Apart, EntryOk;
    forall k | k in addresses
      ensures AddressCookie(vid, addresses[k].id) in gone <==> Reached(vid, id, skip, flows, addresses[k].id)
    {
      GoneIsReached(vid, addresses[k].id, flows, id, skip, list, gone);
    }
  }

  lemma GoneIsReached(vid: nat, x: nat, flows: FlowTable, id: Option<nat>, skip: set<nat>, list: seq<Slot>, gone: set<nat>)
    requires x <= MAX_ID && Chooses(vid, id, skip, flows, list)
    requires forall c :: c in gone <==> exists s :: s in list && flows[s].cookie == c
    ensures AddressCookie(vid, x) in gone <==> Reached(vid, id, skip, flows, x)
  {
    AddressCookieRoundTrip(vid, x);
    if Reached(vid, id, skip, flows, x) {
      var s :| s in flows && Chosen(vid, id, skip, flows[s].cookie) && AddressOf(flows[s].cookie) == x;
      assert s in list && flows[s].cookie == AddressCookie(vid, x);
    }
  }

  // ---- the order in which networks go ----

  ghost function NetWithId(addresses: Addresses, id: nat): (r: Option<Net>)
    ensures r.None? ==> forall k :: k in addresses ==> addresses[k].id != id
    ensures r.Some? ==> r.value in addresses && addresses[r.value].id == id
  {
    if k :| k in addresses && addresses[k].id == id then Some(k) else None
  }

  /** The networks that the loop deletes, in its order */
  ghost function DroppedNets(addresses: Addresses, flows: FlowTable, list: seq<Slot>): (nets: seq<Net>)
    requires forall s :: s in list ==> s in flows
    ensures forall k :: k in nets ==> k in addresses
    decreases |list|
  {
    if list == [] then [] else
      var n := |list| - 1;
      var before := DroppedNets(addresses, flows, list[..n]);
      var k := NetWithId(addresses, AddressOf(flows[list[n]].cookie));
      if k.Some? && k.value !in before then before + [k.value] else before
  }

  lemma {:induction false} DroppedIs(addresses: Addresses, addressId: nat, flows: FlowTable, list: seq<Slot>, k: Net)
    requires TableOk(addresses, addressId) && k in addresses && forall s :: s in list ==> s in flows
    ensures k in DroppedNets(addresses, flows, list) <==> exists s :: s in list && AddressOf(flows[s].cookie) == addresses[k].id
    decreases |list|
  {
    hide Apart, EntryOk, AddressOf;
    if list != [] {
      var n := |list| - 1;
      TakeNext(list, n);
      DroppedIs(addresses, addressId, flows, list[..n], k);
      assert list[n] in list;
    }
  }

  /** The next flow deletes a network exactly when one with its id is left. */
  lemma DroppedNext(addresses: Addresses, addressId: nat, left: Addresses, flows: FlowTable, list: seq<Slot>, i: nat, r: Option<Net>)
    requires TableOk(addresses, addressId) && i < |list| && forall s :: s in list ==> s in flows
    requires forall k :: k in left ==> k in addresses && left[k] == addresses[k]
    requires forall k :: k in DroppedNets(addresses, flows, list[..i]) <==> k in addresses && k !in left
    requires r.None? ==> forall k :: k in left ==> left[k].id != AddressOf(flows[list[i]].cookie)
    requires r.Some? ==> r.value in left && left[r.value].id == AddressOf(flows[list[i]].cookie)
    ensures DroppedNets(addresses, flows, list[..i + 1])
      == DroppedNets(addresses, flows, list[..i]) + if r.Some? then [r.value] else []
    ensures forall k :: k in DroppedNets(addresses, flows, list[..i + 1]) <==>
      k in addresses && !(k in left && left[k].id != AddressOf(flows[list[i]].cookie))
  {
    hide Apart, EntryOk;
    TakeNext(list, i);
    assert list[..i + 1][..i] == list[..i];
    var k := NetWithId(addresses, AddressOf(flows[list[i]].cookie));
    assert r.Some? ==> k == r;
  }

  /** The networks deleted are those that the loop does not leave. */
  lemma DroppedAreGone(vid: nat, id: Option<nat>, skip: set<nat>, addresses: Addresses, addressId: nat, flows: FlowTable, list: seq<Slot>)
    requires TableOk(addresses, addressId) && Chooses(vid, id, skip, flows, list)
    ensures forall k :: k in DroppedNets(addresses, flows, list) <==> k in addresses && k !in Unreached(vid, id, skip, addresses, flows)
  {
    hide Apart, EntryOk, Chosen, DroppedNets;
    forall k | k in addresses
      ensures k in DroppedNets(addresses, flows, list) <==> k !in Unreached(vid, id, skip, addresses, flows)
    {
      DroppedIs(addresses, addressId, flows, list, k);
    }
  }
}
