/** The switch's flow table, cookies and priorities, and its agreement with the routing table. */
module FlowTables {
  import opened Bits
  import opened Options
  import opened Ipv4
  import opened RouteTable

  // ---- flows ----

  datatype EthType = EthIp | EthArp | AnyEth

  /** What a flow matches on; VLAN 0 and absent networks match anything. */
  datatype Match = Match(eth: EthType, vlan: nat, src: Option<Net>, dst: Option<Net>)

  datatype Action = Drop | Controller | Normal | Output(port: int, srcMac: Mac, dstMac: Mac)

  datatype Flow = Flow(cookie: nat, action: Action)

  /** A match with a priority. Adding a flow replaces the one with the same match and priority
      (OpenFlow 1.3, section 6.4). */
  type Slot = (Match, nat)
  type FlowTable = map<Slot, Flow>

  /** delete_flow for OpenFlow 1.3: every flow with the cookie */
  function DeleteByCookie(flows: FlowTable, cookie: nat): FlowTable {
    map s | s in flows && flows[s].cookie != cookie :: flows[s]
  }

  ghost predicate MatchesIp(m: Match, vlan: nat, src: Ip, dst: Ip) {
    && m.eth != EthArp
    && (m.vlan == 0 || m.vlan == vlan)
    && (m.src.Some? ==> m.src.value.1 <= 32 && InNet(src, m.src.value))
    && (m.dst.Some? ==> m.dst.value.1 <= 32 && InNet(dst, m.dst.value))
  }

  // ---- cookies ----

  const SHIFT_VLANID: nat := 0x1_0000_0000
  const SHIFT_ROUTEID: nat := 0x1_0000

  function VlanCookie(vid: nat): nat {
    vid * SHIFT_VLANID
  }

  function AddressCookie(vid: nat, id: nat): nat {
    vid * SHIFT_VLANID + id
  }

  function RouteCookie(vid: nat, id: nat): nat {
    vid * SHIFT_VLANID + id * SHIFT_ROUTEID
  }

  function VlanOf(cookie: nat): nat {
    cookie / SHIFT_VLANID
  }

  function AddressOf(cookie: nat): nat {
    cookie % SHIFT_VLANID
  }

  function RouteOf(cookie: nat): nat {
    cookie % SHIFT_VLANID / SHIFT_ROUTEID
  }

  /** The codings are the shifts and masks of _id_to_cookie and _cookie_to_id. */
  lemma CookiesAreShifts(vid: nat, id: nat, cookie: nat)
    ensures VlanCookie(vid) == Shl(vid, 32)
    ensures AddressCookie(vid, id) == Shl(vid, 32) + id
    ensures RouteCookie(vid, id) == Shl(vid, 32) + Shl(id, 16)
    ensures VlanOf(cookie) == Shr(cookie, 32)
    ensures AddressOf(cookie) == And(cookie, UINT32_MAX)
    ensures RouteOf(cookie) == Shr(And(cookie, UINT32_MAX), 16)
  {
    WordSize();
    assert Pow2(16) == 0x1_0000 by {
      assert Pow2(8) == 256;
      Pow2Add(8, 8);
    }
    ShrDivides(cookie, 32);
    AndLowMask(cookie, 32);
    ShrDivides(cookie % SHIFT_VLANID, 16);
  }

  /** A route's cookie gives back its VLAN and its id exactly when the id has at most 16 bits. */
  lemma RouteCookieRoundTrip(vid: nat, id: nat)
    ensures VlanOf(RouteCookie(vid, id)) == vid && RouteOf(RouteCookie(vid, id)) == id <==> id <= 0xffff
    ensures id <= 0xffff ==> AddressOf(RouteCookie(vid, id)) == id * SHIFT_ROUTEID
  {
    if id <= 0xffff {
      QuotientRemainder(RouteCookie(vid, id), SHIFT_VLANID, vid, id * SHIFT_ROUTEID);
    }
  }

  /** An address's cookie gives back its VLAN and its id exactly when the id has at most 32 bits, and it
      is not taken for a route's exactly when the id has at most 16. */
  lemma AddressCookieRoundTrip(vid: nat, id: nat)
    ensures VlanOf(AddressCookie(vid, id)) == vid && AddressOf(AddressCookie(vid, id)) == id <==> id <= UINT32_MAX
    ensures id <= UINT32_MAX ==> (RouteOf(AddressCookie(vid, id)) == 0 <==> id <= 0xffff)
  {
    if id <= UINT32_MAX {
      QuotientRemainder(AddressCookie(vid, id), SHIFT_VLANID, vid, id);
    }
  }

  lemma VlanCookieRoundTrip(vid: nat)
    ensures VlanOf(VlanCookie(vid)) == vid && AddressOf(VlanCookie(vid)) == RouteOf(VlanCookie(vid)) == 0
  {
    QuotientRemainder(VlanCookie(vid), SHIFT_VLANID, vid, 0);
  }

  // ---- priorities ----

  const PRIORITY_VLAN_SHIFT: nat := 1000
  const PRIORITY_NETMASK_SHIFT: nat := 32
  const PRIORITY_NORMAL: nat := 0
  const PRIORITY_ARP_HANDLING: nat := 1
  const PRIORITY_DEFAULT_ROUTING: nat := 1
  const PRIORITY_MAC_LEARNING: nat := 2
  const PRIORITY_STATIC_ROUTING: nat := 2
  const PRIORITY_IMPLICIT_ROUTING: nat := 3
  const PRIORITY_L2_SWITCHING: nat := 4
  const PRIORITY_IP_HANDLING: nat := 5

  function VlanShift(vid: nat): nat {
    if vid != 0 then PRIORITY_VLAN_SHIFT else 0
  }

  /** get_priority of a fixed type */
  function TypePriority(t: nat, vid: nat): nat {
    t + (if vid != 0 || t == PRIORITY_IP_HANDLING then PRIORITY_VLAN_SHIFT else 0)
      + (if t > PRIORITY_STATIC_ROUTING then PRIORITY_NETMASK_SHIFT else 0)
  }

  /** get_priority of a route */
  function RoutePriority(r: Route, vid: nat): nat {
    (if r.dst.Some? then PRIORITY_STATIC_ROUTING + r.len else PRIORITY_DEFAULT_ROUTING) + VlanShift(vid)
  }

  // ---- the flows that all VLANs share ----

  const ARP_SLOT: Slot := (Match(EthArp, 0, None, None), PRIORITY_ARP_HANDLING)
  const NORMAL_SLOT: Slot := (Match(AnyEth, 0, None, None), PRIORITY_NORMAL)

  /** The flows that the router sets up on a switch before those of any VLAN */
  predicate SharedFlows(flows: FlowTable) {
    && ARP_SLOT in flows && flows[ARP_SLOT] == Flow(0, Controller)
    && NORMAL_SLOT in flows && flows[NORMAL_SLOT] == Flow(0, Normal)
  }

  // ---- route flows ----

  function RouteMatch(vid: nat, r: Route): Match {
    Match(EthIp, vid, None, if r.dst.Some? then Some((r.dst.value, r.len)) else None)
  }

  function RouteSlot(vid: nat, r: Route): Slot {
    (RouteMatch(vid, r), RoutePriority(r, vid))
  }

  function DropSlot(vid: nat): Slot {
    (Match(EthIp, vid, None, None), PRIORITY_DEFAULT_ROUTING + VlanShift(vid))
  }

  function DropFlow(vid: nat): Flow {
    Flow(VlanCookie(vid), Drop)
  }

  /** By its cookie the flow belongs to a route of the VLAN, or is its drop flow. */
  predicate RouteFlow(vid: nat, s: Slot, f: Flow) {
    VlanOf(f.cookie) == vid && (RouteOf(f.cookie) != 0 || (AddressOf(f.cookie) == 0 && s.0.eth == EthIp))
  }

  /** The flow of a route hands packets to the controller until the gateway's MAC address is known, and
      then sends them to it. */
  predicate Carries(vid: nat, r: Route, f: Flow) {
    && f.cookie == RouteCookie(vid, r.id)
    && (r.gatewayMac.None? ==> f.action == Controller)
    && (r.gatewayMac.Some? ==> f.action.Output? && f.action.dstMac == r.gatewayMac.value)
  }

  predicate HasDefault(t: Routes) {
    DEFAULT_KEY in t && t[DEFAULT_KEY].dst.None?
  }

  ghost predicate Owned(vid: nat, t: Routes, s: Slot) {
    exists k :: k in t && s == RouteSlot(vid, t[k])
  }

  /** The route flows of a VLAN are those of the routes in its table, and the drop flow in place of a
      default route. */
  ghost predicate Agree(vid: nat, t: Routes, flows: FlowTable) {
    && (forall k :: k in t ==> RouteSlot(vid, t[k]) in flows && Carries(vid, t[k], flows[RouteSlot(vid, t[k])]))
    && (!HasDefault(t) ==> DropSlot(vid) in flows && flows[DropSlot(vid)] == DropFlow(vid))
    && (forall s :: s in flows && RouteFlow(vid, s, flows[s]) ==> Owned(vid, t, s) || (s == DropSlot(vid) && !HasDefault(t)))
  }

  /** Ids that fit into a cookie */
  ghost predicate SmallIds(t: Routes) {
    forall k :: k in t ==> 1 <= t[k].id <= 0xffff
  }

  /** The flow that the lookup should find */
  function Expected(vid: nat, r: Option<Route>): Slot {
    if r.Some? then RouteSlot(vid, r.value) else DropSlot(vid)
  }

  /** The switch does what the table says: among the route flows of the VLAN that match a packet, the
      one of highest priority belongs to the longest-prefix route; it forwards exactly when the
      gateway's MAC address is known, and drops exactly when no route matches. */
  lemma SwitchFollowsTable(vid: nat, t: Routes, nextId: nat, flows: FlowTable, src: Ip, dst: Ip, r: Option<Route>)
    requires RoutesOk(t, nextId) && SmallIds(t) && Agree(vid, t, flows) && Longest(t, dst, r)
    ensures var best := Expected(vid, r);
      && best in flows && RouteFlow(vid, best, flows[best]) && MatchesIp(best.0, vid, src, dst)
      && (forall s :: s in flows && s != best && RouteFlow(vid, s, flows[s]) && MatchesIp(s.0, vid, src, dst) ==> s.1 < best.1)
      && (flows[best].action == Drop <==> r.None?)
      && (flows[best].action.Output? <==> r.Some? && r.value.gatewayMac.Some?)
      && (flows[best].action.Output? ==> flows[best].action.dstMac == r.value.gatewayMac.value)
  {
    hide ApplyMask;
    var best := Expected(vid, r);
    if r.Some? {
      RouteCookieRoundTrip(vid, r.value.id);
      assert RouteOk(KeyOf(r.value), r.value);
    } else {
      VlanCookieRoundTrip(vid);
      NoDefault(t, nextId, dst);
    }
    forall s | s in flows && s != best && RouteFlow(vid, s, flows[s]) && MatchesIp(s.0, vid, src, dst)
      ensures s.1 < best.1
    {
      if Owned(vid, t, s) {
        var k :| k in t && s == RouteSlot(vid, t[k]);
        LongerWins(vid, t, nextId, dst, r, k);
      }
    }
  }

  /** Nothing matching, there is no default route. */
  lemma NoDefault(t: Routes, nextId: nat, ip: Ip)
    requires RoutesOk(t, nextId) && Longest(t, ip, None)
    ensures !HasDefault(t)
  {
    if HasDefault(t) {
      assert t[DEFAULT_KEY].len <= 32 && Matches(t[DEFAULT_KEY], ip);
    }
  }

  lemma LongerWins(vid: nat, t: Routes, nextId: nat, ip: Ip, r: Option<Route>, k: Net)
    requires RoutesOk(t, nextId) && Longest(t, ip, r) && k in t && t[k].len <= 32 && Matches(t[k], ip)
    ensures r.Some? && (RouteSlot(vid, t[k]) == RouteSlot(vid, r.value) || RoutePriority(t[k], vid) < RoutePriority(r.value, vid))
  {
    assert RouteOk(k, t[k]) && RouteOk(KeyOf(r.value), r.value);
    if t[k].len == r.value.len {
      SameLengthSameRoute(t, nextId, ip, k, KeyOf(r.value));
    }
  }
}
