/** The routing table, class RoutingTable of rest_router.py. */
module RouteTable {
  import opened Bits
  import opened Options
  import opened Seqs
  import opened Ipv4
  import opened AddressTable

  type Mac = int

  /** A route. The destination of the default route is the number 0 instead of an address: none here. */
  datatype Route = Route(id: nat, dst: Option<Ip>, len: nat, gateway: Ip, gatewayMac: Option<Mac>)

  type Routes = map<Net, Route>

  const DEFAULT_KEY: Net := (0, 0)

  /** The dictionary key: the text of the destination and prefix length */
  function KeyOf(r: Route): Net {
    (if r.dst.Some? then r.dst.value else 0, r.len)
  }

  ghost predicate RouteOk(key: Net, r: Route) {
    && key == KeyOf(r) && r.len <= 32
    && (r.dst.None? ==> r.len == 0)
    && (r.dst.Some? ==> ApplyMask(r.dst.value, r.len) == r.dst.value)
  }

  ghost predicate RoutesOk(t: Routes, nextId: nat) {
    && (forall k :: k in t ==> RouteOk(k, t[k]) && 1 <= t[k].id < nextId)
    && (forall j, k :: j in t && k in t && j != k ==> t[j].id != t[k].id)
  }

  /** A destination as the client writes it: the default route's text, or an address with a prefix
      length. `asKey` says whether the text is letter for letter the dictionary key of its network. */
  datatype Destination = DefaultRoute | Spelled(ip: Ip, netmask: int, asKey: bool)

  ghost predicate DestinationOk(d: Destination) {
    d.Spelled? && d.asKey ==> 0 <= d.netmask <= 32 && ApplyMask(d.ip, d.netmask) == d.ip && (d.ip, d.netmask) != (0, 0)
  }

  predicate Matches(r: Route, ip: Ip)
    requires r.len <= 32
  {
    r.dst.None? || ApplyMask(ip, r.len) == r.dst.value
  }

  /** The longest prefix that matches, whatever the order of the dictionary (RFC 1812, section 5.2.4.3) */
  ghost predicate Longest(t: Routes, ip: Ip, r: Option<Route>) {
    match r
    case None => forall k :: k in t && t[k].len <= 32 ==> !Matches(t[k], ip)
    case Some(b) =>
      && KeyOf(b) in t && t[KeyOf(b)] == b && b.len <= 32 && Matches(b, ip)
      && (forall k :: k in t && t[k].len <= 32 && Matches(t[k], ip) ==> t[k].len <= b.len)
  }

  /** Two routes that match one address with equal lengths are one route. */
  lemma SameLengthSameRoute(t: Routes, nextId: nat, ip: Ip, j: Net, k: Net)
    requires RoutesOk(t, nextId) && j in t && k in t && t[j].len == t[k].len <= 32
    requires Matches(t[j], ip) && Matches(t[k], ip)
    ensures j == k
  {
    assert RouteOk(j, t[j]) && RouteOk(k, t[k]);
    if t[j].len == 0 {
      ZeroMask(t[j]);
      ZeroMask(t[k]);
    }
  }

  /** A route of length 0 has the default route's key. */
  lemma ZeroMask(r: Route)
    requires RouteOk(KeyOf(r), r) && r.len == 0
    ensures KeyOf(r) == DEFAULT_KEY
  {
    if r.dst.Some? {
      NoMask(r.dst.value);
    }
  }

  lemma NoMask(ip: Ip)
    ensures ApplyMask(ip, 0) == 0
  {
    MaskIs(0);
    AndZero(ip);
  }

  lemma LongestIsUnique(t: Routes, nextId: nat, ip: Ip, r: Option<Route>, r': Option<Route>)
    requires RoutesOk(t, nextId) && Longest(t, ip, r) && Longest(t, ip, r')
    ensures r == r'
  {
    if r.Some? && r'.Some? {
      SameLengthSameRoute(t, nextId, ip, KeyOf(r.value), KeyOf(r'.value));
    }
  }

  datatype RouteResult = RouteAdded(route: Route) | DestinationOverlaps(id: nat) | IllegalDestination

  predicate ValidDestination(d: Destination) {
    d.DefaultRoute? || 0 <= d.netmask <= 32
  }

  /** The route that add makes of a destination */
  function NewRoute(d: Destination, id: nat, gateway: Ip): Route
    requires ValidDestination(d)
  {
    if d.DefaultRoute? then Route(id, None, 0, gateway, None)
    else Route(id, Some(ApplyMask(d.ip, d.netmask)), d.netmask, gateway, None)
  }

  class RoutingTable {
    var entries: Routes
    var routeId: nat

    ghost predicate Valid()
      reads this
    {
      routeId >= 1 && RoutesOk(entries, routeId)
    }

    constructor ()
      ensures Valid() && entries == map[] && routeId == 1
    {
      entries := map[];
      routeId := 1;
    }

    /** add: the overlap test compares the text of the destination with the keys, so that a network
        spelled in another way replaces the route it has. */
    method Add(d: Destination, gateway: Ip) returns (r: RouteResult)
      requires Valid() && routeId < UINT32_MAX && DestinationOk(d)
      modifies this
      ensures Valid()
      ensures r == IllegalDestination <==> !ValidDestination(d)
      ensures r.DestinationOverlaps? <==>
        ValidDestination(d) && (d.DefaultRoute? || d.asKey) && KeyOf(NewRoute(d, 0, gateway)) in old(entries)
      ensures r.DestinationOverlaps? ==> r.id == old(entries)[KeyOf(NewRoute(d, 0, gateway))].id
      ensures !r.RouteAdded? ==> entries == old(entries) && routeId == old(routeId)
      ensures r.RouteAdded? ==>
        && r.route == NewRoute(d, old(routeId), gateway)
        && entries == old(entries)[KeyOf(r.route) := r.route]
        && routeId == old(routeId) + 1
    {
      if !ValidDestination(d) {
        return IllegalDestination;
      }
      var route := NewRoute(d, routeId, gateway);
      if d.DefaultRoute? {
        if DEFAULT_KEY in entries {
          return DestinationOverlaps(entries[DEFAULT_KEY].id);
        }
      } else if d.asKey && (d.ip, d.netmask) in entries {
        return DestinationOverlaps(entries[(d.ip, d.netmask)].id);
      }
      NewRouteOk(d, routeId, gateway);
      NextIdSmall(routeId);
      entries := entries[KeyOf(route) := route];
      routeId := NextId(routeId);
      return RouteAdded(route);
    }

    /** get_data(dst_ip): a running maximum over the static routes, and the default route failing that */
    method GetByDst(ip: Ip) returns (r: Option<Route>)
      requires Valid()
      ensures Longest(entries, ip, r)
    {
      hide ApplyMask;
      r := None;
      var mask := 0;
      var keys := Enumerate(entries.Keys);
      for i := 0 to |keys|
        invariant r.None? ==> mask == 0
        invariant r.Some? ==>
          && KeyOf(r.value) in entries && entries[KeyOf(r.value)] == r.value
          && mask == r.value.len <= 32 && Matches(r.value, ip)
        invariant forall j :: 0 <= j < i ==>
          && entries[keys[j]].len <= 32
          && (Matches(entries[keys[j]], ip) ==> entries[keys[j]].len <= mask)
      {
        assert keys[i] in keys;
        var route := entries[keys[i]];
        assert RouteOk(keys[i], route);
        if route.dst.Some? && ApplyMask(ip, route.len) == route.dst.value {
          if mask < route.len {
            r := Some(route);
            mask := route.len;
          }
        }
      }
      forall k | k in entries && Matches(entries[k], ip) ensures entries[k].len <= mask {
        assert k in keys;
      }
      if r.None? {
        DefaultMatches(entries, routeId, ip);
        r := if DEFAULT_KEY in entries then Some(entries[DEFAULT_KEY]) else None;
      }
    }

    /** delete: remove the route with this id, if there is one. */
    method Delete(id: nat)
      requires Valid()
      modifies this
      ensures Valid() && routeId == old(routeId)
      ensures entries == map k | k in old(entries) && old(entries)[k].id != id :: old(entries)[k]
    {
      hide ApplyMask;
      var keys := Enumerate(entries.Keys);
      for i := 0 to |keys|
        invariant entries == old(entries) && routeId == old(routeId)
        invariant forall j :: 0 <= j < i ==> entries[keys[j]].id != id
      {
        assert keys[i] in keys;
        if entries[keys[i]].id == id {
          entries := entries - {keys[i]};
          return;
        }
      }
      forall k | k in entries ensures entries[k].id != id {
        assert k in keys;
      }
    }
  }

  lemma NewRouteOk(d: Destination, id: nat, gateway: Ip)
    requires ValidDestination(d)
    ensures var r := NewRoute(d, id, gateway); RouteOk(KeyOf(r), r)
  {
    if d.Spelled? {
      MaskNests(d.ip, d.netmask, d.netmask);
    }
  }

  /** Nothing of a positive length matching, only the entry under the default key can match. */
  lemma DefaultMatches(t: Routes, nextId: nat, ip: Ip)
    requires RoutesOk(t, nextId) && forall k :: k in t && t[k].len <= 32 && Matches(t[k], ip) ==> t[k].len == 0
    ensures DEFAULT_KEY in t ==> Matches(t[DEFAULT_KEY], ip) && KeyOf(t[DEFAULT_KEY]) == DEFAULT_KEY
    ensures forall k :: k in t && t[k].len <= 32 && Matches(t[k], ip) ==> k == DEFAULT_KEY
  {
    NoMask(ip);
    forall k | k in t && t[k].len <= 32 && Matches(t[k], ip) ensures k == DEFAULT_KEY {
      ZeroMask(t[k]);
    }
  }
}
