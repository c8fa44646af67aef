/** The routers of a switch, class Router of rest_router.py. */
module Routers {
  import opened Options
  import opened FlowTables
  import opened VlanFlows
  import opened RouterSteps
  import opened RouteDeletion
  import opened SuspendedPackets
  import opened VlanRouters
  import R = RouterRuns
  import opened SwitchRuns

  class Router {
    /** The dictionary of the VLANs' routers */
    var vlans: map<nat, VlanRouter>
    const sw: Switch

    /** What the routers hold, and the objects in which they hold it */
    ghost var tables: map<nat, Tables>
    ghost var Repr: set<object>

    ghost predicate Consistent()
      reads this, Repr
    {
      && this !in Repr && sw !in Repr
      && Apart(vlans, sw, Repr) && tables.Keys == vlans.Keys && forall v :: v in vlans ==> TablesOf(vlans[v]) == tables[v]
    }

    ghost function Now(): Whole
      reads this, sw
    {
      Whole(tables, sw.flows)
    }

    ghost predicate Valid()
      reads this, Repr, sw
    {
      Consistent() && WholeOk(Now())
    }

    constructor ()
      ensures Valid() && Now() == Start() && fresh(Repr) && fresh(sw)
      ensures tables == map[0 := Tables(map[], 1, map[], 1, Buffer([], 0, []))]
      ensures sw.flows == map[(Match(EthArp, 0, None, None), 1) := Flow(0, Controller),
                              (Match(AnyEth, 0, None, None), 0) := Flow(0, Normal), (Match(EthIp, 0, None, None), 1) := Flow(0, Drop)]
    {
      var s := new Switch();
      sw := s;
      vlans, tables, Repr := map[], map[], {};
      new;
      hide WholeOk, Start;
      AddFirst();
      StartHolds();
    }

    /** The router of VLAN 0 */
    method AddFirst()
      requires vlans == map[] && tables == map[] && Repr == {}
      requires sw.flows == map[ARP_SLOT := Flow(0, Controller), NORMAL_SLOT := Flow(0, Normal)]
      modifies this, sw
      ensures Valid() && Now() == Start() && fresh(Repr)
    {
      hide WholeOk, Tagged, Unused, TablesOf, Start, Empty, NewTables;
      StartIsUnused(sw.flows);
      StartIs(sw.flows);
      var router, repr := MakeRouter(0, sw);
      Enter(0, router, repr);
    }

    /** The router gets its entry in the dictionary. */
    method Enter(v: nat, router: VlanRouter, ghost repr: set<object>)
      requires Consistent() && v !in vlans && IsFor(router, v, sw, repr) && repr !! Repr + {this, sw} && TablesOf(router) == NewTables()
      modifies this
      ensures Consistent() && tables == old(tables)[v := NewTables()] && Repr == old(Repr) + repr
    {
      hide TablesOf, NewTables;
      ApartWith(vlans, v, router, sw, Repr, repr);
      hide Apart, IsFor;
      vlans := vlans[v := router];
      tables := tables[v := NewTables()];
      Repr := Repr + repr;
    }

    /** _add_vlan_router */
    method AddVlanRouter(v: nat)
      requires Valid()
      modifies this, sw
      ensures Valid() && Now() == Next(old(Now()), NewVlan(v)) && fresh(Repr - old(Repr))
      ensures v in old(tables) ==> tables == old(tables) && sw.flows == old(sw.flows)
      ensures v !in old(tables) ==>
        && tables == old(tables)[v := Tables(map[], 1, map[], 1, Buffer([], 0, []))]
        && sw.flows == old(sw.flows)[(Match(EthIp, v, None, None), if v == 0 then 1 else 1001) := Flow(v * 0x1_0000_0000, Drop)]
    {
      hide WholeOk, Tagged, Unused, TablesOf, Empty, NewTables, Next, Apart, IsFor;
      NextNew(Now(), v);
      NewHolds(v, sw.flows);
      if v !in vlans {
        NewIsUnused(Now(), v);
        var router, repr := MakeRouter(v, sw);
        Enter(v, router, repr);
      }
    }

    /** The entry of a router goes. */
    method Leave(v: nat)
      requires Consistent() && v in vlans
      modifies `vlans, `tables
      ensures Consistent() && tables == old(tables) - {v}
    {
      hide TablesOf, IsFor, Disjoint;
      ApartWithout(vlans, v, sw, Repr);
      vlans := vlans - {v};
      tables := tables - {v};
    }

    /** _del_vlan_router: the outcome of the assertion when the router is torn down. It comes when the flows are gone
        already, and in front of the removal of the entry. */
    method DelVlanRouter(v: nat, report: seq<Slot>) returns (ok: bool)
      requires Valid() && v in vlans && Report(report, sw.flows)
      modifies `vlans, `tables, sw
      ensures Consistent() && Now() == Next(old(Now()), DropVlan(v, report))
      ensures ok <==> Good(old(Now()), DropVlan(v, report))
      ensures Valid() <==> ok
      ensures v in old(tables)
      ensures var t := old(tables)[v];
        if v != 0 && t.addresses == map[] && t.routes == map[] then
          && ok == (t.waiting.held == []) && tables == (if ok then old(tables) - {v} else old(tables))
          && (forall s :: s in sw.flows <==> s in old(sw.flows) && s.0.vlan != v)
          && (forall s :: s in sw.flows ==> sw.flows[s] == old(sw.flows)[s])
        else ok && tables == old(tables) && sw.flows == old(sw.flows)
    {
      hide WholeOk, Others, RouterOk, Next, Good, Consistent;
      Has(v);
      NextDrop(Now(), v, report);
      ok := true;
      if v != 0 {
        var router := vlans[v];
        if |router.addressData.entries| == 0 && |router.routingTbl.entries| == 0 {
          ok := router.Delete(report);
          if ok {
            Leave(v);
          }
        }
      }
    }

    lemma SameKeys()
      requires Consistent()
      ensures tables.Keys == vlans.Keys && this !in Repr && sw !in Repr
    {
    }

    /** A router holds its part. */
    lemma Has(v: nat)
      requires Valid() && v in vlans
      ensures vlans[v].vid == v && vlans[v].sw == sw && Tagged(sw.flows)
      ensures vlans[v].Now() == Part(Now(), v) && vlans[v].Waiting() == tables[v].waiting && vlans[v].Valid()
      ensures vlans[v].addressData in Repr && vlans[v].routingTbl in Repr && vlans[v].packetBuffer in Repr
      ensures v in tables && TablesOf(vlans[v]) == tables[v] && this !in Repr && sw !in Repr
    {
      hide RouterOk, BufferOk, Tagged;
    }

    /** A request or a packet for a VLAN goes to its router, if there is one. */
    method HandleOn(v: nat, e: R.Event)
      requires Valid() && Happens(Now(), On(v, e))
      modifies `tables, Repr, sw
      ensures Consistent() && Now() == Next(old(Now()), On(v, e))
      ensures (Valid() <==> Good(old(Now()), On(v, e))) && Repr == old(Repr)
    {
      hide WholeOk, RouterOk, BufferOk, R.After, R.WaitingAfter, R.Possible, R.Harmless, Consistent;
      NextOk(Now(), On(v, e));
      SameKeys();
      if v in vlans {
        Has(v);
        Pass(v, e, Part(Now(), v), tables[v].waiting);
      }
    }

    method Pass(v: nat, e: R.Event, ghost s: State, ghost b: Buffer)
      requires Consistent() && v in vlans && vlans[v].Valid() && R.Possible(s, e)
      requires s == vlans[v].Now() && b == vlans[v].Waiting()
      modifies `tables, Repr, sw
      ensures Consistent() && Repr == old(Repr)
      ensures tables == old(tables)[v := TablesAfter(v, s, b, e)] && sw.flows == R.After(v, s, e).flows
    {
      hide RouterOk, BufferOk, R.After, R.WaitingAfter, R.Possible;
      R.Handle(vlans[v], e);
      forall u | u in vlans && u != v ensures TablesOf(vlans[u]) == tables[u] {
        assert Disjoint(vlans[u], vlans[v]);
      }
      Note(v);
    }

    ghost method Note(v: nat)
      requires Apart(vlans, sw, Repr) && this !in Repr && sw !in Repr && tables.Keys == vlans.Keys && v in vlans
      requires forall u :: u in vlans && u != v ==> TablesOf(vlans[u]) == tables[u]
      modifies `tables
      ensures Consistent() && tables == old(tables)[v := TablesOf(vlans[v])]
    {
      hide Apart, TablesOf;
      tables := tables[v := TablesOf(vlans[v])];
    }

    /** A run of all the routers */
    method Run(events: seq<SwitchEvent>)
      requires Valid() && GoodRun(Now(), events)
      modifies this, Repr, sw
      ensures Valid() && Now() == RunFrom(old(Now()), events) && fresh(Repr - old(Repr))
      decreases |events|
    {
      hide WholeOk, Good, Next, Consistent, R.Possible, RunFrom, GoodRun;
      if events == [] {
        NoEvents(Now());
      } else {
        RunNext(Now(), events);
        NothingToDrop(Now(), events[0]);
        SameKeys();
        match events[0] {
          case NewVlan(v) => AddVlanRouter(v);
          case DropVlan(v, report) =>
            if v in vlans {
              var ok := DelVlanRouter(v, report);
            }
          case On(v, e) => HandleOn(v, e);
        }
        Run(events[1..]);
      }
    }
  }

  ghost predicate IsFor(r: VlanRouter, v: nat, sw: Switch, repr: set<object>) {
    r.vid == v && r.sw == sw && r.addressData in repr && r.routingTbl in repr && r.packetBuffer in repr
  }

  ghost predicate Disjoint(r: VlanRouter, r': VlanRouter) {
    r.addressData != r'.addressData && r.routingTbl != r'.routingTbl && r.packetBuffer != r'.packetBuffer
  }

  /** Each router is that of its VLAN, on this switch, and no two share a table. */
  ghost predicate Apart(vlans: map<nat, VlanRouter>, sw: Switch, repr: set<object>) {
    && (forall v :: v in vlans ==> IsFor(vlans[v], v, sw, repr))
    && (forall u, v :: u in vlans && v in vlans && u != v ==> Disjoint(vlans[u], vlans[v]))
  }

  lemma ApartWith(vlans: map<nat, VlanRouter>, v: nat, r: VlanRouter, sw: Switch, repr: set<object>, new_: set<object>)
    requires Apart(vlans, sw, repr) && repr !! new_ && IsFor(r, v, sw, new_)
    ensures Apart(vlans[v := r], sw, repr + new_)
  {
  }

  lemma ApartWithout(vlans: map<nat, VlanRouter>, v: nat, sw: Switch, repr: set<object>)
    requires Apart(vlans, sw, repr)
    ensures Apart(vlans - {v}, sw, repr)
  {
  }

  ghost function TablesOf(r: VlanRouter): Tables
    reads r.addressData, r.routingTbl, r.packetBuffer
  {
    Tables(r.addressData.entries, r.addressData.addressId, r.routingTbl.entries, r.routingTbl.routeId, r.packetBuffer.Contents())
  }

  method MakeRouter(v: nat, sw: Switch) returns (router: VlanRouter, ghost repr: set<object>)
    requires Tagged(sw.flows) && Unused(v, sw.flows)
    modifies sw
    ensures IsFor(router, v, sw, repr) && fresh(repr)
    ensures TablesOf(router) == NewTables() && sw.flows == Empty(v, old(sw.flows)).flows
  {
    hide RouterOk, Tagged, Unused;
    router := new VlanRouter(v, sw);
    repr := {router.addressData, router.routingTbl, router.packetBuffer};
  }

  ghost function NewTables(): Tables {
    Tables(map[], 1, map[], 1, BufferAfter([]))
  }

  lemma StartHolds()
    ensures Start() == Whole(map[0 := Tables(map[], 1, map[], 1, Buffer([], 0, []))],
      map[(Match(EthArp, 0, None, None), 1) := Flow(0, Controller), (Match(AnyEth, 0, None, None), 0) := Flow(0, Normal),
          (Match(EthIp, 0, None, None), 1) := Flow(0, Drop)])
  {
  }

  lemma NewHolds(v: nat, flows: FlowTable)
    ensures NewTables() == Tables(map[], 1, map[], 1, Buffer([], 0, []))
    ensures Empty(v, flows).flows
      == flows[(Match(EthIp, v, None, None), if v == 0 then 1 else 1001) := Flow(v * 0x1_0000_0000, Drop)]
  {
  }

  lemma NextNew(w: Whole, v: nat)
    requires WholeOk(w)
    ensures Next(w, NewVlan(v)) == if v in w.vlans then w else Whole(w.vlans[v := NewTables()], Empty(v, w.flows).flows)
    ensures WholeOk(Next(w, NewVlan(v)))
  {
    hide WholeOk;
    NextOk(w, NewVlan(v));
  }

  lemma StartIsUnused(flows: FlowTable)
    requires flows == map[ARP_SLOT := Flow(0, Controller), NORMAL_SLOT := Flow(0, Normal)]
    ensures Tagged(flows) && Unused(0, flows)
  {
    VlanCookieRoundTrip(0);
  }

  lemma StartIs(flows: FlowTable)
    requires flows == map[ARP_SLOT := Flow(0, Controller), NORMAL_SLOT := Flow(0, Normal)]
    ensures WholeOk(Start()) && Start() == Whole(map[0 := NewTables()], Empty(0, flows).flows)
  {
    hide WholeOk;
    StartIsOk();
  }

  lemma NewIsUnused(w: Whole, v: nat)
    requires WholeOk(w) && v !in w.vlans
    ensures Tagged(w.flows) && Unused(v, w.flows)
  {
    hide RouterOk;
  }

  ghost function TablesAfter(v: nat, s: State, b: Buffer, e: R.Event): Tables
    requires RouterOk(v, s) && R.Possible(s, e)
  {
    var s' := R.After(v, s, e);
    Tables(s'.addresses, s'.addressId, s'.routes, s'.routeId, R.WaitingAfter(v, s, b, e))
  }

  /** Tearing down, when there is a router */
  lemma NextDrop(w: Whole, v: nat, report: seq<Slot>)
    requires WholeOk(w) && Report(report, w.flows) && v in w.vlans
    ensures var (drops, ok) := (Unneeded(w, v), w.vlans[v].waiting.held == []);
      && Next(w, DropVlan(v, report)) ==
        (if !drops then w else Whole(if ok then w.vlans - {v} else w.vlans, Others(v, w.flows)))
      && (Good(w, DropVlan(v, report)) <==> (drops ==> ok))
      && (WholeOk(Next(w, DropVlan(v, report))) <==> Good(w, DropVlan(v, report)))
  {
    hide WholeOk;
    NextOk(w, DropVlan(v, report));
  }

  lemma NothingToDrop(w: Whole, e: SwitchEvent)
    requires WholeOk(w) && Happens(w, e)
    ensures e.DropVlan? && e.vid !in w.vlans ==> Next(w, e) == w
  {
    hide WholeOk, R.Possible;
  }

  lemma NoEvents(w: Whole)
    requires WholeOk(w)
    ensures GoodRun(w, []) && RunFrom(w, []) == w
  {
    hide WholeOk;
  }

  lemma RunNext(w: Whole, events: seq<SwitchEvent>)
    requires WholeOk(w) && GoodRun(w, events) && events != []
    ensures Happens(w, events[0]) && WholeOk(Next(w, events[0])) && GoodRun(Next(w, events[0]), events[1..])
    ensures RunFrom(w, events) == RunFrom(Next(w, events[0]), events[1..])
  {
    hide WholeOk, Happens, Good, Next;
    NextOk(w, events[0]);
  }
}
