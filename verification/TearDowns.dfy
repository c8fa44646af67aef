/** Tearing down the router of a VLAN after all its routes and networks were deleted. */
module TearDowns {
  import opened Options
  import opened Seqs
  import opened Ipv4
  import opened AddressTable
  import opened RouteTable
  import opened FlowTables
  import opened VlanFlows
  import opened RouterSteps
  import opened RouteDeletion
  import opened AddressDeletion
  import opened SuspendedPackets
  import opened ArpPackets
  import opened VlanRouters
  import R = RouterRuns
  import opened WaitingRuns
  import opened SwitchRuns

  function NoRoutes(report: seq<Slot>): R.Event {
    R.RemoveRoutes(None, report)
  }

  function NoNetworks(report: seq<Slot>): R.Event {
    R.RemoveAddresses(None, report)
  }

  /** The event can happen and takes the whole, in order before it, from w to w'. */
  ghost predicate Leads(w: Whole, e: SwitchEvent, w': Whole) {
    WholeOk(w) && Happens(w, e) && w' == Next(w, e)
  }

  /** Deleting all routes is harmless and lets no packets go. */
  lemma AllRoutesGo(w: Whole, v: nat, report: seq<Slot>, w': Whole)
    requires v in w.vlans && Leads(w, On(v, NoRoutes(report)), w')
    ensures Good(w, On(v, NoRoutes(report))) && WholeOk(w')
    ensures v in w'.vlans && w'.vlans[v].routes == map[] && w'.vlans[v].addresses == w.vlans[v].addresses
    ensures w'.vlans[v].waiting == w.vlans[v].waiting
  {
    hide RouterOk, BufferOk, FlowsAfter, Tagged;
    NextOk(w, On(v, NoRoutes(report)));
  }

  /** Without routes, deleting all networks is harmless, and lets exactly the packets to them go. */
  lemma AllNetworksGo(w: Whole, v: nat, report: seq<Slot>, w': Whole)
    requires v in w.vlans && w.vlans[v].routes == map[] && Leads(w, On(v, NoNetworks(report)), w')
    ensures Good(w, On(v, NoNetworks(report))) && WholeOk(w')
    ensures v in w'.vlans && w'.vlans[v].addresses == map[] && w'.vlans[v].routes == map[]
    ensures forall p :: p in w'.vlans[v].waiting.held <==> p in w.vlans[v].waiting.held && !Attached(w.vlans[v].addresses, p.dst)
  {
    hide RouterOk, BufferOk, KeptFlows, Attached, Related, Tagged;
    NextOk(w, On(v, NoNetworks(report)));
    NothingRelated(Part(w, v));
    forall p
      ensures p in w'.vlans[v].waiting.held <==> p in w.vlans[v].waiting.held && !Attached(w.vlans[v].addresses, p.dst)
    {
      AllNetworksGone(v, Part(w, v), w.vlans[v].waiting, None, report, p);
    }
  }

  lemma NothingRelated(s: State)
    requires s.routes == map[]
    ensures R.SkipSet(s, None) == {}
  {
  }

  /** Deleting all routes and networks of a VLAN, which both are harmless, and tearing its router down keeps the
      whole in order exactly when all waiting packets are for an attached network. Otherwise the router stays,
      without its drop flow. */
  lemma TearDown(w: Whole, v: nat, report: seq<Slot>, w1: Whole, report': seq<Slot>, w2: Whole, report'': seq<Slot>, w3: Whole)
    requires v in w.vlans && v != 0 && Leads(w, On(v, NoRoutes(report)), w1)
    requires Leads(w1, On(v, NoNetworks(report')), w2) && Leads(w2, DropVlan(v, report''), w3)
    ensures Good(w, On(v, NoRoutes(report))) && Good(w1, On(v, NoNetworks(report'))) && Unneeded(w2, v)
    ensures forall p :: p in w2.vlans[v].waiting.held <==> p in w.vlans[v].waiting.held && !Attached(w.vlans[v].addresses, p.dst)
    ensures WholeOk(w3) <==> forall p :: p in w.vlans[v].waiting.held ==> Attached(w.vlans[v].addresses, p.dst)
    ensures v in w3.vlans <==> !WholeOk(w3)
    ensures DropSlot(v) !in w3.flows
  {
    hide WholeOk, Attached, Good;
    AllRoutesGo(w, v, report, w1);
    AllNetworksGo(w1, v, report', w2);
    DropOk(w2, v, report'');
    var held := w2.vlans[v].waiting.held;
    assert held != [] ==> held[0] in held;
  }
}
