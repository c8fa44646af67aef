# Proofs about the stateful core of the multipath network

This project models, in Dafny, the parts of the repository that keep state or compute over it, and proves what
they promise over all inputs, all runs and all interleavings.

- **The chained hash table** (`UtHash`, `HashRuns`, `MergeSort`, `DoublyLinked`, `BucketAccounting`): bucket
  chains and an insertion-order list over the same elements, links as maps from addresses to addresses, the bucket
  array as an array. The hash is an arbitrary function from keys to numbers. Every run of look-ups,
  find-then-adds and deletions refines a plain map plus an insertion-ordered sequence, through any bucket doubling;
  the bottom-up merge sort is stable.
- **Path computation** (`SimplePaths`, `PathRanking`, `PortMaps`, `Multipath`, `ShortestPaths`, `Yen`): the
  depth-first search returns every simple path once and ends, ranking keeps the cheapest, port maps deliver packets
  along the path, and Dijkstra's distances are minimal over all walks.
- **The routers of the VLANs** (`Ipv4`, `AddressTable`, `RouteTable`, `FlowTables`, `FlowSteps`, `VlanFlows`,
  `RouterSteps`, `RouteDeletion`, `AddressDeletion`, `NetworkRemoval`, `VlanRouters`, `Forwarding`, `RouterRuns`,
  `LearntRuns`, `SwitchRuns`, `Routers`, `TearDowns`, `RouterExceptions`): attached networks stay disjoint and keep
  their flows, and every route's gateway stays in one. After every run of requests, packets and expiries on all VLANs,
  with routers made and torn down, of all the flows on the switch the one that decides over a packet is the one that
  networks and routing table ask for, and it sends out by the port and the MAC addresses last learnt. A switch is a
  map from (match, priority) to a flow, so that adding replaces (OpenFlow 1.3, section 6.4) and deleting goes by
  cookie. What the switch reports is a parameter, in an arbitrary order. Every step says exactly when it keeps the
  router in order, and the classes' own methods take these steps.
- **Suspended packets** (`SuspendedPackets`, `PacketBuffers`, `ArpPackets`, `WaitingRuns`): at most 50 are held, each
  leaves exactly once, and it is exact which replies and which deletions release which packets, over whole runs.
- **The redundancy protocol** (`WisprTags`, `WisprDelivery`, `Frames`, `WisprRuns`): cyclic numbering in two nibbles,
  two tagged copies, and a table of times. From end to end, whatever the interleaving of copies, as long as the network
  is timely the egress sends on the ingress's original frames, each exactly once.
- **IPv4 fragmentation** (`IpFrag`): the number, sizes, offsets and flags of fragments, and their reassembly in any
  order.

`Bits` defines the bitwise operators on unbounded naturals; `Octets`, `Seqs` and `Options` are shared helpers. Words
wrap or are truncated where the program's do: VLAN ids and fragment words at 16 bits, masks, ids and the total length
at 32.

## Where the code differs from what it promises

Each of these is kept as the code has it. The members named say exactly when it matters, and show an input.

- The overlap test of `RoutingTable.add` compares text, so `1.2.3.4/24` replaces the route to `1.2.3.0/24` without
  complaint (`RouteTable.RoutingTable.Add`; `RouterExceptions.NetworkReplaced`).
- A static route of length 0 that is not spelled as the default route replaces that route in the table but not on the
  switch, and next to an attached network of length 0 it replaces the flow that learns hosts
  (`RouterSteps.SetRouteStep`; `RouterExceptions.StaticOverDefault`, `RouterExceptions.StaticOverNetwork`). It has the
  priority of the flows that learn hosts: neither comes first for a packet that takes this route and is for an attached
  network, unless it comes from inside or is for the gateway address or a learnt host (`Forwarding.VlanDecides`;
  `RouterExceptions.StaticTies`).
- A request to delete route 0 picks flows that are no route's. It removes all flows of the attached networks, and on
  VLAN 0 the flows that all VLANs share (`RouteDeletion.DeleteRoutesStep`, `RouteDeletion.NetworkFlowsGo`;
  `RouterExceptions.RouteIdZeroNetwork`). On VLAN 0 it can also leave no default flow, depending on the order in which
  the switch reports (`RouteDeletion.DeletionAgrees`; `RouterExceptions.RouteIdZero`).
- A network goes only if a flow with its cookie is on the switch (`AddressDeletion.GoesWithItsFlow`). After a request
  to delete route 0 no network can be deleted (`NetworkRemoval.NetworksStuck`), until an ARP packet comes from a host
  of it that is no route's gateway (`NetworkRemoval.ArpFrees`; `RouterExceptions.StuckUntilArp`). On VLAN 0 none comes
  any more, since the flow that sends ARP packets to the controller is gone too (`NetworkRemoval.ArpStillComes`).
- A request to delete an address by an id that is a shifted route id deletes that route's flow. By id 0 it deletes the
  drop flow, and on VLAN 0 the shared flows for ARP and for normal switching, also when there is a default route
  (`AddressDeletion.DeleteAddressStep`; `RouterExceptions.AddressIdOfRoute`, `RouterExceptions.AddressIdZero`,
  `RouterExceptions.AddressIdZeroShared`).
- Ids have 32 bits, but cookies give back those of routes only up to 65535 (`FlowTables.RouteCookieRoundTrip`;
  `RouterExceptions.RouteIdOverflows`).
- Flows of VLAN 0 match packets of every VLAN, and those for its gateway addresses have the highest priority of all:
  on other VLANs, packets to these addresses go to the controller whatever the VLAN's own router says
  (`Forwarding.SwitchDecides`; `RouterExceptions.OtherVlansGateway`).
- A packet that waits for its gateway is filed under its own destination. The reply to the ARP request that it gave
  rise to releases it exactly when that destination is in an attached network, which it is not, and while the networks
  stay, only its timer lets it go (`VlanRouters.VlanRouter.PacketInToNode`, `SuspendedPackets.OnlyTimersRelease`;
  `RouterExceptions.RoutedPacketWaits`).
- Nor does deleting all routes and networks of the VLAN let such a packet go (`WaitingRuns.WaitsToTheEnd`). The router
  of the VLAN is then torn down: its flows are deleted, and after that an assertion fails, so that the router stays,
  without a default flow. Tearing down keeps the switch in order exactly when no packet waits
  (`SwitchRuns.DropOk`, `TearDowns.TearDown`; `RouterExceptions.TearDownFails`).
- With one path the egress forwards every copy (`WisprDelivery.ForwardsFirstArrivals`; `WisprDelivery.OnePathTwice`).
- The egress takes the IP addresses from behind one tag. Of a frame with both tags it reads the four bytes in front of
  the addresses and the source address, which is the session's key exactly when these bytes, the source and the
  destination address are all the same (`Frames.SameSession`; `Frames.OtherSession`).
- The total length of a datagram is computed in 32 bits: a buffer of 4294967268 bytes or more is not refused, and
  handed to sendmsg in one piece (`IpFrag.RawIphdrUdp4Send`).
- `minimum_distance` returns the placeholder 0 when no switch of Q can be reached, so that Dijkstra fails with a
  KeyError unless 0 is the only such switch (`Yen.Dijkstra`; `Yen.Islands`).

## Model

| member | source | states |
|---|---|---|
| `HashRuns.Run` | WISPR2/src/uthash.h:124-142 | for every run of look-ups, find-then-adds and deletions, with any hash function and any addresses from the allocator, the pointers the client gets are those of a plain map, and the insertion-ordered list is the model's |
| `HashRuns.Apply` | WISPR2/src/uthash.h:312-333 | one client operation takes a table that represents a map and an insertion order to one that represents their successor, with the expected answer |
| `UtHash.Table.Find` | WISPR2/src/uthash.h:137-143 | the element with the key when there is one, NULL exactly when there is none |
| `UtHash.Table.FindInBkt` | WISPR2/src/uthash.h:794-814 | the walk along one chain ends, and finds the key if it is on the chain |
| `UtHash.Table.Add` | WISPR2/src/uthash.h:312-333 | the element is appended to the insertion order, all other keys, hashes and elements stay, and both structures stay well formed |
| `UtHash.Table.AddToBkt` | WISPR2/src/uthash.h:816-831 | pushing on a bucket keeps every element in exactly the chain its hash selects; the number of buckets doubles exactly when the bucket of the hash modulo that number then has at least 10 times (its multiplier plus 1) elements and expansion is not inhibited, and then the ideal length is the least one that fits, and excess, multipliers and inhibition are exact |
| `UtHash.Table.PushBkt` | WISPR2/src/uthash.h:816-829 | a push at the head keeps all chains as mutually inverse links with exact counts, and changes one bucket's head and count only |
| `UtHash.Table.Delete` | WISPR2/src/uthash.h:366-400 | the element leaves the insertion order and nothing else does; deleting the last one empties the table |
| `UtHash.Table.UnlinkApp` | WISPR2/src/uthash.h:377-394 | unlinking from the application list repairs head, tail and both neighbours |
| `UtHash.Table.UnlinkBkt` | WISPR2/src/uthash.h:833-845 | unlinking from a chain repairs its head, its count and both neighbours and leaves the other chains alone |
| `UtHash.Table.AppendList` | WISPR2/src/uthash.h:248-254 | the new element is last, the tail points to it, and prev/next stay mutual inverses |
| `UtHash.Table.MakeTable` | WISPR2/src/uthash.h:183-203 | a fresh table has 2^5 = 32 empty buckets and zero accounts, for which the invariant holds |
| `UtHash.Table.ExpandBuckets` | WISPR2/src/uthash.h:874-924 | doubling keeps every element, in the chain its hash selects among twice as many buckets, leaves the insertion order alone, and recomputes the ideal length, the excess and the inhibition of further expansions |
| `UtHash.Table.RedistributeAll` | WISPR2/src/uthash.h:891-910 | the nested loops move every element of every old chain to its new chain, none lost and none twice, with exact accounts |
| `UtHash.Table.RedistributeChain` | WISPR2/src/uthash.h:892-909 | the inner loop empties one old chain although it overwrites the links it walks along |
| `UtHash.Table.Redistribute` | WISPR2/src/uthash.h:895-907 | one element is pushed on its new chain with its expansion multiplier |
| `UtHash.Table.SetIdeal` | WISPR2/src/uthash.h:887-890 | the shift-and-mask value is items over new buckets rounded up, and at least 1 |
| `UtHash.Table.JudgeExpansion` | WISPR2/src/uthash.h:916-922 | two ineffective expansions in a row inhibit further ones |
| `UtHash.Table.Fsck` | WISPR2/src/uthash.h:435-485 | the consistency check of HASH_FSCK finds no fault in any table that satisfies the invariant |
| `UtHash.Table.Sort` | WISPR2/src/uthash.h:930-1028 | the application list becomes a permutation of itself with links, head and tail rebuilt, under a total preorder in the order of the comparison, elements that compare equal staying in their order; hashes, chains and buckets are untouched |
| `UtHash.TotalIsSize` | WISPR2/src/uthash.h:440-462 | bucket counts add up to the length of the application list |
| `UtHash.Table.OrderMeans` | WISPR2/src/uthash.h:248-254 | what a valid table is in memory: head, tail, next and prev of every element of the application list |
| `UtHash.Table.ChainsMean` | WISPR2/src/uthash.h:816-829 | and its chains: bucket b leads along the links to exactly the elements whose key has a hash of remainder b, and counts them |
| `UtHash.PushChained` | WISPR2/src/uthash.h:816-829 | pushing an element on one chain keeps every chain well formed |
| `UtHash.UnlinkChained` | WISPR2/src/uthash.h:833-845 | removing an element from one chain keeps every chain well formed |
| `UtHash.MidwayNext` | WISPR2/src/uthash.h:893-909 | each turn of the redistribution loop keeps old chain remainders intact and new chains complete |
| `UtHash.ChainDone` | WISPR2/src/uthash.h:891-910 | an old chain whose end is reached is wholly redistributed |
| `BucketAccounting.IdealIsCeil` | WISPR2/src/uthash.h:887-889 | shift plus mask test equals the ceiling of items over buckets |
| `BucketAccounting.CeilIsLeast` | WISPR2/src/uthash.h:887-889 | the ceiling is the least length that fits all items |
| `BucketAccounting.AccountedUpdate` | WISPR2/src/uthash.h:897-901 | one more item in a bucket keeps the excess total and the multipliers exact |
| `BucketAccounting.ExcessOfMore` | WISPR2/src/uthash.h:897-900 | the excess is the sum, over the buckets, of what each has beyond the ideal length |
| `Bits.AndLowMask` | WISPR2/src/uthash.h:349-352 | masking with one less than a power of two is the remainder, so masking a hash selects a bucket |
| `MergeSort.SortList` | WISPR2/src/uthash.h:930-1028 | the bottom-up merge sort on links alone ends; its result is a well-formed list of the same elements, and under a total preorder no element compares greater than a later one, and those that compare equal keep their order |
| `MergeSort.SortPass` | WISPR2/src/uthash.h:940-1018 | one pass links the merges of neighbouring runs, and counts at most one merge exactly when two runs cover the list |
| `MergeSort.MergeAll` | WISPR2/src/uthash.h:943-1015 | the loop over pairs of runs consumes the old links before it overwrites them |
| `MergeSort.MergeNext` | WISPR2/src/uthash.h:944-1014 | finding two runs and merging them extends the built list by their merge |
| `MergeSort.MergeRuns` | WISPR2/src/uthash.h:957-1013 | the inner loop yields the merge of the two runs |
| `MergeSort.PassRuns` | WISPR2/src/uthash.h:940-1018 | a pass over sorted runs of k leaves sorted runs of 2k |
| `MergeSort.PassPeers` | WISPR2/src/uthash.h:940-1018 | a pass keeps the order of equal elements |
| `MergeSort.PassMultiset` | WISPR2/src/uthash.h:940-1018 | a pass permutes |
| `MergeSort.PassImproves` | WISPR2/src/uthash.h:940-1024 | a pass permutes, doubles the sorted runs and stays stable with respect to the original list |
| `MergeSort.SortedStableInOrder` | WISPR2/src/uthash.h:930-1028 | a sorted list in which the elements equal to any one come in their old order has no element before one that compares less, and no two equal ones exchanged |
| `DoublyLinked.UnlinkAt` | WISPR2/src/uthash.h:833-845 | skipping one element of a doubly linked list leaves a well-formed list without it |
| `DoublyLinked.Append` | WISPR2/src/uthash.h:248-254 | appending to a doubly linked list leaves a well-formed list |
| `Multipath.ProjectController.GetPaths` | PythonScripts/multipath-f8c9ce712593c0746409ae142b8ae861a17ea458/ryu_multipath.py:49-66 | exactly the simple paths from src to dst, at no two positions the same; the search ends on every finite graph |
| `Multipath.ProjectController.Visit` | PythonScripts/multipath-f8c9ce712593c0746409ae142b8ae861a17ea458/ryu_multipath.py:59-64 | one pop keeps the search invariant and strictly decreases the weight of the stack |
| `SimplePaths.Expand` | PythonScripts/multipath-f8c9ce712593c0746409ae142b8ae861a17ea458/ryu_multipath.py:59-64 | replacing a partial path by its extensions loses no simple path and doubles none |
| `SimplePaths.SimplePathMeans` | PythonScripts/multipath-f8c9ce712593c0746409ae142b8ae861a17ea458/ryu_multipath.py:49-66 | a simple path is one from src to dst on which each switch has a port to the next and none comes twice |
| `SimplePaths.Found` | PythonScripts/multipath-f8c9ce712593c0746409ae142b8ae861a17ea458/ryu_multipath.py:61-62 | a path that reaches dst moves from the stack to the result |
| `SimplePaths.ExpansionIsLighter` | PythonScripts/multipath-f8c9ce712593c0746409ae142b8ae861a17ea458/ryu_multipath.py:57-64 | the sum over stack entries of (bound + 1)^(switches left) decreases at each pop |
| `Multipath.ProjectController.GetPathCost` | PythonScripts/multipath-f8c9ce712593c0746409ae142b8ae861a17ea458/ryu_multipath.py:78-85 | the sum of the link costs, none exactly where a link of the path has no recorded port or no bandwidth; what that is in ports and bandwidths is `PathRanking.OneLink` and `PathRanking.SumOfLinks` |
| `PathRanking.CostDefined` | PythonScripts/multipath-f8c9ce712593c0746409ae142b8ae861a17ea458/ryu_multipath.py:68-85 | a path has a cost exactly when each of its links, as a path of two switches, has one |
| `PathRanking.OneLink` | PythonScripts/multipath-f8c9ce712593c0746409ae142b8ae861a17ea458/ryu_multipath.py:68-76 | a link has no cost when a direction is not recorded or an end has bandwidth 0; otherwise its cost is how often the smaller bandwidth fits into 10 000 000, which also stands for a bandwidth not recorded |
| `PathRanking.SumOfLinks` | PythonScripts/multipath-f8c9ce712593c0746409ae142b8ae861a17ea458/ryu_multipath.py:78-85 | a single switch costs 0, and one more link adds its own cost |
| `PathRanking.ReverseCost` | PythonScripts/multipath-f8c9ce712593c0746409ae142b8ae861a17ea458/ryu_multipath.py:68-85 | a path and its reverse cost the same, defined or not |
| `PathRanking.ReverseSimple` | PythonScripts/multipath-f8c9ce712593c0746409ae142b8ae861a17ea458/ryu_multipath.py:49-66 | with symmetric adjacency the reverse of a simple path is one |
| `Multipath.ProjectController.GetOptimalPaths` | PythonScripts/multipath-f8c9ce712593c0746409ae142b8ae861a17ea458/ryu_multipath.py:87-94 | at most 2 distinct simple paths, none costing more than a later one; a path is left out only when 2 are returned and neither costs more than it; there is no result exactly when some simple path has no cost |
| `PathRanking.RankedPrefix` | PythonScripts/multipath-f8c9ce712593c0746409ae142b8ae861a17ea458/ryu_multipath.py:94 | what a prefix of the ranking leaves out is no cheaper than what it holds |
| `Multipath.Cheapest` | PythonScripts/multipath-f8c9ce712593c0746409ae142b8ae861a17ea458/ryu_multipath.py:92-94 | the first k of the ranking are k distinct paths in non-decreasing cost, and none left out is cheaper than one kept |
| `Multipath.ProjectController.AddPortsToPaths` | PythonScripts/multipath-f8c9ce712593c0746409ae142b8ae861a17ea458/ryu_multipath.py:96-110 | each path gets the map from its switches to their in- and out-ports |
| `Multipath.ProjectController.AddPorts` | PythonScripts/multipath-f8c9ce712593c0746409ae142b8ae861a17ea458/ryu_multipath.py:101-109 | the map of one path has an entry for each of its switches and no other |
| `Multipath.ProjectController.LinkAdd` | PythonScripts/multipath-f8c9ce712593c0746409ae142b8ae861a17ea458/ryu_multipath.py:335-340 | afterwards exactly the old links and the two ends are recorded, each end with its port; symmetry of the adjacency is kept |
| `Multipath.ProjectController.LinkDelete` | PythonScripts/multipath-f8c9ce712593c0746409ae142b8ae861a17ea458/ryu_multipath.py:342-347 | exactly the two ends go, or as many of them as are recorded up to the first that is not; the error cases are exact; symmetry and injectivity of ports are kept |
| `PortMaps.FollowsPath` | PythonScripts/multipath-f8c9ce712593c0746409ae142b8ae861a17ea458/ryu_multipath.py:101-109 | following the map from (src, first_port) is at the k-th switch of the path, by the recorded in-port, after k hops; behind the out-port of a switch is no switch but the next one |
| `PortMaps.PortMapMeans` | PythonScripts/multipath-f8c9ce712593c0746409ae142b8ae861a17ea458/ryu_multipath.py:101-109 | a port map has first_port at the first switch, last_port at the last, and between neighbours on the path the two ports of their link |
| `PortMaps.Delivered` | PythonScripts/multipath-f8c9ce712593c0746409ae142b8ae861a17ea458/ryu_multipath.py:101-109 | over any simple path a packet is at dst after one hop less than the path has switches and leaves on last_port |
| `PortMaps.MirroredMap` | PythonScripts/multipath-f8c9ce712593c0746409ae142b8ae861a17ea458/ryu_multipath.py:101-109 | the reversed path with its end ports swapped has the mirrored map |
| `PortMaps.AddKeepsPorts` | PythonScripts/multipath-f8c9ce712593c0746409ae142b8ae861a17ea458/ryu_multipath.py:335-340 | a new link keeps every port of a switch leading to one neighbour if and only if its ports are free |
| `Yen.MinimumDistance` | PythonScripts/multipath-f8c9ce712593c0746409ae142b8ae861a17ea458/ryu_multipath_yens.py:168-175 | a nearest switch, or 0 exactly when all of Q is at infinity |
| `Yen.Dijkstra` | PythonScripts/multipath-f8c9ce712593c0746409ae142b8ae861a17ea458/ryu_multipath_yens.py:197-222 | succeeds exactly when every switch but 0 can be reached, and then no walk to a switch costs less than its distance, which a walk attains |
| `Yen.Islands` | PythonScripts/multipath-f8c9ce712593c0746409ae142b8ae861a17ea458/ryu_multipath_yens.py:197-222 | with two switches 1 and 2 and no link the search from 1 ends in the KeyError |
| `Yen.RelaxLinks` | PythonScripts/multipath-f8c9ce712593c0746409ae142b8ae861a17ea458/ryu_multipath_yens.py:211-216 | afterwards no neighbour of the settled switch is farther than its distance plus the measured delay from it to the neighbour; the invariant is kept and no settled distance changes |
| `Yen.PathTo` | PythonScripts/multipath-f8c9ce712593c0746409ae142b8ae861a17ea458/ryu_multipath_yens.py:177-195 | walking back ends, and gives the stops of a real walk whose total delay is the distance |
| `Yen.DijkstraTo` | PythonScripts/multipath-f8c9ce712593c0746409ae142b8ae861a17ea458/ryu_multipath_yens.py:218-220 | the cost is the least over all walks and the path attains it |
| `Yen.Collect` | PythonScripts/multipath-f8c9ce712593c0746409ae142b8ae861a17ea458/ryu_multipath_yens.py:178-195 | the collected predecessors, reversed, are the stops in order |
| `ShortestPaths.Settle` | PythonScripts/multipath-f8c9ce712593c0746409ae142b8ae861a17ea458/ryu_multipath_yens.py:207-209 | the nearest open switch can be settled |
| `ShortestPaths.Improve` | PythonScripts/multipath-f8c9ce712593c0746409ae142b8ae861a17ea458/ryu_multipath_yens.py:212-216 | an improved distance is that of a real walk, and keeps every other bound |
| `ShortestPaths.NoShorterWalk` | PythonScripts/multipath-f8c9ce712593c0746409ae142b8ae861a17ea458/ryu_multipath_yens.py:197-222 | no walk is shorter than a settled distance |
| `ShortestPaths.InStops` | PythonScripts/multipath-f8c9ce712593c0746409ae142b8ae861a17ea458/ryu_multipath_yens.py:197-222 | the stops of a walk are switches with links from each to the next, along which the measured delays add up to its cost |
| `ShortestPaths.OfStops` | PythonScripts/multipath-f8c9ce712593c0746409ae142b8ae861a17ea458/ryu_multipath_yens.py:197-222 | every such sequence of switches is a walk of that cost |
| `ShortestPaths.WalkBack` | PythonScripts/multipath-f8c9ce712593c0746409ae142b8ae861a17ea458/ryu_multipath_yens.py:177-190 | the previous map leads from every reached switch to the start along a walk of the recorded length |
| `ShortestPaths.SettledIsShortest` | PythonScripts/multipath-f8c9ce712593c0746409ae142b8ae861a17ea458/ryu_multipath_yens.py:197-222 | a settled distance is the minimum over all walks, infinite exactly when there is none |
| `Ipv4.MaskIs` | RYUNEW/ryu/ryu/app/rest_router.py:1884-1891 | the mask of length n has n leading ones |
| `Ipv4.ApplyIs` | RYUNEW/ryu/ryu/app/rest_router.py:1894-1899 | applying a mask rounds the address down to a multiple of the network size |
| `Ipv4.InNetIs` | RYUNEW/ryu/ryu/app/rest_router.py:1894-1899 | an address is in a network exactly when rounded down to the network's size it is the network's number |
| `Ipv4.MaskNests` | RYUNEW/ryu/ryu/app/rest_router.py:1894-1899 | a shorter mask absorbs a longer one |
| `Ipv4.Nested` | RYUNEW/ryu/ryu/app/rest_router.py:1894-1899 | prefixes with a common address are nested |
| `AddressTable.TestsAreExact` | RYUNEW/ryu/ryu/app/rest_router.py:1265-1273 | the two gateway tests of the overlap check find an overlap exactly when the networks share an address |
| `AddressTable.AddressData.Add` | RYUNEW/ryu/ryu/app/rest_router.py:1261-1285 | the network is registered exactly when it is disjoint, as a set of addresses, from all registered ones, which stay pairwise disjoint; ids count up |
| `AddressTable.AddressData.GetByIp` | RYUNEW/ryu/ryu/app/rest_router.py:1296-1305 | an entry whose network contains the address, or none when there is none |
| `AddressTable.AddressData.GetById` | RYUNEW/ryu/ryu/app/rest_router.py:1296-1305 | the entry with the id, or none when there is none |
| `AddressTable.AddressData.Delete` | RYUNEW/ryu/ryu/app/rest_router.py:1287-1291 | the entry with the id goes, and nothing else |
| `AddressTable.AtMostOne` | RYUNEW/ryu/ryu/app/rest_router.py:1296-1305 | an address is in at most one registered network |
| `AddressTable.FindsIsUnique` | RYUNEW/ryu/ryu/app/rest_router.py:1296-1305 | the look-up does not depend on the order of the dictionary |
| `AddressTable.AddKeepsTable` | RYUNEW/ryu/ryu/app/rest_router.py:1275-1283 | a disjoint network with a new id keeps the table in order |
| `RouteTable.RoutingTable.Add` | RYUNEW/ryu/ryu/app/rest_router.py:1325-1359 | refused exactly when the text of the destination is a key; otherwise the masked destination gets the new route, replacing one that is spelled differently |
| `RouteTable.RoutingTable.GetByDst` | RYUNEW/ryu/ryu/app/rest_router.py:1379-1391 | the route with the longest matching prefix, the default route failing that |
| `RouteTable.RoutingTable.Delete` | RYUNEW/ryu/ryu/app/rest_router.py:1361-1365 | the route with the id goes, and nothing else |
| `RouteTable.LongestIsUnique` | RYUNEW/ryu/ryu/app/rest_router.py:1379-1391 | the longest-prefix route is unique, so the order of the dictionary is immaterial (RFC 1812, section 5.2.4.3) |
| `RouteTable.NewRouteOk` | RYUNEW/ryu/ryu/app/rest_router.py:1328-1353 | the stored destination is the masked one, filed under its key |
| `RouteTable.DefaultMatches` | RYUNEW/ryu/ryu/app/rest_router.py:1388-1389 | with no match of positive length only the entry under the default key can match |
| `FlowTables.CookiesAreShifts` | RYUNEW/ryu/ryu/app/rest_router.py:626-649 | the cookie arithmetic is the shifts and masks of the code |
| `FlowTables.RouteCookieRoundTrip` | RYUNEW/ryu/ryu/app/rest_router.py:626-649 | a route's cookie gives back VLAN and route id if and only if the id has at most 16 bits |
| `FlowTables.AddressCookieRoundTrip` | RYUNEW/ryu/ryu/app/rest_router.py:626-649 | an address's cookie gives back VLAN and address id if and only if the id has at most 32 bits, and reads as a route's if and only if it has more than 16 |
| `FlowTables.SwitchFollowsTable` | RYUNEW/ryu/ryu/app/rest_router.py:168-192 | the matching route flow of highest priority belongs to the longest-prefix route, forwards exactly when the gateway's MAC address is known, and is the drop flow exactly when no route matches |
| `FlowTables.LongerWins` | RYUNEW/ryu/ryu/app/rest_router.py:168-192 | a longer matching prefix has a higher priority |
| `FlowSteps.SlotsDiffer` | RYUNEW/ryu/ryu/app/rest_router.py:168-192 | no two routes share match and priority |
| `FlowSteps.AddRouteStep` | RYUNEW/ryu/ryu/app/rest_router.py:787-797 | a new route keeps switch and table in agreement if and only if it is not a static route of length 0 over the default route |
| `FlowSteps.AddOtherStep` | RYUNEW/ryu/ryu/app/rest_router.py:721-752 | setting a flow that is no route's in a slot that is no route's keeps the agreement |
| `FlowSteps.DeleteOtherStep` | RYUNEW/ryu/ryu/app/rest_router.py:842-844 | deleting flows by cookie keeps the agreement if and only if none of them is a route flow |
| `FlowSteps.LearnMacStep` | RYUNEW/ryu/ryu/app/rest_router.py:1164-1191 | filling in a gateway's MAC address in all routes through it, and replacing the flows of those for which it is news by forwarding ones, keeps the agreement |
| `FlowSteps.RouteOfFlow` | RYUNEW/ryu/ryu/app/rest_router.py:902-908 | a flow with a route id in its cookie is the flow of the one route with that id |
| `VlanFlows.OtherVlansOk` | RYUNEW/ryu/ryu/app/rest_router.py:626-649 | what leaves the flows of other VLANs alone keeps their switch in agreement with their routing table |
| `VlanFlows.SlotsApart` | RYUNEW/ryu/ryu/app/rest_router.py:721-752 | priorities keep the flows of networks apart from those of routes |
| `VlanFlows.HostSlotApart` | RYUNEW/ryu/ryu/app/rest_router.py:1193-1213 | the flow of a learnt host is in no route's slot |
| `VlanFlows.NotEverything` | RYUNEW/ryu/ryu/app/rest_router.py:1261-1273 | next to a route no network of length 0 can be added |
| `RouterSteps.GatewayFound` | RYUNEW/ryu/ryu/app/rest_router.py:760-776 | the gateway test accepts exactly the addresses inside a registered network other than its own gateway |
| `RouterSteps.SetAddressStep` | RYUNEW/ryu/ryu/app/rest_router.py:721-758 | registering a network apart from all others, with its three flows, keeps the router in order: tables, gateways, the flows of every route and of every network; other VLANs' flows are untouched |
| `RouterSteps.NetworkSlotsDiffer` | RYUNEW/ryu/ryu/app/rest_router.py:721-752 | flows of networks that are apart never take each other's place |
| `RouterSteps.SetRouteStep` | RYUNEW/ryu/ryu/app/rest_router.py:760-797 | registering a route keeps the router in order if and only if it is not a static one of length 0 next to the default route or to a network of length 0 |
| `RouterSteps.NetworksWithRoute` | RYUNEW/ryu/ryu/app/rest_router.py:787-797 | the flow of a new route replaces a network's flow if and only if both are of length 0 and the route is not spelled as the default route |
| `RouterSteps.LearnGatewayStep` | RYUNEW/ryu/ryu/app/rest_router.py:1164-1191 | learning a gateway's MAC address keeps the router in order and other VLANs untouched |
| `RouterSteps.GatewayLearnt` | RYUNEW/ryu/ryu/app/rest_router.py:1164-1191 | the MAC address is entered for exactly the routes through the gateway, and exactly the flows of those for which it is news change |
| `RouterSteps.LearnHostStep` | RYUNEW/ryu/ryu/app/rest_router.py:1193-1213 | learning a host keeps the router in order and other VLANs untouched, and the host's flow is accounted to its network |
| `RouterSteps.ExpireStep` | RYUNEW/ryu/ryu/app/rest_router.py:1193-1213 | when a learnt host's flow expires, the router stays in order and other VLANs untouched |
| `RouterSteps.OtherRouterOk` | RYUNEW/ryu/ryu/app/rest_router.py:626-649 | what leaves the flows of other VLANs alone keeps their whole routers in order |
| `RouteDeletion.PickedGo` | RYUNEW/ryu/ryu/app/rest_router.py:886-917 | for every request and every order of the report, in all slots but the default route's exactly the picked flows go and nothing else changes |
| `RouteDeletion.DeletionRun` | RYUNEW/ryu/ryu/app/rest_router.py:886-917 | the loop leaves the same flows in every order of the report: those not picked, and the drop flow in place of a picked default route's, unless the request is for route 0 of VLAN 0 |
| `RouteDeletion.WithoutAgrees` | RYUNEW/ryu/ryu/app/rest_router.py:886-917 | these flows agree with the table without the routes asked for |
| `RouteDeletion.DeletedRoutes` | RYUNEW/ryu/ryu/app/rest_router.py:886-908 | what is left of the table is what the request asks for |
| `RouteDeletion.NetworkFlowsGo` | RYUNEW/ryu/ryu/app/rest_router.py:886-917 | in every order of the report the flows of attached networks and their hosts stay if and only if the request is not for route 0 |
| `RouteDeletion.SharedFlowsGo` | RYUNEW/ryu/ryu/app/rest_router.py:886-917 | a request for route 0 of VLAN 0 takes both shared flows away in every order of the report |
| `RouteDeletion.DeleteRoutesStep` | RYUNEW/ryu/ryu/app/rest_router.py:875-922 | in every order of the report a request to delete routes keeps the router in order if and only if it is not for route 0 of VLAN 0 or of a VLAN with attached networks; routes, flows and other VLANs afterwards are exact |
| `RouteDeletion.DeletionAgrees` | RYUNEW/ryu/ryu/app/rest_router.py:875-922 | the agreement survives every order of the report if and only if the request is not for route 0 of VLAN 0 |
| `RouteDeletion.RouteZero` | RYUNEW/ryu/ryu/app/rest_router.py:886-917 | route 0 of VLAN 0 picks the shared flows too; reported with the switching flow last, no default flow is left |
| `AddressDeletion.RelatedStay` | RYUNEW/ryu/ryu/app/rest_router.py:924-937 | no deletion takes the network of a route's gateway away |
| `AddressDeletion.FoundIsRelated` | RYUNEW/ryu/ryu/app/rest_router.py:924-937 | the look-up of a gateway finds the one network related to it |
| `AddressDeletion.PickedRouteFlows` | RYUNEW/ryu/ryu/app/rest_router.py:825-839 | the flows picked include a route's, the drop flow or one that all VLANs share if and only if the id is an alias of its cookie: 0 on VLAN 0 or without a default route, or a shifted route id |
| `AddressDeletion.NetworksKept` | RYUNEW/ryu/ryu/app/rest_router.py:825-846 | the networks that stay keep their flows, and no flow of a network that goes is left, those of its hosts included |
| `AddressDeletion.DeleteAddressStep` | RYUNEW/ryu/ryu/app/rest_router.py:811-856 | a request to delete networks keeps the router in order, shared flows included, if and only if its id is no such alias; other VLANs are untouched |
| `AddressDeletion.GoesWithItsFlow` | RYUNEW/ryu/ryu/app/rest_router.py:825-846 | whatever flows the switch has, a network goes if and only if it is asked for, is not left out and has a flow with its cookie |
| `AddressDeletion.UnreachedAreKept` | RYUNEW/ryu/ryu/app/rest_router.py:825-846 | on a router in order every network that is asked for and not left out goes |
| `AddressDeletion.DroppedAreGone` | RYUNEW/ryu/ryu/app/rest_router.py:837-853 | the networks that the loop deletes one by one are those that it does not leave |
| `NetworkRemoval.NetworksStuck` | RYUNEW/ryu/ryu/app/rest_router.py:886-917 | after a request for route 0, in every order of the report, no request deletes any network |
| `NetworkRemoval.ArpFrees` | RYUNEW/ryu/ryu/app/rest_router.py:1193-1213 | after it, an ARP packet from an attached network makes exactly that network deletable again, if and only if its sender is no route's gateway |
| `NetworkRemoval.ArpStillComes` | RYUNEW/ryu/ryu/app/rest_router.py:886-917 | after it, ARP packets still come to the controller if and only if the request was not for VLAN 0 |
| `VlanRouters.VlanRouter.constructor` | RYUNEW/ryu/ryu/app/rest_router.py:599-613 | a router starts in order, without networks, routes and waiting packets, with the drop flow; the flows of other VLANs stay |
| `VlanRouters.VlanRouter.Delete` | RYUNEW/ryu/ryu/app/rest_router.py:615-624 | tearing down takes exactly the flows of the VLAN off the switch, in whatever order they are reported, and then succeeds if and only if no packet waits |
| `VlanRouters.VlanRouter.SetAddress` | RYUNEW/ryu/ryu/app/rest_router.py:721-758 | the network is added exactly when it is disjoint from all others, with its three flows, whose matches, priorities and cookies are given in numbers; the router stays in order |
| `VlanRouters.VlanRouter.SetRoute` | RYUNEW/ryu/ryu/app/rest_router.py:760-797 | the route is added only through a usable gateway, the refusals are told apart exactly, and its entry and its flow, with match, priority and cookie, are given in numbers; the router stays in order if and only if the route displaces neither the default route nor a network's flow |
| `VlanRouters.VlanRouter.DeleteRoutes` | RYUNEW/ryu/ryu/app/rest_router.py:875-922 | exactly the routes asked for go from the table; the flows that go are told by the halves of their cookies, and but for route 0 of VLAN 0 they are the same in every order of the report; in order afterwards if and only if the request is not for route 0 of VLAN 0 or of a VLAN with attached networks |
| `VlanRouters.VlanRouter.DeleteAddresses` | RYUNEW/ryu/ryu/app/rest_router.py:811-856 | whatever flows the switch has, the networks that go are exact, so are the flows that go, told by the halves of their cookies, and exactly the waiting packets for networks that go are let go; on a router in order all go that are asked for and contain no route's gateway, and it is in order afterwards, shared flows included, if and only if the id is no alias |
| `VlanRouters.VlanRouter.RelatedIds` | RYUNEW/ryu/ryu/app/rest_router.py:924-937 | the ids of exactly those networks that contain a route's gateway |
| `VlanRouters.VlanRouter.UpdateRoutingTbl` | RYUNEW/ryu/ryu/app/rest_router.py:1164-1191 | exactly the routes through the sender get its MAC address, exactly the flows of those for which it is news send out by the port, from the port's MAC address to the sender's, nothing else changes, and the router stays in order |
| `VlanRouters.VlanRouter.LearnFromArp` | RYUNEW/ryu/ryu/app/rest_router.py:969-981 | a sender in an attached network that is no route's gateway gets a flow that sends out by the port its packet came in by, from the port's MAC address to its own, in the slot and with the cookie given in numbers, and nothing else changes; for a gateway the flow of each route for which its MAC address is news has that action; a sender outside the networks is not learnt |
| `VlanRouters.VlanRouter.SendArpAllGw` | RYUNEW/ryu/ryu/app/rest_router.py:1127-1131 | the address looked up for a gateway is always there; each gateway is asked for from the router's address in its network |
| `Forwarding.DecisionStands` | RYUNEW/ryu/ryu/app/rest_router.py:168-192 | for every packet, the flow that networks and routing table ask for is on the switch and matches |
| `Forwarding.VlanDecides` | RYUNEW/ryu/ryu/app/rest_router.py:168-192 | of all the VLAN's flows that match a packet, whatever they are for, that one has strictly the highest priority if and only if the packet is not one for which a static route of length 0 ties with the flow that learns hosts: a condition on tables and learnt hosts |
| `Forwarding.VlanFlowsBehind` | RYUNEW/ryu/ryu/app/rest_router.py:168-192 | no other matching flow of the VLAN comes ahead of it |
| `Forwarding.DecisionActs` | RYUNEW/ryu/ryu/app/rest_router.py:721-797 | what that flow does: packets to a gateway address go to the controller, those inside a network are switched, those to learnt hosts are sent out, those without network and route dropped, a route's sent out exactly when its gateway's MAC address is known; by which port and between which MAC addresses is `LearntRuns.DecisionSends` |
| `LearntRuns.HostStep` | RYUNEW/ryu/ryu/app/rest_router.py:1193-1213 | the flow of a host after any event is what an ARP packet from it teaches, or as it was |
| `LearntRuns.RouteStep` | RYUNEW/ryu/ryu/app/rest_router.py:1164-1191 | so is the flow of a route that forwards |
| `LearntRuns.HostRemembers` | RYUNEW/ryu/ryu/app/rest_router.py:1193-1213 | after every run on all VLANs of a switch the flow of a host has the port and the MAC addresses that the run last taught about it, or does what it did before |
| `LearntRuns.RouteRemembers` | RYUNEW/ryu/ryu/app/rest_router.py:1164-1191 | so has the flow of a route that forwards, from the last ARP packet of its gateway with a MAC address that was news |
| `LearntRuns.DecisionSends` | RYUNEW/ryu/ryu/app/rest_router.py:1164-1213 | after every good run from the start of a switch, on all its VLANs, the deciding flow to a learnt host, or of a route whose gateway is known, sends out by the port, from the MAC address and to the MAC address last learnt |
| `Forwarding.SwitchDecides` | RYUNEW/ryu/ryu/app/rest_router.py:168-192 | on a VLAN of its own that flow comes ahead of the matching flows of all VLANs if and only if the destination is no gateway address on VLAN 0 |
| `Forwarding.NetworkFlowsBehind` | RYUNEW/ryu/ryu/app/rest_router.py:721-752 | a network flow that matches a packet is one of the network with the destination, and not ahead of the decision |
| `Forwarding.RouteFlowsBehind` | RYUNEW/ryu/ryu/app/rest_router.py:787-797 | nor is a route flow, unless it is tied |
| `RouterRuns.Run` | RYUNEW/ryu/ryu/app/rest_router.py:692-1046 | every run of harmless requests, packets, timers and expiries on the router itself leaves it in order, with the tables, flows and waiting packets of the run on values |
| `RouterRuns.Handle` | RYUNEW/ryu/ryu/app/rest_router.py:692-1046 | each request, packet, timer or expiry takes the router itself from any state in order to exactly the next state of the run, waiting packets included, also when it is not harmless |
| `RouterRuns.EventOk` | RYUNEW/ryu/ryu/app/rest_router.py:692-937 | an event keeps the router in order if and only if it is harmless, in a sense that can be told before it from tables and request; other VLANs' flows stay in any case |
| `SwitchRuns.EveryRunForwards` | RYUNEW/ryu/ryu/app/rest_router.py:442-597 | after every run of good events on any number of VLANs, with routers made and torn down, for every packet on a VLAN with a router: the flow that its networks and routes ask for is there and matches, and of all the flows on the switch that match it has strictly the highest priority if and only if there is no tie and the destination is, on a VLAN of its own, no gateway address of VLAN 0 |
| `SwitchRuns.NextOk` | RYUNEW/ryu/ryu/app/rest_router.py:492-564 | an event keeps the routers of all VLANs in order, and no flow without a router, if and only if it is good: harmless to its router, and no tearing down while a packet waits |
| `SwitchRuns.DropOk` | RYUNEW/ryu/ryu/app/rest_router.py:509-518 | tearing the router of a VLAN down keeps the switch in order if and only if no packet waits: otherwise the router stays without its drop flow |
| `TearDowns.TearDown` | RYUNEW/ryu/ryu/app/rest_router.py:509-566 | after deleting all routes and all networks of a VLAN, which both are harmless, tearing its router down fails if and only if a packet waits whose destination was in none of the networks; then the router stays without a default flow |
| `Routers.Router.constructor` | RYUNEW/ryu/ryu/app/rest_router.py:442-470 | a switch starts with the three flows, given in numbers, and the router of VLAN 0, in order |
| `Routers.Router.AddVlanRouter` | RYUNEW/ryu/ryu/app/rest_router.py:501-507 | a router with empty tables is made for a VLAN without one, with its drop flow, and no other changes |
| `Routers.Router.DelVlanRouter` | RYUNEW/ryu/ryu/app/rest_router.py:509-518 | a router without networks and routes on another VLAN than 0 loses exactly the flows of its VLAN, and then its entry if and only if no packet waits; nothing changes for any other; the switch is in order afterwards if and only if the assertion holds |
| `Routers.Router.HandleOn` | RYUNEW/ryu/ryu/app/rest_router.py:568-585 | an event takes its VLAN's router to the next state of the run and leaves all others alone |
| `Routers.Router.Run` | RYUNEW/ryu/ryu/app/rest_router.py:442-597 | every run of good events on the routers themselves leaves all of them in order, in the state of the run on values, so that the theorem about forwarding holds of them |
| `SwitchRuns.StartIsOk` | RYUNEW/ryu/ryu/app/rest_router.py:442-470 | a switch starts in order, with the shared flows and the router of VLAN 0 |
| `RouterExceptions.StaticOverDefault` | RYUNEW/ryu/ryu/app/rest_router.py:1341-1353 | a route to 1.2.3.4/0 over the default route leaves that one's flow behind |
| `RouterExceptions.StaticOverNetwork` | RYUNEW/ryu/ryu/app/rest_router.py:787-797 | a route to 1.2.3.4/0 next to the network 0.0.0.0/0 replaces the flow that learns its hosts |
| `RouterExceptions.NetworkReplaced` | RYUNEW/ryu/ryu/app/rest_router.py:1341-1353 | a route to 1.2.3.4/24 replaces the one to 1.2.3.0/24, which spelled like that is refused |
| `RouterExceptions.StaticTies` | RYUNEW/ryu/ryu/app/rest_router.py:168-192 | next to 10.0.0.0/24, the route to 1.2.3.4/0 and the flow that learns hosts match a packet to 10.0.0.5 with one priority |
| `RouterExceptions.AddressIdOfRoute` | RYUNEW/ryu/ryu/app/rest_router.py:825-844 | deleting address id 65536 deletes the flow of route 1 |
| `RouterExceptions.AddressIdZero` | RYUNEW/ryu/ryu/app/rest_router.py:825-844 | deleting address id 0 next to one network deletes the drop flow |
| `RouterExceptions.AddressIdZeroShared` | RYUNEW/ryu/ryu/app/rest_router.py:825-844 | on VLAN 0 with a default route it deletes the flows for ARP and for normal switching |
| `RouterExceptions.RouteIdZero` | RYUNEW/ryu/ryu/app/rest_router.py:886-917 | deleting route id 0 without VLANs can leave no drop flow |
| `RouterExceptions.RouteIdZeroNetwork` | RYUNEW/ryu/ryu/app/rest_router.py:886-917 | deleting route id 0 on a VLAN of its own with one network removes that network's three flows, in every order of the report |
| `RouterExceptions.StuckUntilArp` | RYUNEW/ryu/ryu/app/rest_router.py:825-846 | then a request to delete all networks deletes none, and after an ARP packet from 10.0.0.5 it deletes the network |
| `RouterExceptions.RouteIdOverflows` | RYUNEW/ryu/ryu/app/rest_router.py:626-649 | the cookie of route 65536 is that of the next VLAN's own flows |
| `RouterExceptions.OtherVlansGateway` | RYUNEW/ryu/ryu/app/rest_router.py:168-192 | on VLAN 2 a packet to 10.0.0.1, a gateway address of VLAN 0, matches the drop flow but goes to the controller |
| `RouterExceptions.RoutedPacketWaits` | RYUNEW/ryu/ryu/app/rest_router.py:1089-1107 | a packet to 1.2.3.4 waits for 10.0.0.2 on its default route; the reply of 10.0.0.2 leaves it waiting, its timer lets it go |
| `RouterExceptions.WaitsIsReached` | RYUNEW/ryu/ryu/app/rest_router.py:509-566 | on a fresh switch VLAN 2 gets the network 10.0.0.0/24 and a default route, and a packet to 1.2.3.4 comes: a good run after which this packet waits |
| `RouterExceptions.TearDownFails` | RYUNEW/ryu/ryu/app/rest_router.py:615-624 | then all routes and networks are deleted, in any order of the reports: the packet still waits, and tearing down leaves the router of VLAN 2 without its drop flow |
| `SuspendedPackets.EveryRunIsOk` | RYUNEW/ryu/ryu/app/rest_router.py:1404-1433 | in every run at most 50 packets are held, no identity is held twice and none has left twice, and every packet ever added is held if and only if it has not left |
| `SuspendedPackets.OnlyTimersRelease` | RYUNEW/ryu/ryu/app/rest_router.py:1404-1433 | in every run of arrivals, timers, replies from attached networks and deletions of them, a held packet to none of them leaves exactly when its timer ends and for no other cause |
| `SuspendedPackets.SplitCount` | RYUNEW/ryu/ryu/app/rest_router.py:1414-1427 | what leaves and what stays make up what was held, each packet once |
| `SuspendedPackets.RemoveNext` | RYUNEW/ryu/ryu/app/rest_router.py:1421-1424 | removing the listed packets one by one never misses one |
| `PacketBuffers.PacketBuffer.LetGo` | RYUNEW/ryu/ryu/app/rest_router.py:1414-1424 | exactly the packets with the cause leave, the others stay in order |
| `PacketBuffers.PacketBuffer.Add` | RYUNEW/ryu/ryu/app/rest_router.py:1409-1412 | a packet goes to the end of the list with an identity of its own |
| `PacketBuffers.PacketBuffer.TimeIsUp` | RYUNEW/ryu/ryu/app/rest_router.py:1429-1433 | a timer lets the packet with its identity go, and no other, exactly if it is still held |
| `PacketBuffers.PacketBuffer.DropNetwork` | RYUNEW/ryu/ryu/app/rest_router.py:848-851 | a deleted network lets exactly the packets for its addresses go |
| `VlanRouters.VlanRouter.PacketInToNode` | RYUNEW/ryu/ryu/app/rest_router.py:1078-1109 | a packet is suspended exactly when fewer than 50 are held and an attached network or a route has its destination; the ARP request goes to destination or gateway from the router's own address, and the reply to it releases the packet if and only if the destination is in an attached network |
| `VlanRouters.VlanRouter.PacketInIp` | RYUNEW/ryu/ryu/app/rest_router.py:939-967 | an IP packet goes to the end of the list if and only if it is for none of the router's own addresses, fewer than 50 wait, and an attached network or a route has its destination; otherwise the list stays |
| `VlanRouters.VlanRouter.PacketInArp` | RYUNEW/ryu/ryu/app/rest_router.py:969-1046 | what becomes of an ARP packet is decided exactly by sender, target and opcode; if it is a reply from an attached network to one of the router's own addresses, exactly the packets for its sender are let go, and in all other cases the list stays; the sender is learnt |
| `ArpPackets.ReplyReleases` | RYUNEW/ryu/ryu/app/rest_router.py:1089-1107 | the reply to the request that a packet gave rise to releases it if and only if its destination is in an attached network |
| `WaitingRuns.DeletionReleases` | RYUNEW/ryu/ryu/app/rest_router.py:837-853 | a request to delete networks lets exactly the waiting packets to the deleted networks go |
| `WaitingRuns.AllNetworksGone` | RYUNEW/ryu/ryu/app/rest_router.py:837-853 | when a request has deleted all networks, exactly the packets that were for none of them still wait |
| `WaitingRuns.LeavesFor` | RYUNEW/ryu/ryu/app/rest_router.py:1404-1433 | in every event a packet leaves if and only if its timer ends, or an ARP reply to one of the router's own addresses comes from its destination in an attached network, or a network with its destination is deleted |
| `WaitingRuns.WaitsToTheEnd` | RYUNEW/ryu/ryu/app/rest_router.py:1404-1433 | in every run at whose end no network is left, a packet still waits if and only if its destination was in no attached network at any point of the run and its timer has not ended |
| `WisprTags.NextTagIs` | WISPR2Vlan/src/wispr_proto.c:547-568 | the n-th id of a session has packet number ((n-1) mod paths) + 1 and group ((n-1) div paths) mod groups |
| `WisprTags.NextNibbles` | WISPR2Vlan/src/wispr_proto.c:555-568 | the masks and additions step the two nibbles cyclically |
| `WisprTags.EgressReads` | WISPR2Vlan/src/wispr_proto.c:253-255 | the egress reads the same packet and group numbers off either copy, and the mode is never the parity mode |
| `WisprTags.NibblesOf` | WISPR2Vlan/src/wispr_proto.c:253-255 | what the egress reads from any id: its three low hexadecimal digits |
| `WisprTags.MirrorBit` | WISPR2Vlan/src/wispr_proto.c:1080-1081 | the mirror bit adds 256 where it is not set |
| `WisprTags.TagReuse` | WISPR2Vlan/src/wispr_proto.c:547-568 | two packets of a session share an id if and only if their numbers agree modulo paths times groups |
| `WisprDelivery.Ingress.ProcessIngress0` | WISPR2Vlan/src/wispr_proto.c:530-589 | the two copies of a session's n-th packet carry packet number ((n-1) mod paths) + 1 and group ((n-1) div paths) mod groups, and the second copy 256 more |
| `WisprDelivery.Egress.ProcessWispr0Vlan` | WISPR2Vlan/src/wispr_proto.c:253-308 | a frame is forwarded exactly when its third nibble is not 3 and its entry, by its second and first nibble, is more than 600 ago or there is one path; then exactly that entry is overwritten |
| `WisprDelivery.Egress.GetOrAddMirrorSession` | WISPR2Vlan/src/wispr_proto.c:832-849 | a missing session is added with all times zero |
| `WisprDelivery.EntryIsLastFirst` | WISPR2Vlan/src/wispr_proto.c:268-273 | after a timely run an entry holds the time of the last first arrival with its tag |
| `WisprDelivery.ForwardsFirst` | WISPR2Vlan/src/wispr_proto.c:268-306 | in a timely run an arrival is forwarded exactly when it is the first of its packet |
| `WisprDelivery.ForwardsFirstArrivals` | WISPR2Vlan/src/wispr_proto.c:268-306 | in every timely run exactly the first arrivals are forwarded if and only if there is more than one path or no packet arrives twice |
| `WisprDelivery.ExactlyOnce` | WISPR2Vlan/src/wispr_proto.c:268-306 | a packet of which a copy arrives is forwarded exactly once, under any interleaving |
| `WisprDelivery.OnePathForwardsAll` | WISPR2Vlan/src/wispr_proto.c:271 | with one path every arrival is forwarded |
| `WisprDelivery.OnePathTwice` | WISPR2Vlan/src/wispr_proto.c:271 | two copies of one packet over one path are both forwarded |
| `Frames.SendPacketWithKey` | WISPR2Vlan/src/wispr_proto.c:1041-1082 | the two buffers sent are the frame with 0x8100 and the id twice behind the MAC addresses, byte by byte, with bit 8 of the id set in the second one; the rest of the buffer is unchanged |
| `Frames.Strip` | WISPR2Vlan/src/wispr_proto.c:289-303 | the buffer sent is the frame without bytes 12 to 15, and the whole new buffer is known |
| `Frames.TwoTagBytes` | WISPR2Vlan/src/wispr_proto.c:1041-1082 | the eight bytes that two tags insert |
| `Frames.TwoTagRoundTrip` | WISPR2Vlan/src/wispr_proto.c:1041-1082 | stripping either copy twice restores the frame byte for byte, and both tags read as the id |
| `Frames.UntagsTagged` | WISPR2Vlan/src/wispr_proto.c:289-303 | stripping undoes tagging, whatever the tag |
| `Frames.SameSession` | WISPR2Vlan/src/wispr_proto.c:226-228 | of a frame with one tag left the egress reads the key that the ingress read; of one with two it reads other bytes, and the same key if and only if the four bytes in front of the addresses and both addresses are the same |
| `Frames.OtherSession` | WISPR2Vlan/src/wispr_proto.c:226-228 | a frame whose two keys differ |
| `WisprRuns.EndToEnd` | WISPR2Vlan/src/wispr_proto.c:530-589 | from frames at the ingress to frames behind the egress, on the classes and buffers themselves: for every timely run of copies that reach the egress with one tag left, in any interleaving, the frames sent on are those of the first arrivals, byte for byte; with one path, if no frame arrives twice |
| `WisprRuns.FirstsOnce` | WISPR2Vlan/src/wispr_proto.c:268-306 | the frames of the first arrivals are exactly those of which a copy arrives, each once, and of two of them a copy of the earlier one arrives before any of the later |
| `WisprRuns.SendAll` | WISPR2Vlan/src/wispr_proto.c:530-589 | each frame is sent twice, byte by byte: with n the number of frames up to it with the same bytes 26 to 33, its tags hold packet number ((n-1) mod paths) + 1 and group ((n-1) div paths) mod groups, and the second copy the mirror bit |
| `WisprRuns.ReceiveAll` | WISPR2Vlan/src/wispr_proto.c:217-308 | the egress sends on exactly the frames of the first arrivals, in that order |
| `WisprRuns.Receive` | WISPR2Vlan/src/wispr_proto.c:217-308 | the session is bytes 30 to 37 and the id is in bytes 14 and 15; the frame is sent on without bytes 12 to 15 exactly when the mode is not 3 and its entry is more than 600 ago or there is one path |
| `WisprRuns.CopyReads` | WISPR2Vlan/src/wispr_proto.c:226-255 | of a copy with one tag left the egress reads its session and its id, and without that tag it is the original frame |
| `WisprRuns.NumbersDiffer` | WISPR2Vlan/src/wispr_proto.c:530-568 | session and number tell any two frames apart |
| `WisprRuns.SameKey` | WISPR2Vlan/src/wispr_proto.c:539-540 | frames are of one session exactly when their bytes 26 to 33 are the same |
| `WisprRuns.NumberIs` | WISPR2Vlan/src/wispr_proto.c:530-568 | a frame's number counts the frames up to it with the same bytes 26 to 33 |
| `WisprRuns.DeliversMeans` | WISPR2Vlan/src/wispr_proto.c:268-306 | what the network must promise, in bytes and times: copies in the order of their times, those of one frame at most 600 apart, and frames with the same addresses whose numbers agree modulo paths times groups more than 600 apart |
| `IpFrag.RawIphdrUdp4Send` | ipFrag.c:20-105 | too long a datagram is refused, exactly if 28 more than its length is above 65535 and below 2^32; when the MTU has room for the headers and the length does not wrap around, no packet is longer than the MTU; when no send fails, one packet goes out if and only if header and datagram fit the MTU or the MTU is at most 28; otherwise each fragment is the part of the payload its offset names, the next one begins where it ends, only the last one is not marked, and the others are as long as a multiple of 8 can be |
| `IpFrag.SendFragments` | ipFrag.c:47-102 | the loop sends exactly the counted pieces, in order, stopping at the first failure |
| `IpFrag.SizesSplitRoom` | ipFrag.c:50-51 | the masks split the room after the IP header into a multiple of 8 and a rest |
| `IpFrag.CountIsLeast` | ipFrag.c:52-57 | the count is the least number of fragments that suffices when the last may use the rest, is at least two, and leaves the last one non-empty and within the room |
| `IpFrag.PieceAt` | ipFrag.c:57-99 | each piece begins at a multiple of 8 below 2^16, none is empty or longer than the room, all but the last have MF set |
| `IpFrag.OffsetWord` | ipFrag.c:84-99 | offsets fit in 13 bits and do not meet the flag (RFC 791, section 3.1) |
| `IpFrag.HowRead` | ipFrag.c:84-99 | the receiver reads the offset as the low 13 bits times 8, and the flag in the bit above them (RFC 791, section 3.1) |
| `IpFrag.PieceMeans` | ipFrag.c:57-99 | where each fragment begins and ends, what it carries, and that it is marked exactly when it is not the last, in numbers |
| `IpFrag.ExactCover` | ipFrag.c:64-99 | every byte of UDP header and buffer is carried by exactly one fragment, at its place |
| `IpFrag.ReassemblesToPayload` | ipFrag.c:64-99 | the fragments, arriving in any order and any number of times, reassemble to UDP header and buffer (RFC 791, section 3.2) |

## Left out

- Hash function bodies, the Bloom filter, `HASH_SELECT`, the in-order add and failing allocation.
- 32-bit overflow of the hash table's counters; the table object and the head pointer are one object, and elements are addresses whose handle fields are maps.
- Yen's outer loop: it decides the candidate paths after the first with a blanket exception handler.
- Group ids, bucket weights and loop-freedom of combined paths in `install_paths`, and `switch_leave_handler`: the code establishes no property of them.
- Creation of empty entries by look-ups in the controllers' default dictionaries: an absent entry and an empty one are the same here.
- `dijkstra` with a destination that is falsy (switch 0 or none) returns the two dictionaries, which is `Yen.Dijkstra`; `Yen.DijkstraTo` is the other branch.
- Delays are reals and time stamps integers, where the program has doubles.
- Parsing of address texts: a destination is an address, a length and whether its text is a key of the table.
- Flows that a switch holds before the router starts, and reports that are cut off by the statistics timeout.
- The OpenFlow 1.0 and 1.2 variants of flow deletion, TTL and ICMP handling, and the REST layer.
- Ids above 65535: the router's steps require them to be at most that, the bound up to which cookies give them back.
- VlanRouters.VlanRouter.SetRoute: the ARP requests that follow are not part of its contract; like all sends they are messages only.
- What a router's methods do after an event that left it out of order, other than `VlanRouters.VlanRouter.DeleteAddresses`: they are modelled on routers in order, and the first event after that one is given on values (`NetworkRemoval.ArpFrees`).
- Handlers of suspended packets that overlap: each is one atomic step, and killing a timer is removing its packet.
- The parity mode of the redundancy protocol, the GRE variant and processing by host tables.
- Tags whose group or packet number is outside the egress's table: the protocol's ingress does not send them.
- The length check of `ipFrag.c` is written around a macro that is not part of this model; it is read as a bound on the total length.
- Total length, checksum and identification fields of IP fragments, and building the IP and UDP headers.
