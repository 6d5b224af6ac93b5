# SCONE and the NetFPGA transmit path, modelled in Dafny

SCONE is the software control plane of a NetFPGA router: link-state routing, shortest paths, a
longest-prefix table mirrored into hardware, ARP, address translation and a content-name table. Below
it a kernel driver feeds a ring of transmit buffers. The modules follow the program's files.

| file | what it models |
|---|---|
| `PwospfTypes`, `LinkedList`, `Sweep`, `Selection` | the shared records and bit masks; the doubly linked list behind every table, the sweep over one, and what it means to keep or copy the chosen elements |
| `Advertisements`, `Neighbors`, `LinkState`, `Flooding` | the link-state protocol: the merge of updates, hellos and timeouts, the update handler on a router's lists, and the whole network as a step system |
| `ShortestPath`, `Routes`, `Forwarding`, `LoopFree` | hop counts, route wrappers, the finished routes, and what the routes of all routers do together |
| `TransmitRing`, `TransmitProtocol`, `TransmitStranding`, `TransmitErrors` | the driver's ring, the interleavings of its threads, the packets they leave behind, and the error path |
| `RoutingTable` | lookup, order and the 32 hardware rows |
| `IpChecksum`, `Nat` | one's-complement sums (RFC 1071), forwarding, and incremental adjustment under translation (section 4.2 of RFC 3022) |
| `ArpQueue`, `ArpCache` | packets that wait for an address; the cache and its hardware copy |
| `ContentTable` | lookup, announcement and deletion of named contents |
| `UrlCodec` | the percent encoding |

How the layers fit: `Neighbors` keeps our own entry in step with the neighbours heard, and its subnets
masked; masked advertisements are what makes the merge in `Advertisements` exact; `LinkState` proves that
the handler on lists takes the steps of the network in `Flooding`, over whose runs the databases agree;
`ShortestPath` and `Routes` compute on such a database; and `Forwarding` uses what `Neighbors` proved about
our own entry to show that every first hop is a neighbour heard on a port. A run of the path computation
relies on earlier ones only through the predecessors they left, and `ShortestPath` proves what those keep over
any sequence of topologies; `LoopFree` adds the routers up: on one topology their routes bring a packet one hop
nearer each. Each state-changing operation is a
method proved against a function on values, and the properties are lemmas about those functions. Some of
these say in the terms of the protocol what an operation yields: which elements stay and in what order, who is sent
which packet, what a row or a register holds, and how long an entry lasts.

Where the code does not meet the property its design suggests, there is a concrete input or schedule and,
beside it, the exact condition: `MergeExactIff`, `RunMirrorsIff`, `RunNamesIff`, `JudgedIsLinking`, `DirectRouteIff`, `RoutedIff`,
`StrandsIff`, `ClearFlagsDamagesIff`, `DrainBalancesIff`, `FirstMatchIsLongestIff`, `UniqueTestRightIff`,
`ReplyReturnsIff`, `ZeroUdpAcceptedIff`, `EchoReplyAcceptedIff`, `ZeroAddressHitsIff`, `AddStoresIff`,
`RoundTripBackIff`.

Inputs: the clock is a parameter of each call; the random ports drawn, the routing table seen by ARP and the
interfaces of the machine are parameters as well. Register
writes are updates of an array of rows, searched from the lowest, and output port 0 means a miss.

## Model

| member | source | states |
|---|---|---|
| `Flooding.RunAgrees` | projects/scone/sw-origin/or_pwospf.c:313-441 | over every run of deliveries, losses, duplications, timeouts and configuration changes, a list stored under sequence number s is, as a set, what its origin advertised under s, until that origin's 16-bit numbers wrap |
| `Flooding.StepKeepsInv` | projects/scone/sw-origin/or_pwospf.c:330-391 | one step of the network keeps the invariant behind the agreement: times to live within 1..64, masked advertisements, every packet and entry backed by the origin's log |
| `Flooding.StepRaisesSeqno` | projects/scone/sw-origin/or_pwospf.c:340-366 | while an entry is kept its number never falls, and an accepted update sets it to a larger one |
| `Flooding.SeqnoGrows` | projects/scone/sw-origin/or_pwospf.c:340-366 | between any two states of a run in which an entry is kept, its number does not decrease |
| `Flooding.AcceptedOnce` | projects/scone/sw-origin/or_pwospf.c:340-366 | in the life of an entry a given (router, number) is accepted, and so sent on, at most once |
| `Flooding.ReceiveSends` | projects/scone/sw-origin/or_pwospf.c:369-391 | a refused update changes nothing; whatever an accepted one puts on the wire is a copy with a strictly lower positive time to live or a first-hand flood, and no copy goes to the address it came from |
| `Flooding.FloodFloods` | projects/scone/sw-origin/or_pwospf.c:789-858 | a flood puts our list, entry by entry, under our number and with a time to live of 64 on the wire for every link, takes the number and changes nothing else; with broadcasting off nothing happens |
| `Flooding.DeliverySpreads` | projects/scone/sw-origin/or_pwospf.c:330-403 | what a delivery does in full: a newer update is stored, a copy that lives one hop less goes over every link but those to the address it came from, in order, and a flood follows exactly if it is news; any other changes nothing |
| `Flooding.NeighborIsSent` | projects/scone/sw-origin/or_pwospf.c:369-391 | so every neighbour elsewhere has an accepted update with two hops or more to live on its way to it |
| `Flooding.NewsIff` | projects/scone/sw-origin/or_pwospf.c:347-366 | an update is news iff its router or its list was unknown, or some advertisement is stored and not told, or told and not stored |
| `Flooding.TimeoutForgets` | projects/scone/sw-origin/or_pwospf.c:1190-1240 | a timeout forgets exactly the given entries and floods iff there was one; a refresh floods |
| `Flooding.StepPotential` | projects/scone/sw-origin/or_pwospf.c:369-391 | no step but a duplication raises the potential (d+1)^ttl summed over the packets of one update, and each delivery lowers it |
| `Flooding.FloodDiesOut` | projects/scone/sw-origin/or_pwospf.c:369-391 | over any run, duplications included, the deliveries of one update are at most its potential at the start plus (d+1)^64 for each duplication, as long as no router has more than d neighbours and the origin does not use the number again |
| `Flooding.UnduplicatedFloodDiesOut` | projects/scone/sw-origin/or_pwospf.c:369-391 | without duplications the potential at the start is the bound |
| `Flooding.FloodStartsBounded` | projects/scone/sw-origin/or_utils.c:161-166 | a flood starts with a potential of at most d times (d+1)^64 |
| `Flooding.UpdateIsBounded` | projects/scone/sw-origin/or_pwospf.c:369-391 | from a network that has just started, while the origin's numbers have not wrapped, each update is delivered at most (d + n) times (d+1)^64 in any run, d bounding the neighbours of a router and n counting the duplications of its packets |
| `LinkState.ReceiveIsLocal` | projects/scone/sw-origin/or_pwospf.c:313-403 | a delivery step of the network is the receiving router's own step plus the packets it sends |
| `LinkState.ExpireIsLocal` | projects/scone/sw-origin/or_pwospf.c:1176-1240 | a timeout step of the network is the router's own step plus the packets it sends |
| `LinkState.PlainMerge` | projects/scone/sw-origin/or_pwospf.c:602-732 | the merge of advertisements does not look at the active flags |
| `LinkState.RouterState.ProcessLsu` | projects/scone/sw-origin/or_pwospf.c:313-403 | the handler on the router's own lists stores, relays and floods exactly what the delivery step of the network says, in that order; the origin of an accepted update is heard now, and no other router; after a change every flag is settled |
| `LinkState.RouterState.Learn` | projects/scone/sw-origin/or_pwospf.c:340-366 | an update is stored iff its origin is unknown or its number larger; its entry then has the time of the update, and no other router's time changes; a change is reported iff the advertised set is news |
| `LinkState.RouterState.AddNewRouter` | projects/scone/sw-origin/or_pwospf.c:411-441 | an unknown origin gets one entry at the end of the list with the masked advertisements |
| `LinkState.RouterState.BroadcastLsu` | projects/scone/sw-origin/or_pwospf.c:454-526 | the packets added are one copy for every neighbour of every active interface, sent from that interface's address, in the order of the two walks, but for a neighbour at the address the update came from |
| `LinkState.CopiesReach` | projects/scone/sw-origin/or_pwospf.c:466-522 | the copies, place by place of the two nested walks |
| `LinkState.RouterState.ConstructLsu` | projects/scone/sw-origin/or_pwospf.c:816-858 | an update of our own carries our list and the next number, which is then raised by one modulo 65536 |
| `LinkState.RouterState.StartLsuFlood` | projects/scone/sw-origin/or_pwospf.c:789-812 | with broadcasting on, our list under our number is queued for every neighbour of every active interface; with it off, nothing changes |
| `LinkState.RouterState.DetermineActiveInterfaces` | projects/scone/sw-origin/or_pwospf.c:753-784 | settles one router's flags, and brings those of the routers before it up to date |
| `LinkState.RouterState.Propagate` | projects/scone/sw-origin/or_pwospf.c:735-750 | afterwards every flag is exactly what the database says, and our own update is queued |
| `LinkState.JudgedIsLinking` | projects/scone/sw-origin/or_pwospf.c:753-784 | an entry is active if and only if the router it names lists the same subnet with a neighbour, or an entry that the walk comes to later names its owner on that subnet |
| `LinkState.ActiveIffAnswered` | projects/scone/sw-origin/or_pwospf.c:753-784 | where links are mutual, an entry is active iff the router it names has an entry for the same subnet and mask, both with a neighbour |
| `LinkState.OneSidedLinkIsActive` | projects/scone/sw-origin/or_pwospf.c:753-784 | an entry that a later one asks for is active although its own router does not answer |
| `LinkState.RouterState.ExpireRouters` | projects/scone/sw-origin/or_pwospf.c:1176-1240 | exactly the routers silent for three intervals are forgotten, never our own entry, and a flood follows iff one was; the same as the timeout step of the network |
| `LinkState.RouterState.HearNow` | projects/scone/sw-origin/or_pwospf.c:343-361 | after an accepted update its origin is in the list, last heard at the time of the update |
| `LinkState.RouterState.ServeAll` | projects/scone/sw-origin/or_pwospf.c:1190-1240 | over any work of updates from others and checks, a router is in the list iff every check since its last accepted update was made within three intervals of it |
| `LinkState.RunSetsGoodOwn` | projects/scone/sw-origin/or_pwospf.c:816-858 | the own entry that any run of hellos and timeouts leaves is one the agreement of the databases allows to be advertised |
| `Advertisements.MergeStores` | projects/scone/sw-origin/or_pwospf.c:602-732 | the set stored after a merge, for every list and packet: from a non-empty list an advertisement survives if it arrived masked or was stored already |
| `Advertisements.MergeExactIff` | projects/scone/sw-origin/or_pwospf.c:602-732 | the stored set equals the advertised one iff the list was empty or every advertisement arrived masked or was stored in masked form |
| `Advertisements.MaskedMergeIsExact` | projects/scone/sw-origin/or_pwospf.c:602-732 | masked advertisements are merged exactly, despite the subnet being masked with itself |
| `Advertisements.FreshIs` | projects/scone/sw-origin/or_pwospf.c:615-645 | an empty list takes every advertisement, masked, inactive and in the order of the packet |
| `Advertisements.MergeKeepsOrder` | projects/scone/sw-origin/or_pwospf.c:602-732 | a merge of masked advertisements leaves the entries advertised still in their order, and behind them the new ones, once each and in theirs |
| `Advertisements.UnmaskedAdvertisementIsLost` | projects/scone/sw-origin/or_pwospf.c:679 | an unmasked advertisement that reaches a non-empty list is lost |
| `Advertisements.PopulateInterfaceList` | projects/scone/sw-origin/or_pwospf.c:602-732 | the list becomes the merge, and the result tells whether the set changed; from an empty list it is always yes |
| `Neighbors.MirrorReads` | projects/scone/sw-origin/or_pwospf.c:73-133 | mirroring entry by entry: each nonzero id as often as among the neighbours, and one blank entry iff there is none |
| `Neighbors.StartMirrors` | projects/scone/sw-origin/or_main.c:409-458 | a freshly started router mirrors its ports |
| `Neighbors.HelloMirrorsIff` | projects/scone/sw-origin/or_pwospf.c:46-163 | a hello keeps the mirror of its port if and only if it names a nonzero router or fails the test of interval or mask |
| `Neighbors.RunMirrors` | projects/scone/sw-origin/or_pwospf.c:46-163 | over any run of hellos and timeouts in which no accepted hello names router zero, our entry mirrors the neighbours of every port |
| `Neighbors.RunMirrorsIff` | projects/scone/sw-origin/or_pwospf.c:46-163 | the mirror holds all along a run if and only if no hello that passes the tests of its port names router zero |
| `Neighbors.DropNamesIff` | projects/scone/sw-origin/or_pwospf.c:259-295 | the timeout of one neighbour leaves a live one unnamed iff the neighbour called itself zero and the subnet has a single entry |
| `Neighbors.StepNamesIff` | projects/scone/sw-origin/or_pwospf.c:234-309 | no hello leaves a live neighbour unnamed; a sweep of a port does iff it comes to a due neighbour called zero while the subnet has a single entry, and a neighbour with an id stays |
| `Neighbors.RunNamesIff` | projects/scone/sw-origin/or_pwospf.c:46-309 | every live neighbour is named all along a run if and only if no sweep of the run does that |
| `Neighbors.RunKeepsEntries` | projects/scone/sw-origin/or_pwospf.c:234-309 | over any run every port keeps an entry, so the assertion that the count is positive holds |
| `Neighbors.RunKeepsMasked` | projects/scone/sw-origin/or_pwospf.c:73-133 | over any run the subnets in our own entry stay masked, which the merge at the peers relies on |
| `Neighbors.RunKeepsNames` | projects/scone/sw-origin/or_pwospf.c:73-133 | over any run our own entry names neighbours only on the subnets of ports |
| `Neighbors.HelloIsHeard` | projects/scone/sw-origin/or_pwospf.c:46-163 | a hello with our interval and mask gives its own entry the time of the hello, or appends it; no other neighbour changes; any other hello changes nothing |
| `Neighbors.SweepLeaves` | projects/scone/sw-origin/or_pwospf.c:234-309 | a sweep leaves, in order, exactly the neighbours heard within three intervals of the reading for each, and no other port changes |
| `Neighbors.HelloLasts` | projects/scone/sw-origin/or_pwospf.c:144-247 | a neighbour stays through every run after its hello whose sweeps of the port read the clock within three intervals of it |
| `Neighbors.RunHears` | projects/scone/sw-origin/or_pwospf.c:144-247 | the same from any state in which it was heard at that time or later |
| `Neighbors.RunForgets` | projects/scone/sw-origin/or_pwospf.c:144-247 | after any run with no later hello, a sweep whose readings are all more than three intervals after the last one removes it |
| `Neighbors.BlankNeighborBreaksMirror` | projects/scone/sw-origin/or_pwospf.c:259-295 | a run from a mirroring router in which a neighbour that calls itself zero makes a timeout blank the entry of another, live neighbour, which is then named no more |
| `Neighbors.ProcessHello` | projects/scone/sw-origin/or_pwospf.c:46-163 | a hello with our interval and mask refreshes a known neighbour or adds a new one to the port and to our entry; any other changes nothing |
| `Neighbors.DetermineTimedoutInterface` | projects/scone/sw-origin/or_pwospf.c:234-309 | the sweep of `SweepLeaves`: the neighbours silent for three hello intervals leave the port, and our entry follows, the last one blanked |
| `ShortestPath.ComputeDistances` | projects/scone/sw-origin/or_dijkstra.c:54-79 | on exit every distance is the least number of hops over active links, 0xFFFFFFFF exactly for unreachable routers; the loop terminates, the special first round included |
| `ShortestPath.DistancesByLinks` | projects/scone/sw-origin/or_dijkstra.c:179-199 | read off the interface lists: zero is ours, every other reached router is named by an active entry of one that is a hop nearer, and no active entry leads more than one hop further |
| `ShortestPath.SearchIsCorrect` | projects/scone/sw-origin/or_dijkstra.c:54-79 | labels that are sound, settled and nearest-first are true hop counts |
| `ShortestPath.RoundKeepsState` | projects/scone/sw-origin/or_dijkstra.c:179-199 | relaxing the links of the nearest open router keeps the search invariant |
| `ShortestPath.NextRound` | projects/scone/sw-origin/or_dijkstra.c:70-79 | a round lowers the measure: open routers, plus one for the first round |
| `ShortestPath.RouterCount` | projects/scone/sw-origin/or_dijkstra.c:179-199 | distinct nonzero 32-bit ids leave room, so a hop count is never the infinite distance and distance + 1 never wraps |
| `ShortestPath.SearchKeepsAnchor` | projects/scone/sw-origin/or_dijkstra.c:54-79 | whatever topology a search runs on, it keeps predecessors that lead down to us: `prev_router` is never cleared, and the chain still ends |
| `ShortestPath.RunsStayAnchored` | projects/scone/sw-origin/or_dijkstra.c:54-79 | so do any number of searches, over any topologies, as routers join |
| `ShortestPath.Recompute` | projects/scone/sw-origin/or_dijkstra.c:54-79 | a search on the predecessors of earlier ones is exact, writes those of the routers it reaches and no others, and leaves them fit for the next |
| `ShortestPath.GetRouterByRid` | projects/scone/sw-origin/or_dijkstra.c:146-155 | the first router with the id, or none |
| `ShortestPath.GetShortest` | projects/scone/sw-origin/or_dijkstra.c:159-175 | the nearest reached router that is still open, or none when none is left |
| `ShortestPath.UpdateNeighborDistance` | projects/scone/sw-origin/or_dijkstra.c:179-199 | exactly the open routers that an active link leads to and brings nearer are relabelled |
| `Routes.ChainIsPath` | projects/scone/sw-origin/or_dijkstra.c:231-241 | the predecessor chain read from the source is a path as long as the hop count, one hop a link |
| `Routes.FirstHopIsOnShortestPath` | projects/scone/sw-origin/or_dijkstra.c:231-241 | the walk along predecessors ends at a router that begins a shortest path and that one of our own active interfaces names |
| `Routes.NextRid` | projects/scone/sw-origin/or_dijkstra.c:231-241 | the walk terminates, whatever earlier runs left, and returns that router's id for a reachable router; for an unreachable one, where its old predecessors lead, or without any the id of the advertised interface |
| `Routes.WalkEndIsHop` | projects/scone/sw-origin/or_dijkstra.c:231-241 | for a reachable router old predecessors play no part: the walk ends at the first hop of this search |
| `Routes.FarRidIs` | projects/scone/sw-origin/or_dijkstra.c:231-241 | an unreached router is laid at the end of the walk along the predecessors it still has, step by step, or at the neighbour of the advertised interface |
| `Routes.TableIsExact` | projects/scone/sw-origin/or_dijkstra.c:215-283 | one wrapper a subnet, with the first best offer, direct iff we offer it ourselves |
| `Routes.FewRoutersAreShort` | projects/scone/sw-origin/or_dijkstra.c:31-37 | with fewer than 65536 routers every hop count fits the 16-bit field below its infinite value |
| `Routes.RoutesAreExact` | projects/scone/sw-origin/or_dijkstra.c:201-283 | every advertised (masked subnet, mask) has exactly one wrapper, with the least distance over all advertisers, the first hop of a shortest path, and the direct mark iff our own router advertises it |
| `Routes.BuildRouteWrapperList` | projects/scone/sw-origin/or_dijkstra.c:201-212 | the nested loops produce such a list, whatever predecessors earlier runs left to unreachable routers |
| `Forwarding.FinishRoute` | projects/scone/sw-origin/or_dijkstra.c:94-121 | the interface is the first that hears the next router, or else the first on the subnet; the gateway is that neighbour's address; the asserted neighbour exists |
| `Forwarding.FinishRoutes` | projects/scone/sw-origin/or_dijkstra.c:85-133 | one route for each wrapper that has an interface, in order |
| `Forwarding.RunOwnEntryOk` | projects/scone/sw-origin/or_pwospf.c:46-163 | what the route computation asks of our own entry holds after every run of hellos and timeouts |
| `Forwarding.PortsAdvertised` | projects/scone/sw-origin/or_dijkstra.c:106-118 | the subnet of every port is a direct wrapper, so the assertion on the neighbour never fails |
| `Forwarding.RemoteRoutesLead` | projects/scone/sw-origin/or_dijkstra.c:94-121 | a reachable subnet that is not ours gets a route whose gateway is a heard neighbour that begins a shortest path to its nearest advertiser |
| `Forwarding.DirectRouteIff` | projects/scone/sw-origin/or_dijkstra.c:97-98 | a subnet of ours leaves by an interface on that subnet iff no earlier interface hears the same neighbour |
| `Forwarding.ParallelIsMirrored` | projects/scone/sw-origin/or_pwospf.c:73-133 | the two-router example with two links is one that hellos lead to |
| `Forwarding.ParallelLinksMisdirect` | projects/scone/sw-origin/or_dijkstra.c:313-336 | every computation for it routes the subnet of the second link by the first |
| `Forwarding.RoutesAreOneEach` | projects/scone/sw-origin/or_dijkstra.c:85-133 | no subnet has two routes |
| `Forwarding.RoutesAreMarked` | projects/scone/sw-origin/or_dijkstra.c:85-133 | every computed route is active and dynamic, and has no gateway if the subnet is our own |
| `Forwarding.TableLeads` | projects/scone/sw-origin/or_dijkstra.c:85-133 | the table has exactly one route for every reachable subnet that is not ours, by a heard neighbour that begins a shortest path to a nearest advertiser |
| `Forwarding.RoutedIff` | projects/scone/sw-origin/or_dijkstra.c:94-121 | whatever its distance, a subnet that is not ours is routed iff the router its wrapper names is heard on a port: the unreachable ones too |
| `Forwarding.CutOffIsRouted` | projects/scone/sw-origin/or_dijkstra.c:94-121 | a topology in which a subnet at infinite distance is routed |
| `Forwarding.ComputeRtable` | projects/scone/sw-origin/or_dijkstra.c:48-143 | distances, wrappers and routes of one run on a list that any earlier runs have left: it ends, the wrappers are exact, the table leads, and the list is fit for the next run |
| `LoopFree.GatewayForwards` | projects/scone/sw-origin/or_dijkstra.c:94-121 | the gateway of a computed route is the address of a router that begins a shortest path to a nearest advertiser |
| `LoopFree.HopDescends` | projects/scone/sw-origin/or_dijkstra.c:231-241 | the first hop of a shortest path computes a distance one smaller on the same topology |
| `LoopFree.SubnetDescends` | projects/scone/sw-origin/or_dijkstra.c:215-283 | and so for the distance to a subnet, though it may head for another advertiser |
| `LoopFree.TripIsLoopFree` | projects/scone/sw-origin/or_dijkstra.c:48-143 | forwarded by each router's own routes, a packet visits no router twice, takes no more hops than its distance, and after that many is at a router that advertises the subnet |
| `LoopFree.TripGoesOn` | projects/scone/sw-origin/or_dijkstra.c:94-121 | a router at a positive finite distance has a next one |
| `TransmitProtocol.RunIsCorrect` | lib/C/kernel/nf2_control.c:257-380 | in every interleaving: at most one transfer in flight, the counter equals callers in the window plus the transfer, packets started at most once each in the order queued, and the ring holds exactly the packets not retired whenever the lock is free |
| `TransmitProtocol.EmptyMeansAllStarted` | lib/C/kernel/nf2_control.c:257-380 | once the ring is empty, every packet handed over has been started exactly once |
| `TransmitProtocol.StartsAlone` | lib/C/kernel/nf2_control.c:309-380 | a transfer starts only on idle hardware, and it is the oldest packet not yet started |
| `TransmitProtocol.ClosedPortIsNotServed` | lib/C/kernel/nf2_control.c:309-347 | in every interleaving, while the hardware has not reported a port open no packet for it is started |
| `TransmitProtocol.StepKeepsInv` | lib/C/kernel/nf2_control.c:756-853 | every atomic step of every thread keeps the invariant |
| `TransmitStranding.StrandsIff` | lib/C/kernel/nf2_control.c:309-347 | a step leaves a packet that could be sent to nobody if and only if a thread that was turned away takes its increment back while nothing is in flight, the front port is open and every other thread rests, or a status report opens the port while a packet is received |
| `TransmitStranding.RescuesIff` | lib/C/kernel/nf2_control.c:257-380 | a packet left behind is taken up again exactly by a packet handed over with room in the ring, a status report, or the error path; until then no transfer starts |
| `TransmitStranding.RunAbandonedIff` | lib/C/kernel/nf2_control.c:257-380 | in every run, a packet is left behind now iff such a step left one behind and none of the events since was one that takes it up |
| `TransmitStranding.StrandedByTurningAway` | lib/C/kernel/nf2_control.c:309-347 | from a probed card two threads turn each other away and leave: all idle, nothing in flight, the port open, the packet queued |
| `TransmitStranding.StrandedByReport` | lib/C/kernel/nf2_control.c:756-772 | from a probed card a status report during reception leaves two packets queued with their ports open |
| `TransmitErrors.ClearFlagsSafeIff` | lib/C/kernel/nf2_control.c:429-474 | clearing the flags leaves a correct card iff a transfer is in flight or the counter is zero |
| `TransmitErrors.ClearFlagsDamagesIff` | lib/C/kernel/nf2_control.c:429-474 | clearing the flags can lead, with no further error, to a buffer freed before its packet is transferred if and only if neither is the case |
| `TransmitErrors.ClearFlagsRace` | lib/C/kernel/nf2_control.c:429-474 | a schedule from a probed card after which two transfers are in flight |
| `TransmitRing.WriteIndex` | lib/C/kernel/nf2_control.c:267-284 | the write index is (read index + pool - free) modulo pool |
| `TransmitRing.PushKeepsRing` | lib/C/kernel/nf2_control.c:267-284 | storing and counting a packet appends it to the queue the ring stands for |
| `TransmitRing.PopKeepsRing` | lib/C/kernel/nf2_control.c:831-843 | the front slot holds the oldest packet, and advancing removes it |
| `TransmitRing.DrainBalancesIff` | lib/C/kernel/nf2_control.c:199-215 | the drain on release leaves the free counts per port balanced iff nothing was queued |
| `TransmitRing.TxBuffers.StorePacket` | lib/C/kernel/nf2_control.c:267-284 | full exactly when pool packets are queued; otherwise the packet is queued last |
| `TransmitRing.TxBuffers.RetirePacket` | lib/C/kernel/nf2_control.c:831-843 | the oldest packet is returned and leaves the queue |
| `TransmitRing.TxBuffers.Drain` | lib/C/kernel/nf2_control.c:199-215 | every queued packet is freed once, oldest first, and the total is restored |
| `RoutingTable.LargerIsLonger` | projects/scone/sw-origin/or_rtable.c:201-218 | among contiguous masks the larger number is the longer prefix |
| `PwospfTypes.BitAndBits` | projects/scone/sw-origin/or_rtable.c:41-44 | a bit is set in a masked address iff it is set in address and mask, for every bit of every two numbers |
| `RoutingTable.PrefixMaskIs` | projects/scone/sw-origin/or_rtable.c:41-44 | a prefix mask of length k is 2^32 - 2^(32-k) |
| `RoutingTable.PrefixKeeps` | projects/scone/sw-origin/or_rtable.c:41-44 | it clears the last 32 - k bits of an address and nothing else |
| `RoutingTable.SameSubnetIff` | projects/scone/sw-origin/or_rtable.c:42-46 | two addresses agree under it iff their quotients by 2^(32-k) do |
| `RoutingTable.BitCountIs` | projects/scone/sw-origin/or_rtable.c:48-53 | the count of a mask is the number of its set bits |
| `RoutingTable.LongestIff` | projects/scone/sw-origin/or_rtable.c:35-62 | with contiguous masks the lookup is by prefix: the first of the active routes with the longest prefix that the address begins with |
| `RoutingTable.SwapRemovesOne` | projects/scone/sw-origin/or_rtable.c:208-217 | swapping two misordered neighbours removes exactly one inversion and keeps the routes |
| `RoutingTable.HardwareRefinesSoftware` | projects/scone/sw-origin/or_rtable.c:228-272 | with contiguous masks any hit in the rows carries subnet, mask and gateway of the route software picks and the port of its interface, and with at most 32 active routes a miss is a software miss |
| `RoutingTable.PortNumberIs` | projects/scone/sw-origin/or_netfpga.c:40-63 | the number is bit 2i for the i-th Ethernet interface, bit 2i + 1 for its counterpart, and there is none for any other name |
| `RoutingTable.PortsDiffer` | projects/scone/sw-origin/or_netfpga.c:40-63 | no two interfaces share a number |
| `RoutingTable.FirstMatchIsLongestIff` | projects/scone/sw-origin/or_rtable.c:228-272 | whatever the masks and the order, hardware answers with a row that carries the first match, and that is the route software picks iff no later match has more bits |
| `RoutingTable.MaskWithHoleDisagrees` | projects/scone/sw-origin/or_rtable.c:201-218 | with a non-contiguous mask hardware and software pick different routes |
| `RoutingTable.Table.GetNextHop` | projects/scone/sw-origin/or_rtable.c:30-76 | the first of the longest active matches, or none; with contiguous masks the first with the longest prefix; the next hop is its gateway, or the destination itself if that is zero |
| `RoutingTable.Table.Pass` | projects/scone/sw-origin/or_rtable.c:206-219 | one pass either finds the list sorted or lowers the number of inversions, and keeps the routes |
| `RoutingTable.Table.TriggerModified` | projects/scone/sw-origin/or_rtable.c:201-225 | terminates with a permutation in order of mask, address and kind, and the hardware, if there is any, in its image |
| `RoutingTable.Table.WriteToHw` | projects/scone/sw-origin/or_rtable.c:228-272 | the rows carry the first 32 active routes in list order, column by column, and then zeros |
| `RoutingTable.ImageHoldsActive` | projects/scone/sw-origin/or_rtable.c:228-272 | the image that the rows are compared with is that, by the places of the routes in the list |
| `RoutingTable.Table.AddRoute` | projects/scone/sw-origin/or_rtable.c:83-112 | adds one active static route |
| `RoutingTable.Table.DelRoute` | projects/scone/sw-origin/or_rtable.c:117-138 | removes every route with the destination and mask, and counts them |
| `RoutingTable.Table.DeactivateRoutes` | projects/scone/sw-origin/or_rtable.c:145-170 | static routes of the interface become inactive, dynamic ones leave, the others stay |
| `RoutingTable.Table.ActivateRoutes` | projects/scone/sw-origin/or_rtable.c:176-194 | the routes of the interface become active |
| `RoutingTable.Table.ReplaceDynamic` | projects/scone/sw-origin/or_dijkstra.c:393-432 | the dynamic routes are replaced by the computed ones, the static ones stay |
| `RoutingTable.WithoutRouteIs` | projects/scone/sw-origin/or_rtable.c:117-138 | deleting keeps, in order, the routes with another destination or another mask |
| `RoutingTable.StaticsIs` | projects/scone/sw-origin/or_dijkstra.c:393-432 | the rebuild keeps the static routes in order |
| `RoutingTable.DeactivatedIs` | projects/scone/sw-origin/or_rtable.c:145-170 | an interface going down, told by how its name begins, loses its dynamic routes and has its static ones inactive, in order; the others stay as they are |
| `RoutingTable.ActivatedIs` | projects/scone/sw-origin/or_rtable.c:176-194 | an interface coming up has its routes active and nothing else changed |
| `RoutingTable.DownAndUp` | projects/scone/sw-origin/or_rtable.c:145-194 | an interface that goes down and up again has lost its dynamic routes and nothing else |
| `RoutingTable.DownCarriesNothing` | projects/scone/sw-origin/or_rtable.c:145-170 | while an interface is down none of its routes is active |
| `RoutingTable.TableAgrees` | projects/scone/sw-origin/or_rtable.c:201-272 | after every operation a hit in hardware carries the route with the longest prefix that the address begins with, and a miss is one of software too up to 32 active routes |
| `IpChecksum.ComputeIpChecksum` | projects/scone/sw-origin/or_ip.c:207-230 | zeroes the checksum word and returns the word that completes the sum of the others |
| `IpChecksum.VerifyChecksum` | projects/scone/sw-origin/or_ip.c:234-251 | accepts iff the words sum to a positive multiple of 65535, for up to 65536 words |
| `IpChecksum.IsPacketValid` | projects/scone/sw-origin/or_ip.c:168-195 | version 4, no options, neither more fragments nor an offset, and words that sum to a positive multiple of 65535: if and only if |
| `IpChecksum.StoredVerifies` | projects/scone/sw-origin/or_ip.c:207-251 | the stored checksum makes the header verify, and so does no other but 65535 for zero |
| `IpChecksum.Forward` | projects/scone/sw-origin/or_ip.c:117-135 | a TTL of 1 is not forwarded; otherwise the TTL is one lower, the header verifies, and nothing else changed |
| `IpChecksum.UndoForward` | projects/scone/sw-origin/or_arp.c:595-602 | a TTL below 255 is raised by one and the header verifies; 255 is left alone |
| `IpChecksum.UndoRestores` | projects/scone/sw-origin/or_arp.c:586-602 | a valid header forwarded and then restored is the one that arrived, up to the two forms of zero |
| `IpChecksum.RecomputedIsIncremental` | projects/scone/sw-origin/or_ip.c:129-135 | lowering the TTL by one raises the recomputed checksum by 256, modulo 65535 |
| `IpChecksum.HopsAreBounded` | projects/scone/sw-origin/or_ip.c:117-135 | a packet with TTL t >= 1 is forwarded at most t - 1 times, and along the way only TTL and checksum change and the header verifies |
| `Nat.OrderedVerifies` | projects/scone/sw-origin/or_nat.c:441-478 | a sum of byte-swapped words verifies iff the sum in wire order does |
| `Nat.NatChecksumSound` | projects/scone/sw-origin/or_nat.c:482-494 | the update is congruent to old + pos - neg modulo 65535, the wrapped subtraction included |
| `Nat.ThereAndBack` | projects/scone/sw-origin/or_nat.c:482-494 | adjusting there and back gives the old checksum, up to the two forms of zero |
| `Nat.ComputeNatChecksums` | projects/scone/sw-origin/or_nat.c:444-478 | the cached words are the negatives of the sums of address and port |
| `Nat.InboundBalances` | projects/scone/sw-origin/or_nat.c:25-87 | redirecting an incoming packet keeps the sum under its transport checksum congruent, so it verifies after iff before |
| `Nat.OutboundBalances` | projects/scone/sw-origin/or_nat.c:98-158 | so does rewriting the source of an outgoing packet |
| `Nat.AcceptedAfterOutbound` | projects/scone/sw-origin/or_nat.c:98-158 | TCP, echo requests and UDP with a checksum are accepted by the receiver afterwards as before |
| `Nat.AcceptedAfterInbound` | projects/scone/sw-origin/or_nat.c:25-87 | the same for incoming packets |
| `Nat.ZeroUdpAcceptedIff` | projects/scone/sw-origin/or_nat.c:130-137 | a UDP segment without a checksum is accepted afterwards iff its words sum to zero anyway or both pairs have equal complements |
| `Nat.ZeroUdpInboundAcceptedIff` | projects/scone/sw-origin/or_nat.c:57-65 | the same for an incoming segment |
| `Nat.ZeroUdpIsLost` | projects/scone/sw-origin/or_nat.c:130-137 | an empty datagram without a checksum that is lost |
| `Nat.EchoReplyAcceptedIff` | projects/scone/sw-origin/or_nat.c:65-79 | an accepted echo reply stays accepted iff it does not become all zeros |
| `Nat.EchoReplyOutboundAcceptedIff` | projects/scone/sw-origin/or_nat.c:139-151 | the same for an outgoing reply |
| `Nat.ZeroEchoReplyIsLost` | projects/scone/sw-origin/or_nat.c:65-79 | an echo reply that does |
| `Nat.ReflectedReturns` | projects/scone/sw-origin/or_nat.c:25-158 | an outgoing segment that is sent back reaches its sender as if untranslated, its checksum the same up to the two forms of zero |
| `Nat.PopulateNatPacket` | projects/scone/sw-origin/or_utils.c:185-214 | the address and the port, or the echo identifier, of one side are overwritten |
| `Nat.NatTable.ProcessNatExtPacket` | projects/scone/sw-origin/or_nat.c:25-87 | the first entry for the destination redirects the packet, counts a hit and keeps the checksum; without one nothing changes |
| `Nat.NatTable.ProcessNatIntPacket` | projects/scone/sw-origin/or_nat.c:98-158 | a known source uses its entry and counts a hit, a new one gets an entry with a drawn port at the end; internal pairs stay distinct; the packet leaves from the external pair with its checksum kept |
| `Nat.NatTable.CreateEntry` | projects/scone/sw-origin/or_nat.c:171-218 | one entry more, from the packet's source to the given address and a port that was drawn and passed the test; the external pairs stay distinct iff the pair was not taken |
| `Nat.ReplyReturnsIff` | projects/scone/sw-origin/or_nat.c:222-246 | a reply reaches the sender of the packet it answers iff no earlier entry has the same external pair |
| `Nat.UniqueTestRightIff` | projects/scone/sw-origin/or_nat.c:399-410 | the uniqueness test tells whether the port to be stored is new iff the port's two bytes are equal |
| `Nat.NatTable.IsUniqueNatExtPort` | projects/scone/sw-origin/or_nat.c:399-410 | the loop compares the drawn port with every stored one |
| `Nat.NatTable.DrawPort` | projects/scone/sw-origin/or_nat.c:173-183 | the first of the drawn ports that is above 1024 and equal to no stored one |
| `Nat.DistinctExtIff` | projects/scone/sw-origin/or_nat.c:171-218 | a new entry keeps the external pairs distinct iff its pair was not taken |
| `Nat.DrawnTwice` | projects/scone/sw-origin/or_nat.c:171-218 | two new sources that draw the same unprivileged port with differing bytes end up with one external pair |
| `ArpQueue.RunKeepsInv` | projects/scone/sw-origin/or_arp.c:416-454 | over any run each next hop has one entry, with one to five requests |
| `ArpQueue.RunConserves` | projects/scone/sw-origin/or_arp.c:549-622 | over any run a packet waits or has left exactly as often as it was handed over or made as an error |
| `ArpQueue.EachLeavesOnce` | projects/scone/sw-origin/or_arp.c:171-203 | a packet handed over once waits once or has left once |
| `ArpQueue.WaitEnds` | projects/scone/sw-origin/or_arp.c:549-622 | what waits for a next hop has left once the requests made and the due walks since exceed five: after at most five due walks |
| `ArpQueue.WaitGoesOn` | projects/scone/sw-origin/or_arp.c:558-573 | until then it keeps waiting in its order, one request more a due walk, unless a reply comes |
| `ArpQueue.PacketLeaves` | projects/scone/sw-origin/or_arp.c:549-622 | a packet handed over once has left exactly once after five due walks of the hop it waits for |
| `ArpQueue.RunErrorsAreErrors` | projects/scone/sw-origin/or_arp.c:581-585 | no error is made for an error |
| `ArpQueue.DrainOneShrinks` | projects/scone/sw-origin/or_arp.c:578-613 | each turn of the drain lowers its measure, although the error it sends may join the entry it drains |
| `ArpQueue.VisitAdvances` | projects/scone/sw-origin/or_arp.c:549-622 | each visit of the walk lowers its measure, although new entries may be appended |
| `ArpQueue.ReplyServesEntry` | projects/scone/sw-origin/or_arp.c:171-203 | a reply sends the packets of its one entry in the order they came and removes it, and nothing else |
| `ArpQueue.ReplyKnows` | projects/scone/sw-origin/or_arp.c:142-203 | after a reply the address is known and nothing waits for it |
| `ArpQueue.SendWaits` | projects/scone/sw-origin/or_arp.c:416-454 | a packet is sent at once, or joins the entry of its hop as the last, or makes one and the first request; no other entry changes |
| `ArpQueue.TickAsks` | projects/scone/sw-origin/or_arp.c:549-622 | the walk leaves an entry alone within a second of its last request, asks once more after that up to five times, and then gives all its packets up |
| `ArpQueue.TickAnswers` | projects/scone/sw-origin/or_arp.c:581-602 | a packet given up is answered iff it is no ICMP message but an echo, comes from none of our addresses and there is a route back, and then with host unreachable from the interface there |
| `ArpQueue.DrainedInOrder` | projects/scone/sw-origin/or_arp.c:573-613 | an entry gives its packets up in the order they came, and errors that joined it after them |
| `ArpQueue.ErrorGoesBack` | projects/scone/sw-origin/or_icmp.c:44-115 | an error is sent to the next hop on the way to its sender, or waits for that one |
| `ArpQueue.Queue.ArpQueueAdd` | projects/scone/sw-origin/or_arp.c:416-454 | joins the entry of the next hop, or appends a new one with a request |
| `ArpQueue.Queue.SendIp` | projects/scone/sw-origin/or_main.c:754-776 | sent at once to a known next hop, queued otherwise |
| `ArpQueue.Queue.SendError` | projects/scone/sw-origin/or_icmp.c:44-115 | an error goes to the sender by the routing table, or nowhere without a route |
| `ArpQueue.Queue.Drain` | projects/scone/sw-origin/or_arp.c:573-613 | ends with the entry empty, errors that joined it included |
| `ArpQueue.Queue.ProcessArpQueue` | projects/scone/sw-origin/or_arp.c:549-622 | the walk asks again, gives up or leaves each entry alone, with the next one fixed beforehand |
| `ArpQueue.Queue.ProcessArpReply` | projects/scone/sw-origin/or_arp.c:142-203 | the address is known and every entry for it is sent and removed |
| `ArpCache.HitIsCached` | projects/scone/sw-origin/or_arp.c:651-687 | a hardware hit on a nonzero address yields the MAC of the cache's entry |
| `ArpCache.HitIff` | projects/scone/sw-origin/or_arp.c:651-687 | the hardware knows exactly the addresses of the first 32 entries, static ones first |
| `ArpCache.NoneMissed` | projects/scone/sw-origin/or_arp.c:651-687 | with at most 32 entries the hardware misses none, with at most 32 static ones no static one |
| `ArpCache.MacSurvives` | projects/scone/sw-origin/or_arp.c:690-706 | the two registers give back the six bytes |
| `ArpCache.RegistersAre` | projects/scone/sw-origin/or_arp.c:690-706 | the two registers together are the address as a number of 48 bits, first byte first |
| `ArpCache.ImageIs` | projects/scone/sw-origin/or_arp.c:651-687 | 32 rows: the static entries in list order, the dynamic ones, zeros |
| `ArpCache.ZeroAddressHitsIff` | projects/scone/sw-origin/or_arp.c:680-684 | without an entry for address zero, the hardware answers for it iff the cache has fewer than 32 entries |
| `ArpCache.Cache.UpdateArpCache` | projects/scone/sw-origin/or_arp.c:247-295 | the entry of the address is overwritten or appended, addresses stay distinct, the hardware mirrors the list |
| `ArpCache.Cache.DelArpCache` | projects/scone/sw-origin/or_arp.c:301-320 | the address is gone, at most one entry removed |
| `ArpCache.Cache.ExpireArpCache` | projects/scone/sw-origin/or_arp.c:512-544 | exactly the dynamic entries past their time leave, and the mirror is kept |
| `ArpCache.UnexpiredIs` | projects/scone/sw-origin/or_arp.c:512-544 | static entries stay, dynamic ones until their time is over, in order |
| `ArpCache.WithoutIpIs` | projects/scone/sw-origin/or_arp.c:301-320 | deleting keeps the entries of other addresses in order |
| `ArpCache.LearnAndCheck` | projects/scone/sw-origin/or_arp.c:247-544 | an address learnt now is in the cache after a later check iff it is static or its time is not over, with the address it was learnt with |
| `ArpCache.Cache.WriteArpCacheToHw` | projects/scone/sw-origin/or_arp.c:651-687 | the two walks that share a row number terminate with static entries, dynamic entries and zeros in the rows |
| `ContentTable.RunKeepsInv` | projects/scone/sw/or_ctable.c:43-245 | over any run of loaded lines and packets (content, interface) stays a key, the table has at most 32 entries, and a request has at most three answers below and one above |
| `ContentTable.HitsBounded` | projects/scone/sw/or_ctable.c:85-99 | at most three down answers and one up answer, one less on the side of the request, so the overflow branch is never taken |
| `ContentTable.RunAddsNoUpEntry` | projects/scone/sw/or_cccp.c:129 | packets never announce a content above: every up entry was loaded at the start |
| `ContentTable.RequestPrunesExactly` | projects/scone/sw/or_ctable.c:75-112 | a request removes exactly the older versions and the requested version on its own port |
| `ContentTable.PrunedIs` | projects/scone/sw/or_ctable.c:75-112 | a request keeps the other entries in their order |
| `ContentTable.ChoiceIs` | projects/scone/sw/or_ctable.c:85-146 | of the entries below with the requested version, in list order, the one that the name modulo their number points at; above only if there is none |
| `ContentTable.HandledIs` | projects/scone/sw/or_cccp.c:24-320 | what each kind of packet makes of the table, and that no other packet changes it |
| `ContentTable.AnnouncedIsAnswered` | projects/scone/sw/or_cccp.c:24-320 | after a reply announces a new content, a request for that version from another port is answered, by the server that sent the reply unless another answers too |
| `ContentTable.ContentTable.GetNexthopByContent` | projects/scone/sw/or_ctable.c:43-146 | a hit has the requested version, is not on the ingress port, prefers down ports and picks by the content's name; a miss means no entry answers |
| `ContentTable.ContentTable.Scan` | projects/scone/sw/or_ctable.c:70-116 | one walk prunes the list and fills the two fixed arrays within their bounds |
| `ContentTable.ContentTable.AddContent` | projects/scone/sw/or_ctable.c:154-217 | the table becomes the one announced to, and the return value tells whether the key was new, known, or took the last one's place; keys stay unique and the table within 32 |
| `ContentTable.AddedIs` | projects/scone/sw/or_utils.c:77-130 | an announcement puts its key first: a known entry moves there as it is, a new one pushes the others back, and from a full table exactly the last entry goes |
| `ContentTable.AddedKeepsOrder` | projects/scone/sw/or_ctable.c:154-217 | behind the announced entry the others keep their order |
| `ContentTable.AddStoresIff` | projects/scone/sw/or_ctable.c:179-206 | an announced version is in the table afterwards iff its key was new, or known with that version |
| `ContentTable.NewerVersionIsLost` | projects/scone/sw/or_ctable.c:179-187 | a newer version announced over a known older one is not answered from that interface, and the next request for it removes the old one too |
| `ContentTable.ContentTable.DelContent` | projects/scone/sw/or_ctable.c:220-245 | removes the one entry with the key if there is one |
| `ContentTable.ContentTable.ProcessCccpPacket` | projects/scone/sw/or_cccp.c:24-320 | which packets look up, announce or delete, and that exactly a request that hits has its destination rewritten, to the server of the chosen entry |
| `UrlCodec.RoundTrip` | projects/scone/sw-origin/or_utils.c:336-396 | decoding undoes encoding |
| `UrlCodec.BufferRoundTrip` | projects/scone/sw-origin/or_utils.c:336-396 | through C strings, for every string without a zero byte |
| `UrlCodec.RoundTripBackIff` | projects/scone/sw-origin/or_utils.c:336-396 | encoding undoes decoding exactly on letters, digits and upper-case escapes of everything else |
| `UrlCodec.EncodedFits` | projects/scone/sw-origin/or_utils.c:336-361 | at most three bytes a character, and no zero byte |
| `UrlCodec.EncodedByteIs` | projects/scone/sw-origin/or_utils.c:336-361 | letters and digits stay, any other byte becomes a per cent sign and two upper-case digits, the high one first |
| `UrlCodec.HexValueIs` | projects/scone/sw-origin/or_utils.c:364-396 | a digit of either case has its value, any other character counts as zero |
| `UrlCodec.DecodedIs` | projects/scone/sw-origin/or_utils.c:364-396 | an escape is its two digits, a plus is a space, any other character is itself, and so is a per cent sign with less than two characters behind it |
| `UrlCodec.UrlEncode` | projects/scone/sw-origin/or_utils.c:336-361 | the buffer of 3 * len + 1 bytes is never overrun and holds the encoding |
| `UrlCodec.UrlDecode` | projects/scone/sw-origin/or_utils.c:364-396 | the buffer of len + 1 bytes is never overrun and holds the decoding up to its first zero |
| `LinkedList.NodePushBack` | projects/scone/sw-origin/or_utils.c:29-36 | appends to the list the nodes stand for |
| `LinkedList.NodeRemove` | projects/scone/sw-origin/or_utils.c:38-72 | unlinks one node, in all four positions, and keeps the others in order |
| `LinkedList.NodePushFront` | projects/scone/sw/or_utils.c:77-90 | puts a node before the first |
| `LinkedList.NodeInsertFront` | projects/scone/sw/or_utils.c:93-108 | puts a node before the first while the last one leaves; fewer than two nodes are left alone |
| `LinkedList.NodeUpdate` | projects/scone/sw/or_utils.c:110-130 | moves a node to the front, the others keeping their order |
| `LinkedList.NodeLength` | projects/scone/sw-origin/or_utils.c:75-85 | counts the nodes |
| `LinkedList.RemoveWhere` | projects/scone/sw-origin/or_utils.c:38-72 | the sweep that reads the next node first removes exactly the elements that satisfy a predicate |

## Left out

- Locks in SCONE: a locked section is one atomic step; the early return at or_pwospf.c:69-71 that keeps the locks is a plain drop.
- Clearing the neighbours of an interface in iface_up and iface_down: that loop removes the node it stands on and never advances.
- Removing a router from the list between two runs of the path computation: `prev_router` may then point at memory that was freed. The runs of `ShortestPath` and the list of `Forwarding.ComputeRtable` only grow.
- Flooding.RunAgrees: says nothing of an origin after its 16-bit numbers have wrapped; the code then refuses its updates until its entry times out.
- Neighbour addresses in `Flooding` and `LinkState`: a packet to a neighbour's address reaches the router whose id that neighbour's hellos carry.
- The byte-swapped comparison of router ids at or_pwospf.c:560, and the checks of version, area and checksum of link-state packets.
- The default route among our advertisements, but for its being on no port's subnet.
- A TTL of zero in a link-state update: no update of this code has one.
- Lists inside a record (interfaces, neighbours, routes, entries of the ARP cache and the content table) are sequences of values in a field, so aliasing of list nodes is modelled only in `LinkedList`, `ArpQueue` and the router objects of `ShortestPath`.
- Reading the clock several times within one walk: one reading a call, but for the neighbour timeout, which takes one a neighbour.
- Ordering of memory accesses by the processor, the receive path, register ioctls and the counter of receive transfers in the driver; the sources under lib/C/kernel/nf2_user.c.
- The adjustment of the IP header's own checksum under translation (or_nat.c:90 and 162), which the forwarding path recomputes, packets of other protocols, and the hardware copy and the expiry of translations.
- Nat.PopulateNatPacket: does not rewrite the packet quoted in an ICMP error (or_utils.c:215-260); the handlers take TCP, UDP and ICMP echo only.
- Nat.NatTable.DrawPort: takes the drawn ports as a list that holds one the test lets pass, where the code draws until one does.
- The gap between storing an ARP reply and sending what waits for it: `ArpQueue.Queue.ProcessArpReply` is one step, so the address cannot be forgotten in between.
- The choice of the ARP cache's static flag beyond 0 and 1, and what an error packet quotes.
- The hardware copy of the content table, and reading the files of either table.
- Everything around the packets a content request carries: its forwarding is that of IP packets.
- Sockets, the command line, the web server, statistics, printing, the transport stack and allocation failure.
