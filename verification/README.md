# Verified models of the protocol and algorithm cores of an ns-2 tree

The tree is a network simulator; most of it is glue around a handful of protocol and algorithm state
machines. This project models those state machines in Dafny and proves what they are for.

| part | files | what it is |
|---|---|---|
| AODV routing | `aodv_table`, `aodv_agent`, `aodv_network`, `aodv_safety`, `aodv_laws`, `aodv_answers`, `aodv_discovery`, `aodv_repair`, `aodv_width` | N nodes with routing tables and a flight of messages that may be lost, repeated, delayed or reordered; loop freedom, and exactly on which networks it holds; what every event does, and that discovery finds routes |
| AODV send buffer | `aodv_sendbuffer`, `aodv_rqueue` | a linked list with deadlines, as a bounded FIFO |
| AOMDV routing | `aomdv_paths`, `aomdv_rtable`, `aomdv_table`, `aomdv_agent`, `aomdv_network`, `aomdv_legal`, `aomdv_runs`, `aomdv_safety`, `aomdv_single`, `aomdv_laws`, `aomdv_answers`, `aomdv_discovery`, `aomdv_width` | the multipath variant, with entries that hold their paths in linked lists; loop freedom along any choice of stored paths, and exactly when it holds; what every event does, and that replies find their way back |
| asim rate allocator | `asim_load`, `asim` | progressive filling on arrays; what all flows load the links with, weighted max-min fairness, and that it is unique |
| CLB tunnel | `clb_window`, `clb_tunnel` | stamping and the reorder buffer with 16-bit wrapping indices; order, safety, stranding, and when indices are misread |
| CLB responses | `clb_responses` | round robin over records that expire, and how old they are |
| BayTCP reassembly | `bay_reassembly`, `bay_runs`, `bay_receiver` | a doubly linked list of segments against the set of bytes received, and exactly which segments it handles; what is acknowledged and passed up at once |
| Token bucket filter | `token_bucket`, `token_law`, `tbf` | the any-interval rate bound and exactly when it holds; that packets that fit the bucket go at the first moment the bound lets them |
| Reservation signalling | `reservation`, `salink` | REQUEST, CONFIRM and TEARDOWN of many flows over many links; all or nothing, conservation of rate |
| CONGA flowlets | `conga_flowlets` | which port a packet gets, against the ageing timer |

What several parts use is in `common`.

Each handler, queue operation or timer of the source is a method of a class that changes its fields in place; the
method is proved to do to the object's abstract value exactly what a function on values says. Networks and runs are
built from those functions, and the main results are lemmas about every run.

## How the models read the source

- Clocks, random numbers and rate limits are parameters: a route purge is given the set of expired destinations (AODV)
  or the time (AOMDV), a data packet whether a request is held back, a ring search its time to live, a path search its
  random start. Results hold for every choice of them.
- Sequence numbers and rates are unbounded naturals and exact reals. Hop counts travel in eight
  bits; CLB indices wrap at 65536.
- Any node may hear any broadcast in flight, any number of times and at any time, except the node that sent it: the
  channel hands a frame to every node but its sender (`ns-2.35/mac/channel.cc:164-167`). Data packets carry the number
  of times they were forwarded, which the MAC counts (`ns-2.35/mac/mac-802_11.cc:1909`) and AODV's repair asks for.
- In `aomdv.cc`, `INFINITY`, "nothing advertised yet", is 0x3fff (`ns-2.35/routing/route.h:46-47`), which no hop count
  reaches. Entries are made with `INFINITY2`, 255, instead, but under sequence number zero, which nobody offers.
  Lifetimes of whole entries (`rt_expire`) are never set there, only those of paths.
- The reference of BayTCP's reassembly queue to the agent's `rcv_nxt_` makes queue and agent one object.
- A packet of the CLB tunnel carries, besides its index, its place in the sending order, which no code reads.

## What turned out differently from what the code seems to promise

- AODV is loop free in every run exactly on networks of at most 227 nodes, and with local repair, which `aodv.h`
  switches on, of at most 3 (`AodvWidth.LoopFreeIff`). On four nodes in a line the repair timer takes a route down
  without raising its sequence number (`RepairLoops`); on three, nothing can travel far enough to be repaired. On 228
  nodes a relayed hop count of 255 wraps to zero (`AodvWidth.Wrap`): relays that forget a request and repeat it, and a
  destination that relays an answer about itself, add hops without adding nodes.
  The assertions in its handlers hold in every run of exactly the same networks (`AodvWidth.AssertsIff`): the shipped
  setting trips one on four nodes, and on 228 nodes the route of 255 hops that closes the circle is one that forwarding
  a data packet, or the next purge, aborts the simulation on.
- AOMDV is loop free in every run exactly on networks of at most 256 nodes, or on any if no entry ever gets a second
  path (`AomdvWidth.LoopFreeIff`): on 257 a request 256 hops from its source goes out with hop count zero. What a node
  advertises stays constant, and the handlers' assertions hold, on networks of any size (`AdvertisementConstancy`,
  `AomdvRuns.AssertsNeverFail`).
- The CLB decode timeout can leave packets in the reorder buffer with no timer running, even when the packet it has
  skipped to is there (`Strands`, `StrandedIff`). The index arithmetic of the ring is exact only up to 10922 packets a
  block (`PositionExactIff`). A duplicate that is old by a whole round of indices is handed over in sequence again
  (`TooOldIsMisread`); the receiver follows the sending order exactly in the runs without such arrivals (`FollowsIff`).
- BayTCP's reassembly queue is right exactly as long as every segment fits what is queued (`FitsIff`, `AgreeIff`), as
  all do when data is cut in one way (`RunAgrees`). It trims what it has already off a segment but enters the untrimmed
  length in the queue, so that a partly overlapping segment makes `rcv_nxt_` wrong whenever the queue is not empty
  (`OverlapRightIff`, `OverlapLosesBytes`). Segments that overlap each other in the queue can end up out of order there,
  and then `rcv_nxt_` stays behind (`QueuedOverlapStalls`); a segment inside a longer one takes it to its own end only
  (`NestedFallsShort`).
- The token bucket filter sends packets larger than its bucket and then owes tokens; the classic bound holds for
  exactly the runs without such packets (`ConformsIff`), and for all runs exactly if no such packet is offered or there
  is no queue (`ConformsWheneverIff`).
- A reservation link's counter of admitted flows starts at -1 unless the link is traced. A rejecting CONFIRM is undone
  correctly only while the ids of flows being decided on differ from -1 and from one another (`RejectUndoesIff`,
  `RejectTakesTooMuch`).
- A CONGA gap of one up to exactly two timer periods neither keeps the port nor forces a fresh choice (`GapIff`,
  `TwoPeriodsMayStay`); shorter ones keep it, longer ones force one.

## Model

| member | source | states |
|---|---|---|
| `AodvSafety.LoopFreedom` | ns-2.35/aodv/aodv.cc:402-430 | In every reachable state of any network of at most 227 nodes, or of at most 3 with local repair on, with messages lost, repeated, late or reordered, following next hops of up routes to any destination never visits a node twice. |
| `AodvSafety.JourneyClimbs` | ns-2.35/aodv/aodv.cc:436-501 | A packet forwarded hop by hop while tables change: each hop strictly improves the (sequence number, hops) knowledge of the destination, so a packet that returns to a node finds a strictly better route. |
| `AodvSafety.WalkClimbs` | ns-2.35/aodv/aodv.cc:705-711 | Along any chain of next hops in one state the knowledge of the destination strictly improves. |
| `AodvSafety.MessageDominance` | ns-2.35/aodv/aodv.cc:773-785 | Every reply or request in flight about a destination comes from the destination or from a node that now knows it strictly better than the message says, however old the message is. |
| `AodvSafety.RunImprovesKeys` | ns-2.35/aodv/aodv.cc:860-866 | Over any stretch of any run no node's (sequence number, hops) for a destination gets worse. |
| `AodvSafety.RunKeepsInv` | ns-2.35/aodv/aodv.cc:557-1000 | The full network invariant holds in every state of every run. |
| `AodvSafety.AssertsNeverFail` | ns-2.35/aodv/aodv.cc:354-365 | In no reachable state can an assertion of a handler (link failure, purge, request, reply, error, hello, data, sending a request, including the hop count of an up route there) fail, whichever enabled event comes next. |
| `AodvSafety.EntryStates` | ns-2.35/aodv/aodv_rtable.cc:38-68 | In every reachable state an entry is up exactly when its hop count is not 255, up entries have an even positive sequence number, down entries zero or an odd one, and own sequence numbers are even. |
| `AodvSafety.AcceptedHopsSmall` | ns-2.35/aodv/aodv.cc:860-866 | A reply that a node accepts in a reachable network always has a hop count below 255: the hop count is witnessed by that many distinct nodes closer to the destination. |
| `AodvSafety.ReplyKeepsEntriesIff` | ns-2.35/aodv/aodv.cc:860-875 | A reply keeps the state machine of entries if and only if, when it is accepted, its hop count is below 255. |
| `AodvRepair.RepairLoops` | ns-2.35/aodv/aodv.cc:325-331 | With local repair on, on any line of four nodes: a packet that has travelled two hops, further than the one hop its destination is away, starts a repair; when the repair timer takes the route down without a newer number, two nodes end up pointing at each other. |
| `AodvWidth.TooWide` | ns-2.35/aodv/aodv_packet.h:114 | On 228 nodes or more some run is not loop free, with or without local repair, because hop counts travel in eight bits. |
| `AodvWidth.LoopFreeIff` | ns-2.35/aodv/aodv.cc:860-866 | All reachable states are loop free if and only if there are at most 227 nodes, and at most 3 if local repair is on: for every set of nodes and either setting. |
| `AodvWidth.AssertsIff` | ns-2.35/aodv/aodv.cc:503-550 | No assertion of a handler fails in any run if and only if there are at most 227 nodes, and at most 3 if local repair is on: beyond, a purge finds an up route of 255 hops, and with repair on a lost link finds a route that is not up. |
| `AodvWidth.Wrap` | ns-2.35/aodv/aodv.cc:917-931 | The run behind it: a request forgotten and repeated by two relays reaches its hop limit of 30, the destination relays an answer about itself, nodes learn routes of up to 254 hops from one another, and a relay sends the next reply, of 255, on with hop count zero. |
| `AodvWidth.WideLoops` | ns-2.35/aodv/aodv.cc:860-866 | An old request answered late with the wrapped hop count closes the circle. |
| `AodvNetwork.RequestLegal` | ns-2.35/aodv/aodv.cc:653-820 | Handling a request only improves routes, by what was heard, and sends only messages the node's own table dominates. |
| `AodvNetwork.ReplyLegal` | ns-2.35/aodv/aodv.cc:823-936 | Handling a reply whose hop count fits only improves routes, by the reply, and forwards only what the table dominates. |
| `AodvNetwork.ErrorLegal` | ns-2.35/aodv/aodv.cc:938-999 | An error takes routes down only with a larger, odd sequence number, and changes nothing else of them. |
| `AodvNetwork.ErrorReports` | ns-2.35/aodv/aodv.cc:965-985 | The error that a node sends on lists a destination if and only if the error heard took down an up route to it that somebody upstream uses. |
| `AodvNetwork.LinkLegal` | ns-2.35/aodv/aodv.cc:347-382 | A link failure takes routes down only with a larger, odd sequence number. |
| `AodvLaws.EventLaw` | ns-2.35/aodv/aodv.cc:557-1000 | In every reachable state of any network every event does to its node, and makes it send, exactly what is due: told by what the node knew before, what it heard and what it knows afterwards, for requests, replies, errors, hellos, lost links, purges, data, own requests and repairs. |
| `AodvLaws.RequestLaw` | ns-2.35/aodv/aodv.cc:653-820 | A request that is not the node's own and not cached teaches the way to its source, and is answered if and only if the node is the destination or has a route with a hop count other than 255 and a number at least the one asked for; the answer carries a number at least that, and goes to the next hop of the way back. Otherwise it goes on, asking for the larger number, unless its time to live is over. |
| `AodvLaws.ReplyLaw` | ns-2.35/aodv/aodv.cc:823-936 | A node takes a reply exactly if it is newer, or as new and shorter, than what it knows; it sends one on, to the next hop of its route to the node that asked, exactly if it took it, is not that node and has such a route. |
| `AodvLaws.ErrorLaw` | ns-2.35/aodv/aodv.cc:938-999 | Exactly the routes over the sender that are not newer than the error says are lost, under the error's number, and exactly those of them that somebody upstream uses are reported. |
| `AodvLaws.LinkLaw` | ns-2.35/aodv/aodv.cc:347-382 | Exactly the routes over a lost neighbour are lost, under the next number, all of them are reported, and the neighbour is told of nothing any more. |
| `AodvLaws.PurgeLaw` | ns-2.35/aodv/aodv.cc:503-550 | Exactly the up routes that have expired are lost, under the next number. |
| `AodvLaws.DataLaw` | ns-2.35/aodv/aodv.cc:436-501 | A data packet goes to the next hop of an up route; without one the node asks, waits for the repair, or says in an error that it has none. |
| `AodvLaws.AskLaw` | ns-2.35/aodv/aodv.cc:1062-1183 | A node asks, if it has no route, under a new number and request id, for the last number it has of the destination. |
| `AodvAnswers.AnswersAreWanted` | ns-2.35/aodv/aodv.cc:860-866 | In every reachable state of any network, each reply answers a request of the node it is for, with a number at least the one asked for; a node whose entry is still the one it asked with takes every answer that is newer than what it asked or has a hop count below 255, and then has an up route over the sender. |
| `AodvDiscovery.Discovery` | ns-2.35/aodv/aodv.cc:653-936 | Discovery comes to its end: on any line of up to 30 hops in any network some run makes every node on it know the way to both ends, and brings the data packet that started it to the destination. |
| `AodvAgent.Aodv.OnRequest` | ns-2.35/aodv/aodv.cc:653-820 | The handler in place has exactly the specified effect on table, sequence number and request cache and sends exactly the specified messages, in all branches. |
| `AodvAgent.Aodv.OnReply` | ns-2.35/aodv/aodv.cc:823-936 | The same for replies, including precursor bookkeeping and forwarding. |
| `AodvAgent.Aodv.OnError` | ns-2.35/aodv/aodv.cc:938-999 | The loop over the destinations of an error gives exactly the specified table and the report of the destinations with precursors. |
| `AodvAgent.Aodv.HandleLinkFailure` | ns-2.35/aodv/aodv.cc:347-382 | The loop over the table takes down exactly the routes over the lost neighbour, with sequence number plus one, and reports exactly those. |
| `AodvAgent.Aodv.NbDelete` | ns-2.35/aodv/aodv.cc:1353-1371 | Losing a neighbour raises the own sequence number by two and handles the link failure. |
| `AodvAgent.Aodv.RtPurge` | ns-2.35/aodv/aodv.cc:503-550 | The purge takes down exactly the up routes that have expired, raising their sequence numbers by one. |
| `AodvAgent.Aodv.RtResolve` | ns-2.35/aodv/aodv.cc:436-501 | A data packet uses an up route, starts a request when it is the node's own, or is answered with an error. |
| `AodvAgent.Aodv.Request` | ns-2.35/aodv/aodv.cc:1062-1183 | A request raises the own sequence number by two and asks for the last known number of the destination. |
| `AodvAgent.Aodv.OnHello` | ns-2.35/aodv/aodv.cc:1307-1335 | A hello of an unknown neighbour adds it and raises the own sequence number by two. |
| `AodvSendBuffer.BufferIsFifo` | ns-2.35/aodv/aodv_rqueue.cc:50-138 | In every run the buffer has at most 64 packets in order of arrival and deadline, packets of one destination leave in order of arrival, each at most once, and both purges come to the same at any time. |
| `AodvSendBuffer.PurgesAgreeIff` | ns-2.35/aodv/aodv_rqueue.cc:204-260 | The purge that searches the whole buffer equals the one that looks only at the head if and only if no expired packet is behind an unexpired one. |
| `AodvSendBuffer.EventServes` | ns-2.35/aodv/aodv_rqueue.cc:50-138 | In every run a new packet always comes in, and only if 64 unexpired packets wait does the first of them to arrive go; a get returns the first to arrive of the unexpired packets asked for, if there is one; exactly the expired packets go besides. |
| `AodvRqueue.Rqueue.Purge` | ns-2.35/aodv/aodv_rqueue.cc:219-260 | The linked list after the repeated search and removal holds exactly the unexpired packets in order. |
| `AodvRqueue.Rqueue.Enque` | ns-2.35/aodv/aodv_rqueue.cc:50-85 | The linked list takes the packet at its end; a full one gives up its oldest packet after the purge. |
| `AodvRqueue.Rqueue.Deque` | ns-2.35/aodv/aodv_rqueue.cc:88-103 | The oldest unexpired packet leaves the list. |
| `AodvRqueue.Rqueue.DequeFor` | ns-2.35/aodv/aodv_rqueue.cc:106-138 | The oldest unexpired packet for the destination leaves, whatever its position, and the order of the rest stays. |
| `AodvRqueue.Rqueue.Unlink` | ns-2.35/aodv/aodv_rqueue.cc:119-131 | Removing the head, the tail or a middle cell keeps list, tail and length consistent. |
| `AomdvSafety.LoopFreedom` | ns-2.35/aomdv/aomdv.cc:837-882 | In every reachable state of any network of at most 256 nodes, whichever of its stored paths each node picks, a packet never visits a node twice. |
| `AomdvWidth.LoopFreeIff` | ns-2.35/aomdv/aomdv_packet.h:129 | All reachable states are loop free along any choice of stored paths if and only if there are at most 256 nodes, or entries have room for one path only, or a second path would have to be shorter by more than 254 hops: for every set of nodes and all limits. |
| `AomdvWidth.Wrap` | ns-2.35/aomdv/aomdv.cc:1044-1051 | The run behind it on 257 nodes: replies build a chain of routes of up to 255 hops, its end hears a request of the destination over the first node and passes it on as 255 hops away, and the last node takes it for one of 256 hops and sends it on with hop count zero. |
| `AomdvWidth.WideLoops` | ns-2.35/aomdv/aomdv.cc:871-879 | The end of the chain takes the wrapped request as a second, disjoint path, and two nodes point at each other. |
| `AomdvSingle.OnePathLoopFree` | ns-2.35/aomdv/aomdv.cc:873-876 | Where no entry ever gets a second path no state of any run has a loop, on any number of nodes and however hop counts wrap. |
| `AomdvSingle.RankedStays` | ns-2.35/aomdv/aomdv.cc:837-848 | The reason: for every destination the nodes can be ranked at all times so that each next hop has a newer number, or took the same number up earlier. |
| `AomdvSafety.JourneyClimbs` | ns-2.35/aomdv/aomdv.cc:1098-1131 | Even while tables change under a packet, each hop leads to an entry that is newer or has strictly fewer advertised hops. |
| `AomdvSafety.PathClimbs` | ns-2.35/aomdv/aomdv.cc:1204-1206 | The next hop of any stored path has a newer entry or one with strictly fewer advertised hops under the same sequence number. |
| `AomdvRuns.AdvertisementConstancy` | ns-2.35/aomdv/aomdv.cc:1044-1046 | In every run, on networks of any size, all offers a node ever makes about a destination under one sequence number carry the same hop count. |
| `AomdvRuns.ReheardPathsAgree` | ns-2.35/aomdv/aomdv.cc:861-863 | In every run, on networks of any size, a path heard again has the message's hop count plus one and its entry is up. |
| `AomdvRuns.AssertsNeverFail` | ns-2.35/aomdv/aomdv.cc:856-862 | In no reachable state of any network can an assertion of a handler on flags, sequence numbers and re-heard paths fail, or a path be read that is not there, whichever enabled event comes next. |
| `AomdvRuns.PathLists` | ns-2.35/aomdv/aomdv_rtable.cc:232-320 | In every reachable state of any network next hops and last hops of an entry's paths are pairwise distinct, there are at most the configured number of them, the entry is up exactly when there is one, and no path has more than 256 hops or more than what is advertised. |
| `AomdvTable.Rtable.CountersRight` | ns-2.35/aomdv/aomdv_rtable.h:228 | In a routing table in order, which every handler keeps, rt_num_paths_ of each entry is the number of paths that the table has for the destination. |
| `AomdvRuns.RunGrows` | ns-2.35/aomdv/aomdv.cc:541-562 | Over any stretch of any run of any network sequence numbers never fall, and an advertised hop count once set under a sequence number stays. |
| `AomdvRuns.RunKeepsInv` | ns-2.35/aomdv/aomdv.cc:688-1740 | In every state of every run of any network each offer in flight repeats what its sender advertises, in eight bits, or is older, and every stored path comes from an offer in flight. |
| `AomdvSafety.RunKeepsTraces` | ns-2.35/aomdv/aomdv.cc:1044-1046 | On at most 256 nodes each offer and each advertised hop count is in every state traced back over as many distinct nodes as it has hops. |
| `AomdvLegal.ReverseLegal` | ns-2.35/aomdv/aomdv.cc:837-900 | What a request does to the reverse route keeps the path list disjoint and bounded and every path traceable to the request. |
| `AomdvLegal.ForwardLegal` | ns-2.35/aomdv/aomdv.cc:1098-1135 | The same for the forward route and a reply. |
| `AomdvLegal.ExpireLegal` | ns-2.35/aomdv/aomdv.cc:634-681 | Purging expired paths only shrinks lists, and an entry that loses its last path goes down with a larger odd sequence number. |
| `AomdvLaws.EventLaw` | ns-2.35/aomdv/aomdv.cc:688-1740 | In every reachable state of any network every event does to its node, and makes it send, exactly what is due, told by path lists, numbers, cache and message before and after. |
| `AomdvLaws.RequestLaw` | ns-2.35/aomdv/aomdv.cc:784-1056 | Which paths a request brings in, prolongs or leaves out; a node answers exactly as destination, or once for each request from a new enough up route if it has a path back for it, and passes on exactly what it cannot answer and hears for the first time, with first path, advertised hops and numbers as they are in its table. |
| `AomdvLaws.ReplyLaw` | ns-2.35/aomdv/aomdv.cc:1058-1270 | The same for replies: what the table takes in, which reply is sent on and what it says, what the cache and the lifetimes of the paths used become. |
| `AomdvLaws.RepliesGoBack` | ns-2.35/aomdv/aomdv.cc:1195-1212 | In every run each reply sent on by a node that it is not about goes to the next hop of a path to the asking node that the sender stores at that moment; one is sent exactly if the reply was taken, is for somebody else, the way back is up, and the request is known and unanswered. |
| `AomdvLaws.ErrorLaw` | ns-2.35/aomdv/aomdv.cc:1272-1340 | An error takes out exactly the paths over its sender of up routes not newer than it says; routes that lose their only path go down under the largest number heard, and those that were announced are reported. |
| `AomdvLaws.LinkLaw` | ns-2.35/aomdv/aomdv.cc:472-519 | The same for a lost neighbour. |
| `AomdvLaws.PurgeLaw` | ns-2.35/aomdv/aomdv.cc:634-681 | A purge leaves exactly the unexpired paths, and an entry left without one is down under the next odd number not below the highest heard. |
| `AomdvLaws.DataLaw` | ns-2.35/aomdv/aomdv.cc:567-632 | A data packet goes over the first path, which lives on; without one the node asks, or says in an error that it has none. |
| `AomdvAnswers.AnswersAreWanted` | ns-2.35/aomdv/aomdv.cc:1098-1131 | In every reachable state of any network each reply answers a request of the node it is for, under its id, with a number at least the one asked for; a node whose entry is still the one it asked with takes every answer and then has a path over its sender. |
| `AomdvDiscovery.Discovery` | ns-2.35/aomdv/aomdv.cc:784-1270 | Discovery comes to its end: on any line of up to 30 hops, whatever the limits, some run makes every node on it store paths to both ends. |
| `AomdvAgent.Aomdv.OnRequest` | ns-2.35/aomdv/aomdv.cc:784-1056 | The handler in place has exactly the specified effect, in all branches, including answers from a fresh enough route and duplicate requests over new disjoint paths, and leaves all lists and counters of the routing table in order. |
| `AomdvAgent.Aomdv.UpdateReverse` | ns-2.35/aomdv/aomdv.cc:827-900 | The reverse-route part of it. |
| `AomdvAgent.Aomdv.Answer` | ns-2.35/aomdv/aomdv.cc:901-1056 | The part that answers or passes on. |
| `AomdvAgent.Aomdv.OnReply` | ns-2.35/aomdv/aomdv.cc:1058-1270 | The handler of replies in place has exactly the specified effect. |
| `AomdvAgent.Aomdv.OnError` | ns-2.35/aomdv/aomdv.cc:1272-1340 | The loop over the destinations of an error gives exactly the specified table and report. |
| `AomdvAgent.Aomdv.HandleLinkFailure` | ns-2.35/aomdv/aomdv.cc:472-519 | The loop over the table removes the paths over the neighbour and takes down exactly the entries left without a path. |
| `AomdvAgent.Aomdv.RtPurge` | ns-2.35/aomdv/aomdv.cc:634-681 | The loop over the table purges every entry as specified. |
| `AomdvAgent.Aomdv.RtResolve` | ns-2.35/aomdv/aomdv.cc:567-632 | A data packet uses the first path of an up route and gives it a new lifetime, starts a request when it is the node's own, or is answered with an error. |
| `AomdvRtable.RtEntry.PathPurge` | ns-2.35/aomdv/aomdv_rtable.cc:388-406 | Restarting after each deletion, the purge of the linked list ends with exactly the unexpired paths in order, and the counter right. |
| `AomdvRtable.RtEntry.PathDelete` | ns-2.35/aomdv/aomdv_rtable.cc:261-274 | Takes the first path over a neighbour out of the linked list, and only that, and the entry keeps everything else. |
| `AomdvRtable.RtEntry.PathInsert` | ns-2.35/aomdv/aomdv_rtable.cc:180-204 | After the walk to the last cell and the relinking, the list has the path at its end and all others as they were, linked both ways, and counts one more. |
| `AomdvRtable.RtEntry.Unlink` | ns-2.35/aomdv/aomdv_rtable.cc:266-269 | Taking any cell out keeps the links in both directions, the order of the other paths and the counter right. |
| `AomdvRtable.RtEntry.PathEmpty` | ns-2.35/aomdv/aomdv_rtable.cc:308-320 | List and counter agree on emptiness, so neither of the source's assertions fails. |
| `AomdvRtable.RtEntry.NewDisjointPath` | ns-2.35/aomdv/aomdv_rtable.cc:233-244 | True exactly when no path in the list shares the next hop or the last hop. |
| `AomdvRtable.RtEntry.GetMaxHopcount` | ns-2.35/aomdv/aomdv_rtable.cc:346-359 | The largest hop count in the list, or 255 when there is none. |
| `AomdvPaths.UnexpiredDisjoint` | ns-2.35/aomdv/aomdv_rtable.cc:388-406 | Purging keeps the paths pairwise disjoint. |
| `Asim.Allocator.NewUpdate` | ns-2.35/asim/asim.cc:845-961 | For any non-negative rates: short flows are untouched, every long flow with a rate gets one, and, told by link rates, routes and flows alone, all flows together load every link to at most 1.05 times its rate if and only if the short flows fit and leave something wherever a long flow with a rate passes; then every such flow crosses a link loaded to exactly 1.05 times its rate, and the rates are weighted max-min fair. The loop ends after at most as many rounds as links, no flow is scaled in two of them, and if the links had room every long flow with a rate is scaled in one, at levels that never rise. |
| `Asim.Allocator.Turn` | ns-2.35/asim/asim.cc:905-955 | One round scales exactly the unscaled long flows of the bottleneck, keeps the books of every link and the history of the rounds, finishes a link that no later round picks again, and, if the links had room, does not raise the level. |
| `Asim.Allocator.FindBottleneck` | ns-2.35/asim/asim.cc:879-890 | Finds a link with the largest ratio of unscaled throughput to remaining capacity, or none. |
| `Asim.Allocator.constructor` | ns-2.35/asim/asim.cc:487-530 | The lists of flows through each link are the routes read the other way round, with repetitions. |
| `Asim.RoundKeepsFilled` | ns-2.35/asim/asim.cc:905-934 | A round keeps, for every link, unscaled throughput between zero and level times remaining capacity, and the factors of flows scaled so far at least the level. |
| `Asim.LowerLevel` | ns-2.35/asim/asim.cc:936-955 | The next bottleneck's ratio is never above the last, and bounds every link again. |
| `Asim.Finish` | ns-2.35/asim/asim.cc:845-961 | When no link has both capacity and unscaled throughput left, feasibility holds exactly if all links had room, and the result is then fair. |
| `AsimLoad.Problem.BottleneckedIsFair` | ns-2.35/asim/asim.cc:904-934 | Rates for which every flow has a bottleneck are max-min fair: nobody can get more without a flow of no larger factor getting less. |
| `AsimLoad.Problem.FairIsUnique` | ns-2.35/asim/asim.cc:845-961 | Two max-min fair allocations give every weighted flow the same rate, so the algorithm computes the fair allocation. |
| `ClbWindow.DeliversInOrder` | ns-2.35/apps/clb_tunnel.cc:948-1019 | Without loss and timeouts, if no packet overtakes one sent a buffer's capacity before it, the packets are handed over in exactly the sender's order and nothing is left. |
| `ClbWindow.NeverExitsIff` | ns-2.35/apps/clb_tunnel.cc:788-814 | Without loss and timeouts, packets that arrive once each are all read right and never make the simulation exit if and only if the network reorders within the capacity of the buffer. |
| `ClbWindow.NeverOutOfDate` | ns-2.35/apps/clb_tunnel.cc:778-785 | Without timeouts no packet is out of date on arrival, and each falls within the capacity from the packet expected. |
| `ClbWindow.RunIsSafe` | ns-2.35/apps/clb_tunnel.cc:1180-1256 | In every run with loss, duplicates, reordering and timeouts whose arrivals are less than half the index space old the buffer hands packets over in sending order, each at most once. |
| `ClbWindow.NothingLost` | ns-2.35/apps/clb_tunnel.cc:771-822 | In every run, whatever arrives how late, every arrival is handed over or held exactly as often as it arrived, and what is held fits the buffer. |
| `ClbWindow.ReadRightIff` | ns-2.35/apps/clb_tunnel.cc:779-780 | A packet that the code takes is taken for what it is if and only if it is old by less than half the index space, up to full rounds, or new by at most half. |
| `ClbWindow.FollowsIff` | ns-2.35/apps/clb_tunnel.cc:771-822 | Over a whole run, with blocks of up to 10922 packets, the code does step by step what a receiver that knows the packet numbers does, if and only if every arrival is recent in that sense. |
| `ClbWindow.TooOldIsMisread` | ns-2.35/apps/clb_tunnel.cc:779-800 | The run that shows it for every block size: after 65535 packets in order a duplicate of the first one is stored for packet 65536 and handed over in sequence a second time. |
| `ClbWindow.AtMostOnce` | ns-2.35/apps/clb_tunnel.cc:771-822 | In every run a packet the network did not duplicate is handed over at most once, whichever way, and not while it waits. |
| `ClbWindow.StrandedIff` | ns-2.35/apps/clb_tunnel.cc:1238-1255 | In every run packets wait with no timer running if and only if the last event was a timeout that found nothing at the next K places. |
| `ClbWindow.Strands` | ns-2.35/apps/clb_tunnel.cc:1238-1255 | For every block size this happens: a packet K places ahead, one timeout, and the packet expected next is held for good. |
| `ClbWindow.HandOverStopsAtGap` | ns-2.35/apps/clb_tunnel.cc:948-1019 | Exactly the places before the first gap are handed over, and the timer runs exactly when something stays behind. |
| `ClbWindow.ExpiryFinds` | ns-2.35/apps/clb_tunnel.cc:1213-1255 | A timeout hands over from the first place held if it is one of the next K, and otherwise gives up on K places and keeps the rest. |
| `ClbTunnel.OutOfDateIff` | ns-2.35/apps/clb_tunnel.cc:778-785 | The wrapped out-of-date test tells old from new if and only if the packet is less than half the index space old and at most half of it new. |
| `ClbTunnel.PositionExactIff` | ns-2.35/apps/clb_tunnel.cc:798-799 | With 3K slots the slot formula on wrapped indices is exact for every state of the ring if and only if K is at most 10922. |
| `ClbTunnel.Sender.SetPacket` | ns-2.35/apps/clb_tunnel.cc:506-530 | The n-th data packet carries index n modulo 65536; a parity packet does not use its index up. |
| `ClbTunnel.Receiver.InsertReorderBuffer` | ns-2.35/apps/clb_tunnel.cc:771-823 | Stores, hands over as late, or takes one of the two error exits, exactly as the packet's wrapped index says, for packets of any age. |
| `ClbTunnel.Receiver.CheckReorderBuffer` | ns-2.35/apps/clb_tunnel.cc:948-1019 | The recursion terminates, never reaches an error exit, and hands over what the window says. |
| `ClbTunnel.Receiver.Decode` | ns-2.35/apps/clb_tunnel.cc:649-769 | The arrival of any packet, however old or new, is the window's arrival step. |
| `ClbTunnel.Receiver.DecodeTimeout` | ns-2.35/apps/clb_tunnel.cc:1180-1256 | The timeout is the window's expiry step; its error exit cannot be reached. |
| `BayRuns.AgreeIff` | ns-2.35/baytcp/tcp-full-bay.cc:801-829 | For segments cut in any way, in any order and with any duplicates: after every one of them rcv_nxt_ is the first byte not received and the queue is sorted and holds exactly what arrived beyond it, if and only if every one fits. |
| `BayReassembly.FitsIff` | ns-2.35/baytcp/tcp-full-bay.cc:1314-1404 | One arrival in a right state leaves a right state if and only if it fits: it brings nothing new; or overlaps what was taken in while the queue is empty; or no queued segment starts inside it and, if it fills the hole, the last segment that leaves reaches as far as any that leaves with it. |
| `BayRuns.RunAgrees` | ns-2.35/baytcp/tcp-full-bay.cc:801-829 | For segments cut in one way, in any order and with any duplicates, rcv_nxt_ is the first byte not received and the queue is sorted and holds exactly what arrived beyond it, as often as it arrived: such segments always fit. |
| `BayRuns.NeverGoesBack` | ns-2.35/baytcp/tcp-full-bay.cc:1314-1404 | In every run, however the segments are cut and overlap, rcv_nxt_ never decreases. |
| `BayRuns.ReactionLaw` | ns-2.35/baytcp/tcp-full-bay.cc:1094-1100 | In every run a segment makes an upcall exactly if data with PUSH is taken in by it, and is acknowledged at once exactly if it begins early and brings nothing new, or brings something, meets a hole or a queue, and nothing pushed is taken in; every one with bytes that leaves rcv_nxt_ where it was is acknowledged at once. |
| `BayRuns.AllArrived` | ns-2.35/baytcp/tcp-full-bay.cc:1054-1104 | Once all bytes up to a point have arrived, in segments that fit, all are taken in and the queue is empty. |
| `BayReassembly.OverlapRightIff` | ns-2.35/baytcp/tcp-full-bay.cc:801-829 | A segment that partly overlaps what was taken in leaves rcv_nxt_ at the first missing byte if and only if the queue is empty. |
| `BayRuns.OverlapLosesBytes` | ns-2.35/baytcp/tcp-full-bay.cc:1320-1321 | Three segments after which bytes that never arrived are acknowledged. |
| `BayRuns.QueuedOverlapStalls` | ns-2.35/baytcp/tcp-full-bay.cc:1345-1404 | Three segments that overlap each other in the queue: everything has arrived, rcv_nxt_ stays behind, and sending the missing piece again does not help. |
| `BayRuns.NestedFallsShort` | ns-2.35/baytcp/tcp-full-bay.cc:1380-1403 | Three segments, one queued behind a longer one that covers it: everything has arrived, and rcv_nxt_ comes to the end of the shorter one. |
| `BayReassembly.InSequenceIs` | ns-2.35/baytcp/tcp-full-bay.cc:1380-1403 | Each segment that leaves the queue is reached by the one before it; what stays starts beyond the last that leaves. |
| `BayReceiver.Receiver.Recv` | ns-2.35/baytcp/tcp-full-bay.cc:801-1104 | The data part of recv on the linked list is the specified step, with the acknowledgement and upcall it asks for. |
| `BayReceiver.Receiver.Add` | ns-2.35/baytcp/tcp-full-bay.cc:1314-1404 | Insertion and draining of the doubly linked list have exactly the specified effect on queue, rcv_nxt_ and returned flags. |
| `BayReceiver.Receiver.LinkAfter` | ns-2.35/baytcp/tcp-full-bay.cc:1360-1369 | Relinking in the middle or at the end keeps the list well formed in both directions. |
| `BayReceiver.Receiver.Drain` | ns-2.35/baytcp/tcp-full-bay.cc:1380-1404 | The loop removes exactly the segments in sequence. |
| `BayReceiver.Receiver.Clear` | ns-2.35/baytcp/tcp-full-bay.cc:1297-1306 | The queue is empty afterwards and rcv_nxt_ is untouched. |
| `TokenBucket.Conformance` | ns-2.35/adc/tbf.cc:74-147 | In every run and every interval the bits sent are at most the larger of bucket and largest packet, plus rate times the length; packets leave in the order accepted and the queue never exceeds its limit. |
| `TokenBucket.ConformsIff` | ns-2.35/adc/tbf.cc:74-147 | The classic bound with the bucket as burst holds in all intervals of a run if and only if no packet sent is larger than the bucket. |
| `TokenBucket.ConformsWheneverIff` | ns-2.35/adc/tbf.cc:74-147 | Every run that is offered packets of up to a given size meets the classic bound if and only if that size fits the bucket or there is no queue. |
| `TokenBucket.Oversized` | ns-2.35/adc/tbf.cc:126-147 | The run that fails: a packet larger than the bucket waits alone and is sent when the timer is due. |
| `TokenBucket.SentFits` | ns-2.35/adc/tbf.cc:115-124 | As long as the packets sent fit the bucket the tokens stay between zero and the bucket. |
| `TokenBucket.ReleasedOnTime` | ns-2.35/adc/tbf.cc:126-147 | A packet released by the timer leaves the bucket with exactly zero tokens if and only if it fits the bucket. |
| `TokenLaw.ArrivalLaw` | ns-2.35/adc/tbf.cc:74-113 | In every run an arrival is dropped if and only if packets wait and the queue is full, or there is no queue and sending it now would break the traffic bound in some interval; it leaves as it arrives if and only if nobody waits and the bound allows it; otherwise it joins the queue. No tokens are mentioned. |
| `TokenLaw.HeadLaw` | ns-2.35/adc/tbf.cc:101-110 | In every run the packet that waits first is due, if it fits the bucket, at the first moment at which the bound lets it go. |
| `TokenLaw.EveryArrival` | ns-2.35/adc/tbf.cc:74-147 | In every run each packet offered is accepted or dropped, once and in order, and the accepted ones were sent, in order, or wait. |
| `Tbf.Filter.Recv` | ns-2.35/adc/tbf.cc:74-113 | The arrival of a packet is the specified step. |
| `Tbf.Filter.Timeout` | ns-2.35/adc/tbf.cc:126-147 | The timer is the specified step; its error exit cannot be reached while the timer invariant holds. |
| `Tbf.Filter.GetUpdatedTokens` | ns-2.35/adc/tbf.cc:115-124 | Tokens grow with time up to the bucket. |
| `Reservation.AllOrNothing` | ns-2.35/adc/sa.cc:175-190 | With the messages of all flows interleaved, once a flow's CONFIRM has crossed its path every link of it holds the rate or none does, every one exactly if all admitted it. |
| `Reservation.RateConserved` | ns-2.35/adc/param-adc.cc:78-96 | At all times each link has reserved exactly the sum of the rates it holds, at least zero and at most what it allows, and its counter is the number of flows it holds, or one less when the link is not traced. |
| `Reservation.GrantedIff` | ns-2.35/adc/salink.cc:86-105 | In every run a REQUEST is granted on a link if and only if the rates the link holds leave room for it, and its decision bit survives exactly if it is granted. |
| `Reservation.AllReturned` | ns-2.35/adc/salink.cc:114-132 | When every flow has been rejected or torn down nothing is reserved and no slot is taken. |
| `Reservation.RejectUndoesIff` | ns-2.35/adc/salink.cc:114-126 | A rejecting CONFIRM restores what was reserved before the REQUEST if and only if the link admitted the flow or had no slot with its id. |
| `Reservation.RejectTakesTooMuch` | ns-2.35/adc/salink.cc:114-126 | It happens: a flow is refused on a link where the decision for another flow with the same id is pending, and its CONFIRM takes that flow's rate back. |
| `Reservation.RunKeeps` | ns-2.35/adc/salink.cc:74-141 | The invariant over links, tables and flows holds after every run in which a flow does not take the id of one that is still being decided on. |
| `SignalLink.StepIsPassed` | ns-2.35/adc/salink.cc:74-141 | A step of the network model is what the link object does with the flow's message. |
| `SignalLink.SALink.Recv` | ns-2.35/adc/salink.cc:74-141 | Every message kind has exactly the specified effect on rate, table and counter, and the decision bit leaves combined with the link's. |
| `SignalLink.PassedLaw` | ns-2.35/adc/salink.cc:74-141 | A REQUEST that fits is reserved, counted and waits in exactly one slot more, one that does not goes on refused and leaves the link alone; a CONFIRM ends exactly one wait and takes rate and count back if and only if it refuses; a TEARDOWN takes them back. |
| `SignalLink.SALink.Lookup` | ns-2.35/adc/salink.cc:185-192 | The first slot with the id, or -1. |
| `SignalLink.ParamAdc.AdmitFlow` | ns-2.35/adc/param-adc.cc:89-96 | Admits exactly if the rate fits, and then reserves it. |
| `SignalLink.SourceAgent.Recv` | ns-2.35/adc/sa.cc:175-208 | An answer is turned into a CONFIRM with the same decision, and the source runs exactly if it was accepted. |
| `CongaFlowlets.Sticky` | ns-2.35/apps/conga.cc:193-250 | Packets of a table entry whose successive gaps are below T_FL all get the same port, wherever the ticks of the timer fall. |
| `CongaFlowlets.StaysIff` | ns-2.35/apps/conga.cc:430-447 | A packet follows the one before it exactly if at most one tick came between them, and otherwise gets the best port. |
| `CongaFlowlets.GapDecides` | ns-2.35/apps/conga.cc:430-447 | A gap below T_FL leaves room for at most one tick, a gap above 2 T_FL contains at least two. |
| `CongaFlowlets.GapIff` | ns-2.35/apps/conga.cc:430-447 | Whatever came before and wherever the ticks fall, a packet gets the port of the one before it if and only if the gap is below T_FL, and a fresh choice if and only if it is above 2 T_FL. |
| `CongaFlowlets.TwoPeriodsMayStay` | ns-2.35/apps/conga.cc:430-447 | A gap of exactly 2 T_FL does not force a fresh choice. |
| `CongaFlowlets.Agent.FindBestPath` | ns-2.35/apps/conga.cc:342-355 | Whatever the random start, the port found is a least congested one. |
| `CongaFlowlets.Agent.SetPacket` | ns-2.35/apps/conga.cc:252-275 | A valid entry decides the port; otherwise a least congested port is chosen and remembered. |
| `CongaFlowlets.Agent.FlowletTimeout` | ns-2.35/apps/conga.cc:430-447 | Every entry ages as specified. |
| `ClbResponses.RoundRobin` | ns-2.35/clb/clb-processor-burst.cc:597-618 | Between two returns of a record every other record that was there was returned, unless it or the first record expired. |
| `ClbResponses.FirstComesFirst` | ns-2.35/clb/clb-processor-burst.cc:597-618 | In any run a record is not returned before one ahead of it in the queue has been returned or has expired. |
| `ClbResponses.NextIs` | ns-2.35/clb/clb-processor-burst.cc:597-618 | What is returned is the first record that has not expired; those before it are removed, all others keep their order. |
| `ClbResponses.TurnLaw` | ns-2.35/clb/clb-processor-burst.cc:597-618 | Nothing is returned if and only if all records have expired, what is returned has not, and exactly the expired records ahead of it are removed. |
| `ClbResponses.TimesRight` | ns-2.35/clb/clb-processor-burst.cc:210-231 | In every run the time of a record is that of the last packet on its path outside bursts, or of the packet it was made for. |
| `ClbResponses.RunMatched` | ns-2.35/clb/clb-processor-burst.cc:569-618 | In every run each record is queued exactly once and nothing else is queued. |
| `ClbResponses.Processor.CaNext` | ns-2.35/clb/clb-processor-burst.cc:597-618 | The loop terminates and is the specified turn. |
| `ClbResponses.Processor.Recv` | ns-2.35/clb/clb-processor-burst.cc:210-231 | A packet gets its record, made if there is none, and updates it, unless it is one of a burst. |

## Left out

- AodvSafety.LoopFreedom: the safe half of `AodvWidth.LoopFreeIff`; on wider networks, or with local repair on more than three nodes, it is false.
- AodvSafety.JourneyClimbs: same bound on the number of nodes.
- AodvAgent.Aodv.OnError: the capacity of 100 destinations of an error message is not modelled, nor the packets dropped from the interface queue.
- AodvAgent.Aodv.RtPurge: the forwards and requests that the purge makes for packets in the send buffer are not part of it; they are data and request events of the network.
- AodvAgent.Aodv.RtResolve: which packets wait in the send buffer is not tied to the routing table; the buffer is modelled on its own.
- AodvAgent.Aodv.Request: the retry limit, the request timeout and the time to live of the ring search are left to the caller; runs have every choice of them.
- AodvRqueue.Rqueue.Enque: the reason recorded for a dropped packet is not modelled.
- AomdvSafety.LoopFreedom: the safe half of `AomdvWidth.LoopFreeIff`; on wider networks it is false.
- AomdvAgent.Aomdv.RtPurge: the requests that the purge makes for packets waiting for down routes are not part of it; they are request events of the network.
- AomdvRuns.AssertsNeverFail: the assertions that list and counter agree on emptiness are in `RtEntry.PathEmpty`, those on `rt_hops`, a field that is never set, are not modelled.
- AomdvTable.Rtable.CountersRight: the routing table is a map from destinations to entry objects; the source walks a list of entries with different destinations.
- AOMDV with link-disjoint paths or link-layer detection, and packet salvaging.
- AODV gratuitous replies, latency history, and logging. Local repair is modelled only as far as the loop needs it: its guard, its request and its timer.
- asim: the queueing formulas of `Update` called at the end of `newupdate`, the input parser, and rounding; the incidence lists are sequences rather than arrays.
- CLB tunnel with parity packets (generations, decoding) and the choice of virtual paths: advancing the expected index twice leaves no clean claim about delivery there.
- ClbWindow.RunIsSafe: order is stated for runs whose arrivals are recent, the runs that `FollowsIff` shows to be read right; `TooOldIsMisread` shows it false of others. What holds of all runs is in `NothingLost` and `AtMostOnce`.
- BayTCP: FIN, SYN and RST handling, congestion control, acknowledgement policy beyond the immediate-acknowledgement flag, and the data passed to the application.
- Tbf.Filter.Timeout: the scheduler is modelled by runs in which the timer event comes exactly when it is due; cancelling it at destruction is left out.
- Reservation.AllOrNothing: signalling packets are not lost and do not overtake each other on a flow's path; a lost CONFIRM would leave its reservations standing.
- Reservation.RunKeeps: that an id is not reused while a flow with it is being decided on is up to the users of the simulator; `RejectTakesTooMuch` shows what happens otherwise.
- Reservation signalling: only the parameter-based admission test; the measurement-based tests and estimators, and the traffic generator behind the source agent, are not part of this model.
- CONGA: hashing of packets to table entries, the congestion feedback between leaves and the rate estimators.
- CLB processor: virtual path costs, the rates that bursts measure and rate records; a record is its time of last update.
- Tcl bindings, tracing, debug output and packet memory throughout.
