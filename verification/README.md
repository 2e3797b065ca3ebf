# Managed flooding, modelled and proved

A Dafny 4.11 model of a decentralized emergency beacon mesh: a victim broadcasts a signed 25-byte
packet, relays rebroadcast it with one hop less to live, local caches keep it from circulating for
ever, exits hand it on. `dafny verify dfyconfig.toml` checks everything.

| file | models |
|---|---|
| `Packets.dfy` | the packet, its byte layout, the time-to-live bits, what a relay sends on |
| `Signatures.dfy` | building and signing on the victim, checking and decoding on the scanner |
| `CircularBuffer.dfy` | the 256-row deduplication ring of the UDP nodes |
| `UdpNodes.dfy` | one turn of the receive loop of a relay and of an exit |
| `Topology.dfy` | zones, bridges, distance |
| `Flood.dfy` | the flood as a transition system over all nodes and copies in flight; it always dies out |
| `Spread.dfy` | the ways a packet can spread over a topology: plans, chains of relays, who is reached |
| `Delivery.dfy` | who gets the packet: in any run, in any order of arrival |
| `LockStep.dfy` | who gets it when copies with more hops left arrive first |
| `Outcomes.dfy` | which outcomes the order of arrival can bring about, and when the packet always arrives |
| `MeshGenerator.dfy` | the random topology generator, its breadth-first search, its exit placement |
| `Simulation.dfy` | generator and flood together, and two examples where delivery fails |
| `TimeAwareCache.dfy` | the ESP32 relay's table of recent packets |
| `EspRelay.dfy` | the ESP32 relay: scan callback and main loop, as a class and as a state machine |
| `EspInvariants.dfy` | what each run of it keeps, on any clock, wrapping included |
| `EspHeard.dfy` | the sender counts, read off the trace of receptions |
| `EspPayload.dfy` | what it takes for a packet and what it puts on the air, back to the reception it stems from |
| `EspFate.dfy` | what becomes of an accepted packet: when it is marked as done, and when wrongly |
| `EspTiming.dfy` | its timing, and what the table forgets |
| `EspIdeal.dfy` | the table against an unbounded timed set fed from the received packets |
| `EspOverload.dfy` | a run that overloads the table |
| `EspDrain.dfy` | the main loop working off what is pending |
| `Words.dfy`, `MurmurHash3.dfy` | machine words and the three hash functions |
| `MurmurInverse.dfy` | the hash functions undone |
| `Distinct.dfy`, `Arithmetic.dfy` | sequences without repeats; minimum, multiples, quotients |

## How to read it

Code that works in place is a class or a method with a loop, proved equal to a function on values; the
theorems are about runs of those functions. Random choices are arbitrary: `:|` and `*` in methods, event
arguments in runs. The state of the ESP32 relay carries a record of every acceptance (every call of
`addToCache`), which no decision reads.

Three laws that the design suggests hold only within limits, and the limits are exact here.

- A look-up in the 256-entry table answers as an unbounded timed set, fed from the received packets alone,
  after every event if and only if that set never takes a packet on top of 256 of the last two seconds
  (`EspIdeal.RefinementExactly`). 257 packets at once break it (`EspOverload.OverloadHappens`).
- The ESP32 relay marks a packet as done when it was burst, heard from four senders, or handed on by a
  gateway - in every state of a run if and only if no turn ends a burst whose entry went to another packet
  meanwhile (`EspFate.GivenUpExactly`). The end of a burst marks the entry by its index, so that packet is
  never sent: four events suffice (`EspFate.GivingUpHappens`).
- A relay caches a packet before it looks at the hops left, so a copy that made a detour can shadow a
  better one. What the order of arrival can do is exactly what the topology allows
  (`Outcomes.OutcomesExactly`): a flood goes by a spread, an assignment of hop counts to relays in which
  each takes the packet from the victim or from a neighbour one hop before, the twentieth passes nothing
  on, and nobody who hears the packet is left out. So a mesh always delivers if and only if each of its
  spreads reaches all that is connected (`Outcomes.DeliveryExactly`), and a copy never dies in front of a
  relay that needs it if and only if no 20 relays form a chain (`Outcomes.HopExhaustionExactly`). In such
  a mesh, as in each of at most 19 relays, everybody connected gets the packet
  (`Delivery.DeliveredInAnyOrder`). A node that hangs on the twentieth relay of a chain can be cut off,
  however near it is (`Outcomes.CanBeCutOff`, `Simulation.ShadowedExit`), and one more than 19 relays
  away always is (`Delivery.NeverBeyondRadius`, `Simulation.LineNeverHeard`). When copies with more hops
  left arrive first, the reach is exactly 19 relays at any size (`LockStep.Radius`).

The results on delivery are about lossless runs in which no node forgets the packet while the run lasts;
what the nodes did before is of no account. At most 256 hashes about during the run ensure that
(`Delivery.FewHashesRemembered`); a node that has forgotten a packet takes it a second time
(`Delivery.ForgottenIsTakenAgain`).

`generate_mesh.py` asks, at line 97, whether a zone found again should keep the lesser depth: it would
never change (`MeshGenerator.Search`).

Where the code and its texts differ, the code is followed: the log line in `timeAwareCache.cpp` speaks of
15 seconds where the lifetime is two.

## Model

| member | source | states |
|---|---|---|
| Packets.MasksAreBitwise | arduino/src/esp-relay.cpp:92-99 | the arithmetic used for the time-to-live bits is the masking of the source, for every byte |
| Packets.WithTtl | udp-simulator/node.cpp:88-94 | writing the low five bits leaves the upper three alone and reads back |
| Packets.UnpackPack | arduino/include/emergencyPacket.h:7-48 | reading the packed struct back gives the packet |
| Packets.Layout | arduino/include/emergencyPacket.h:7-48 | each byte of the struct: phone hash, time and signature little-endian at 0, 4 and 17, flags at 8, location at 9 |
| Packets.PackUnpack | python-scanner/ble-scanner.py:47-50 | any 25 bytes are the packing of what is read from them |
| Signatures.EmergencyPacket.Build | arduino/src/esp-victim.cpp:32-68 | filling the struct in place, phone number hashed, ends in the packet signed before its time to live was set |
| Signatures.VerifyHmac | python-scanner/ble-scanner.py:28-34 | the byte check accepts exactly when the signature field is the MAC of the message with its low flag bits masked |
| Signatures.Callback | python-scanner/ble-scanner.py:36-75 | a report is made exactly of 25 bytes from company 0xFFFF, is that of their packet, and says valid exactly if bytes 17 to 24 are the MAC of the 17 before, the time to live masked out |
| Signatures.RelayedExactly | arduino/src/esp-relay.cpp:92-99 | a packet survives fewer forwards than its time to live, each lowers that by one and changes nothing else |
| Signatures.VerdictIgnoresTtl | python-scanner/ble-scanner.py:28-34 | no rewrite of the low flag bits changes the scanner's verdict, for valid and invalid packets alike |
| Signatures.SignatureSurvives | arduino/src/esp-victim.cpp:52-68 | a built packet makes at most 19 forwards and verifies at each hop if signing succeeded, otherwise only if its true MAC is zero |
| Signatures.ReportSurvives | python-scanner/ble-scanner.py:47-75 | phone hash, time and location read from the bytes at any hop are those of the packet signed, the time to live tells the hop, and it is reported valid exactly if signing succeeded or its true MAC is zero |
| Signatures.UnsignedReads | arduino/src/esp-victim.cpp:36-48 | phone hash, minutes, and position or nonce read from the fields are those put in |
| Signatures.BuiltReport | python-scanner/ble-scanner.py:47-75 | what the scanner reports at any hop of a packet a victim built: phone hash, minutes, position or nonce as put in, the hop, and whether it was signed |
| Signatures.CoordinateBytes | arduino/src/esp-victim.cpp:39-43 | on the wire a coordinate is the little-endian two's complement, latitude first |
| Signatures.PhoneHashSeed | arduino/src/esp-victim.cpp:36 | the phone field is the 32-bit hash of the number with seed 112: undoing it gives that seed |
| Signatures.CallersToldApart | arduino/src/esp-victim.cpp:36 | phone numbers that differ within one block only stay different in whatever packets are built with them, heard at any hops |
| Signatures.SignatureBinds | python-scanner/ble-scanner.py:28-34 | where the MAC separates two messages, a signature verifies for one packet only, up to its time to live |
| CircularBuffer.CircularBuffer.constructor | udp-simulator/node.cpp:72-73 | the zeroed ring remembers 256 zeros |
| CircularBuffer.CircularBuffer.ContainsBuff | udp-simulator/lib/circularBuff.cpp:3-9 | finds the first row with the hash, or says that it is not among the last 256 of zeros and acceptances |
| CircularBuffer.CircularBuffer.AddToBuff | udp-simulator/lib/circularBuff.cpp:11-30 | a new hash takes the oldest row, a remembered one changes nothing; the row returned holds it |
| CircularBuffer.SeenExactly | udp-simulator/lib/circularBuff.cpp:3-30 | a hash is remembered exactly while fewer than 256 acceptances followed its own, or while zeros of the start remain |
| CircularBuffer.RunsAreHistories | udp-simulator/node.cpp:84-87 | over any received sequence nothing is accepted while remembered |
| CircularBuffer.ConsecutiveDistinct | udp-simulator/node.cpp:84-87 | any 257 consecutive acceptances are pairwise distinct |
| CircularBuffer.FewHashesNeverForgotten | udp-simulator/node.cpp:84-87 | from any point on, with at most 256 hashes about, each is accepted at most once and none accepted since is forgotten |
| UdpNodes.RelayNode.Receive | udp-simulator/node.cpp:84-139 | caches first; rebroadcasts exactly a packet not remembered with more than one hop left, lowered by one |
| UdpNodes.ExitNode.Receive | udp-simulator/exit.cpp:64-76 | finishes exactly a packet not remembered, its time to live cleared |
| Flood.ArrivalExactly | udp-simulator/node.cpp:84-127 | an arrival uses up the one copy and adds, for each node, as many as the zones it shares with a forwarding relay |
| Flood.RebroadcastIsLighter | udp-simulator/node.cpp:88-127 | a copy weighs more than all copies its forwarding makes, together |
| Flood.FanExists | udp-simulator/node.cpp:99-124 | every mesh bounds the copies one rebroadcast makes |
| Flood.FloodsDieOut | udp-simulator/node.cpp:84-134 | whatever topology, caches, losses and order: deliveries and losses are bounded by the weight of what was in flight and sent |
| Delivery.NeverBeyondRadius | udp-simulator/node.cpp:88-94 | in every run, lossy or not, only nodes and zones within 19 relays of the victim's zone hear or carry the packet |
| Delivery.FewHashesRemembered | udp-simulator/node.cpp:84-87 | whatever the nodes accepted before, with at most 256 hashes about during the run no node forgets the packet |
| Delivery.ForgottenIsTakenAgain | udp-simulator/node.cpp:84-87 | a copy reaching a node that accepted the packet is accepted again exactly if the node has forgotten it |
| Delivery.NoHopExhaustion | udp-simulator/node.cpp:84-134 | without loss, where no 20 relays form a chain, a copy on its way to a relay that has not seen the packet always has a hop left |
| Delivery.DeliveredInAnyOrder | udp-simulator/node.cpp:84-134 | then, once the flood is over, each relay and exit connected to the victim's zone has accepted it exactly once, and no other has |
| Delivery.DeliveredInSmallMesh | udp-simulator/node.cpp:84-134 | so in each mesh of at most 19 relays |
| Delivery.EverySpread | udp-simulator/node.cpp:84-134 | in any mesh, once the flood is over, exactly the nodes that some spread reaches have accepted the packet |
| Spread.PlannedChain | udp-simulator/node.cpp:88-94 | a relay that takes the packet as the d-th is the last of a chain of d distinct relays |
| Spread.PlanCompletes | udp-simulator/node.cpp:88-127 | every plan is part of a spread: it can be followed until nobody who hears the packet is left out |
| Outcomes.OutcomesExactly | udp-simulator/node.cpp:84-134 | a set of nodes can be the outcome of a lossless flood exactly if a spread of the topology reaches just those nodes |
| Outcomes.DeliveryExactly | udp-simulator/node.cpp:84-134 | every order of arrival delivers to all that is connected exactly if every spread reaches it |
| Outcomes.HopExhaustionExactly | udp-simulator/node.cpp:84-94 | no order of arrival lets a copy die before a relay that has not seen the packet, exactly if no 20 relays form a chain |
| Outcomes.CanBeCutOff | udp-simulator/node.cpp:84-94 | a node whose only zone hangs on the twentieth relay of a chain is left without the packet by some lossless run |
| LockStep.NearerHaveIt | udp-simulator/node.cpp:84-94 | in lock step, once no copy has more hops left than some level, every node nearer than that has accepted the packet |
| LockStep.Radius | udp-simulator/node.cpp:84-134 | in lock step, at any size: exactly the nodes within 19 relays accept the packet, once each |
| LockStep.ZoneAtDepth | udp-simulator/node.cpp:84-134 | in lock step a zone of depth d carries it, first and at best with 20 - d hops, if d is at most 19, and never otherwise |
| LockStep.FirstAiring | udp-simulator/node.cpp:84-134 | at any time of such a run, the first airing in a zone of depth d had 20 - d hops |
| Topology.WithinIffRoute | udp-simulator/tools/generate_mesh.py:80-87 | distance by levels is the length of the shortest route over bridges |
| Topology.DepthDecides | udp-simulator/tools/generate_mesh.py:89-99 | a zone of depth d is within k relays exactly if d is at most k |
| MeshGenerator.ChooseNetworks | udp-simulator/tools/generate_mesh.py:47-71 | a main-mesh relay takes exactly one active zone and some inactive ones, an island never takes zone 1, none takes nothing, and how many each takes; which networks are taken fits the draw |
| MeshGenerator.GenerateRelays | udp-simulator/tools/generate_mesh.py:39-78 | for every random choice all active zones are reachable from zone 1, main-mesh relays are on active zones only, and any of them puts zone 1 in use; each relay has distinct networks, three or one and a tenth of the relays at most, two at least but where no more are to be had |
| MeshGenerator.BuildGraph | udp-simulator/tools/generate_mesh.py:80-87 | two zones are adjacent exactly if they differ and some relay is on both |
| MeshGenerator.Search | udp-simulator/tools/generate_mesh.py:89-99 | depths has exactly the zones reachable from zone 1, at their distances; taking a minimum would never have changed one |
| MeshGenerator.Expand | udp-simulator/tools/generate_mesh.py:94-99 | following the bridges of one zone keeps the queue sorted by depth and within two levels |
| MeshGenerator.SortByDepth | udp-simulator/tools/generate_mesh.py:101-102 | the reachable zones, the deepest first, those of one depth in the order found |
| MeshGenerator.RoundRobin | udp-simulator/tools/generate_mesh.py:110-116 | exit i gets target i modulo their number; no target has two exits more than another, nor more than one before it |
| MeshGenerator.PlaceExits | udp-simulator/tools/generate_mesh.py:101-117 | exits are on reachable zones, on the deepest, spread evenly, no more on a zone than on a deeper one, on distinct ones while there are enough, on all when there are more; exit i is on the deepest zone but i, modulo the number used, zones of one depth ranking as found |
| MeshGenerator.BuildMesh | udp-simulator/tools/generate_mesh.py:24-120 | the above for the whole generator; the zones emitted are exactly those in use, zone 1 always among them |
| Simulation.ExitHearsWithinDepth | udp-simulator/tools/generate_mesh.py:110-116 | in lock step an exit of a generated mesh hears the victim exactly if the computed depth of its zone is at most 19 |
| Simulation.EveryExitHears | udp-simulator/exit.cpp:64-71 | in a generated mesh without a chain of 20 relays every exit accepts the packet once, in any order of arrival |
| Simulation.LineNeverHeard | udp-simulator/node.cpp:88-94 | for each number of relays from 20 on there is a mesh with a connected exit that no run reaches |
| Simulation.ShadowedExit | udp-simulator/node.cpp:84-94 | with 20 relays a lossless run can end without an exit one relay away having heard the packet |
| TimeAwareCache.Table.CheckCache | arduino/src/timeAwareCache.cpp:3-42 | hits the first live entry of the packet, all before it swept and all behind it left alone, a new sender noted there; sweeps the whole table otherwise |
| TimeAwareCache.Table.KnowsSender | arduino/src/timeAwareCache.cpp:17-26 | whether the sender is among those counted |
| TimeAwareCache.Table.AddToCache | arduino/src/timeAwareCache.cpp:44-84 | sweeps the table and fills the first entry not live, else the earliest to expire, the first of equals, for 2000 ms and due after the jitter |
| TimeAwareCache.Table.OldestSlot | arduino/src/timeAwareCache.cpp:62-71 | the first index of least expiry time, whatever the times |
| EspRelay.Relay.OnResult | arduino/src/esp-relay.cpp:40-121 | ignores all but 27 bytes of company 0xFFFF; otherwise steps as the state machine, with the data sent up three times exactly from a connected gateway on a miss |
| EspRelay.Relay.Handle | arduino/src/esp-relay.cpp:61-117 | look-up, gateway path, queueing or dropping, as one step |
| EspRelay.Relay.Loop | arduino/src/esp-relay.cpp:171-229 | one turn ends the burst whose time is over, or else starts at most one |
| EspRelay.Relay.ScanDue | arduino/src/esp-relay.cpp:191-227 | cancels due entries heard from four senders up to the first due one that is not, and finds that one |
| EspRelay.RunExtends | arduino/src/esp-relay.cpp:40-229 | any event can come next in any run |
| EspInvariants.EveryState | arduino/src/esp-relay.cpp:40-229 | every run from power-up, on any clock, keeps the invariant of table, acceptances and radio |
| EspInvariants.UniqueLiveEntry | arduino/src/timeAwareCache.cpp:5-41 | at most one active entry carries a given packet, on any clock |
| EspInvariants.BurstSafety | arduino/src/esp-relay.cpp:171-229 | each acceptance is burst at most once, a gateway's never, even if its entry is reused during the burst; the radio sends exactly during a burst and scans otherwise |
| EspInvariants.GatewayExactly | arduino/src/esp-relay.cpp:81-87 | the second look-up finds the entry just written exactly if its deadline does not wrap, and leaves the count at one |
| EspInvariants.RedundancyExact | arduino/src/timeAwareCache.cpp:15-37 | the count of an active entry is the number of its distinct senders up to four, listed as first heard |
| EspInvariants.CancelExactly | arduino/src/esp-relay.cpp:193-224 | a due entry the loop comes to is burst exactly if fewer than four distinct senders were heard, cancelled exactly otherwise |
| EspInvariants.MarkedExactly | arduino/src/esp-relay.cpp:171-227 | a turn changes the table only by marking: the entry whose burst is over, else the due ones heard from four senders before the first due one that is not |
| EspInvariants.SendersDistinct | arduino/src/timeAwareCache.cpp:17-34 | the senders counted are those heard, without repeats |
| EspHeard.AcceptedOnce | arduino/src/timeAwareCache.cpp:44-84 | each acceptance on record was made by exactly one event of the run |
| EspHeard.HeardSinceAcceptance | arduino/src/timeAwareCache.cpp:15-37 | the senders of an active entry are those of all receptions of its packet since the one event that accepted it |
| EspPayload.AcceptedExactly | arduino/src/esp-relay.cpp:46-55 | data is taken for a packet exactly if it is the bytes of company 0xFFFF followed by the struct |
| EspPayload.AdvertisementAccepted | arduino/src/esp-relay.cpp:199-205 | whoever hears a transmission reads back the packet it was made from |
| EspPayload.BurstsForward | arduino/src/esp-relay.cpp:92-103 | each acceptance stems from one reception; what its bursts carry is that packet with one hop less, never a gateway's |
| EspPayload.OnAirIsForwarded | arduino/src/esp-relay.cpp:199-212 | while the radio sends, its data is the packet of one reception, not a gateway's, with one hop less, and that of the burst begun last |
| EspPayload.NextHop | arduino/src/esp-relay.cpp:92-99 | where the packet received was a victim's after n forwards, what is heard from the relay is that packet after n + 1, at most 19, and it still verifies |
| EspTiming.BurstTiming | arduino/src/esp-relay.cpp:171-218 | bursts start at least 500 ms apart, the deadline of one is 500 ms after its start, and none starts before acceptance plus a jitter of 50 to 200 ms |
| EspTiming.FullExactly | arduino/src/timeAwareCache.cpp:48-60 | if nothing live was lost, the table is full exactly when 256 packets were accepted in two seconds |
| EspIdeal.RefinesTimedSet | arduino/src/timeAwareCache.cpp:3-84 | while an unbounded set fed with the received packets takes none on top of 256 in two seconds, the relay accepts what it takes and a look-up hits exactly when it knows the packet |
| EspIdeal.RefinementExactly | arduino/src/timeAwareCache.cpp:60-72 | the table answers as that set after every event if and only if the set takes none on top of 256 |
| EspOverload.OverloadHappens | arduino/src/timeAwareCache.cpp:60-72 | there is a run after which they do not agree: 257 packets at once |
| EspTiming.EvictionOptimal | arduino/src/timeAwareCache.cpp:48-72 | a live entry is overwritten only when 256 distinct packets of the last two seconds fill the table, and then the one accepted first, the lowest index among equals |
| EspIdeal.ReacceptedApart | arduino/src/timeAwareCache.cpp:76 | under that load acceptances of one packet are at least two seconds apart |
| EspFate.ReceptionExactly | arduino/src/esp-relay.cpp:61-117 | a reception marks nothing and changes an entry at most by one sender or by its time being over, but for the one it takes: that was free or there was none, and is marked exactly for a gateway |
| EspFate.TurnGivesUp | arduino/src/esp-relay.cpp:175-186 | a turn marks a packet neither burst nor heard from four senders exactly if it waits on the entry whose burst ends |
| EspFate.GivenUpExactly | arduino/src/esp-relay.cpp:175-224 | in no state of a run is a packet marked that no gateway handed on, that was not burst and was heard from fewer than four senders, if and only if no turn ends the burst of an entry reused for a waiting packet |
| EspFate.GivingUpHappens | arduino/src/esp-relay.cpp:175-186 | it happens in four events: a late burst, its entry expired and reused before it ends |
| EspDrain.BurstsConserved | arduino/src/esp-relay.cpp:171-229 | a turn of the loop keeps the sum of bursts made and bursts to be made |
| EspDrain.TurnDecreasesWork | arduino/src/esp-relay.cpp:171-229 | each turn made after its deadlines does some of the work left |
| EspDrain.Drained | arduino/src/esp-relay.cpp:171-229 | whenever the turns are made, as many timely ones among them as there is work leave nothing pending, with as many bursts as entries waited with fewer than four senders |
| EspDrain.DrainedInTime | arduino/src/esp-relay.cpp:171-229 | turns past the first deadlines and 500 ms apart, as many as there is work, suffice among any others |
| EspDrain.DrainedEach | arduino/src/esp-relay.cpp:193-224 | once drained, each of those entries has its own acceptance burst once, the other waiting ones never |
| Words.OddFactorCancels | arduino/src/MurmurHash3.cpp:114-120 | wrapping `a * c + e` determines the low bits of `a` for every odd `c` |
| Words.XorShrCancels | arduino/src/MurmurHash3.cpp:70-74 | `x ^ (x >> s)` determines `x` |
| Words.SumsWrap | arduino/src/MurmurHash3.cpp:68-90 | sums and products of words are those of numbers modulo the width |
| Words.ShiftsScale | arduino/src/MurmurHash3.cpp:68-90 | shifts divide, and multiply what stays |
| Words.RotationMoves | arduino/src/MurmurHash3.cpp:33-41 | a rotation puts the upper bits below the others |
| MurmurHash3.ReadsLittleEndian | arduino/src/MurmurHash3.cpp:55-63 | words are read from the key lowest byte first, zeros beyond its end |
| MurmurInverse.Fmix32Undone | arduino/src/MurmurHash3.cpp:68-77 | the 32-bit finalizer has an inverse, given by the inverse factors |
| MurmurInverse.Fmix64Undone | arduino/src/MurmurHash3.cpp:81-90 | the same for 64 bits |
| MurmurInverse.SeedRecoveredX86_32 | arduino/src/MurmurHash3.cpp:94-146 | a hash and its key give back the seed, all rounds and the length undone one by one |
| MurmurInverse.SeedRecoveredX86_128 | arduino/src/MurmurHash3.cpp:150-251 | the same for four words |
| MurmurInverse.SeedRecoveredX64_128 | arduino/src/MurmurHash3.cpp:255-332 | the same for the 64-bit form |
| MurmurHash3.MurmurHash3_x86_32 | arduino/src/MurmurHash3.cpp:94-146 | the loop and the fall-through compute the hash of the zero-padded key |
| MurmurHash3.MurmurHash3_x86_128 | arduino/src/MurmurHash3.cpp:150-251 | the same for four 32-bit words |
| MurmurHash3.MurmurHash3_x64_128 | arduino/src/MurmurHash3.cpp:255-332 | the same for two 64-bit words |
| MurmurHash3.TailWord64 | arduino/src/MurmurHash3.cpp:305-312 | the fall-through cases assemble the zero-padded word |
| MurmurHash3.Fmix32Cancels | arduino/src/MurmurHash3.cpp:68-77 | the 32-bit finalizer is one-to-one |
| MurmurHash3.Fmix64Cancels | arduino/src/MurmurHash3.cpp:81-90 | the 64-bit finalizer is one-to-one |
| MurmurHash3.StepQuadCancels | arduino/src/MurmurHash3.cpp:173-192 | one round on four words is one-to-one in the state and in the block |
| MurmurHash3.StepPairCancels | arduino/src/MurmurHash3.cpp:274-283 | one round on two words is one-to-one in the state and in the block |
| MurmurHash3.NoCollisionX86_32 | arduino/src/MurmurHash3.cpp:94-146 | equal-length keys that differ in one block only, or only in the tail, never collide |
| MurmurHash3.NoCollisionX86_128 | arduino/src/MurmurHash3.cpp:150-251 | the same for blocks of 16 bytes |
| MurmurHash3.NoCollisionX64_128 | arduino/src/MurmurHash3.cpp:255-332 | the same for the 64-bit form |
| MurmurHash3.DistinctSeedsX86_32 | arduino/src/MurmurHash3.cpp:94-146 | for a fixed key, distinct seeds give distinct hashes |
| MurmurHash3.DistinctSeedsX86_128 | arduino/src/MurmurHash3.cpp:150-251 | the same for the 128-bit form |
| MurmurHash3.DistinctSeedsX64_128 | arduino/src/MurmurHash3.cpp:255-332 | the same for the 64-bit form |
| MurmurHash3.PaddingToldX86_32 | arduino/src/MurmurHash3.cpp:141 | the length counts: a key extended by zero bytes within its last block has another hash |
| MurmurHash3.PaddingToldX86_128 | arduino/src/MurmurHash3.cpp:234 | the same for four words |
| MurmurHash3.PaddingToldX64_128 | arduino/src/MurmurHash3.cpp:319 | the same for the 64-bit form |
| MurmurHash3.OneBlockKeys | arduino/src/MurmurHash3.cpp:94-332 | each hash is one-to-one on the keys of one length that fit in a block |

## Left out

- Sockets, BLE, Wi-Fi, GPIO, logging, prompts, templates and shell scripts: only their events remain (a
  packet arrives, a zone is broadcast to, a burst starts or ends, scanning is on or off).
- HMAC-SHA256 itself: any function of the signed bytes, with a flag for the library failing.
- The UDP victim's signature, which covers all 25 bytes and is checked by no scanner over those.
- The mutex of the ESP32 relay: a callback and a turn of the loop are one step each. The clock reading of
  a callback, taken before it waits for the mutex, counts as the time of the step.
- Timing over the wrap of the millisecond clock: `EspTiming` covers clocks that stay 2000 ms short of it.
  What `EspInvariants` and `EspHeard` state holds across it.
- Whether a packet accepted under further receptions is burst in the end: `EspFate` says when it is marked
  without, not that an unmarked one is reached before its entry expires or is overwritten.
- The status string of the cache, whose "forward" text is always overwritten.
- `Signatures.Callback`: the report is returned, not printed; addresses, signal strength, colours, dates and
  degrees are left out.
- `MeshGenerator.BuildMesh`: takes the two counts as positive, which the prompt loop sees to; the warning
  for large meshes, the file output and the order of the emitted zone names are left out.
- Who gets a packet that some node forgets while it is in flight: of the results on delivery,
  `Delivery.NeverBeyondRadius` and `Flood.FloodsDieOut` cover that. A packet whose hash is zero is
  taken for one already seen by every fresh node (`CircularBuffer.SeenExactly`).
- Duplication of datagrams by the network: a run may lose copies and reorder them, not repeat them.
- `listener.cpp`, `udp-scanner.py` and the second copy of the hash functions: they repeat what is here.
