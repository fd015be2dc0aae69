# Alfred and batman-adv: protocol cores in Dafny

This project models the protocol cores of two programs of a wireless mesh system: `alfred`, a user-space
server that spreads small datasets over the mesh, and `batman-adv`, the kernel module that routes it. Code that
works by changing objects, lists, windows and buffers is written as classes and loops; each such method is proved
to do what a function on plain values says, and the properties are proved about that function or about whole runs.

| file | what it models |
|---|---|
| Basics.dfy | machine integers, options, and counting facts |
| HashTable.dfy | alfred's chained hash table: an array of linked buckets, an iterator that survives removals, resizing |
| AlfredPackets.dfy | packing datasets into numbered push packets |
| AlfredReceiver.dfy | buffering the packets of a transaction and applying them at its end, under an adversarial network |
| AlfredProvenance.dfy | many alfred servers, and what the labels LOCAL, FIRST_HAND and SYNCED say about a copy's way, and which data gets through |
| AlfredServer.dfy | the periodic purge and the choice of the best server, over the hash table |
| BatmanCommon.dfy | addresses and timeouts of the kernel module |
| BlaProtocol.dfy | bridge loop avoidance: every handler as a function on the claim and backbone tables, and their invariant |
| BlaTables.dfy | the same handlers on objects that are updated in place |
| BlaResync.dfy | two gateways repairing a checksum mismatch |
| BlaFollow.dfy | the same amid all other traffic: what a gateway has registered for another follows the other's frames |
| Checksums.dfy | that a 16-bit checksum gives two addresses the same value |
| BlaOwners.dfy | any number of gateways: no client has two owners once the claims are heard, so of two gateways that have a client registered at most one bridges its broadcast |
| Duplist.dfy | the ring of recent broadcasts |
| Fragmentation.dfy | cutting packets into fragments and collecting them again |
| OgmWindow.dfy, OgmTables.dfy | the sliding windows of B.A.T.M.A.N. IV, as values and as bit arrays |
| Aggregation.dfy | aggregating originator messages, marking direct links, taking packets apart |
| Tq.dfy | transmission quality: machine arithmetic, and what it means along a path |
| Dht.dfy | the choice of the nodes that keep an address mapping |
| OgmV.dfy | B.A.T.M.A.N. V: which messages are sent on, and that flooding ends |

Where the code does less than it seems to promise, the code is kept as it is and the exact condition is proved:

- A transfer of 65536 or more push packets is not safe, because the packet count has 16 bits, unless the count has come
  round to zero and the sender therefore sends no TXEND at all (`OnlyWholeRunsIff`).
- The sender of fragments lets 16 full payloads pass its first check, but completes only what fits 15 (`SendPacket`). An MTU
  that does not hold the fragment header wraps around, and the packet goes out as one fragment longer than the MTU.
- A fragment slot that carries a packet's seqno already turns down all of its fragments when it is empty; a new
  slot carries 0 (`Fragmentation.RoundTripIff`), so the first packet under seqno 0 is lost (`ZeroIsLost`).
- An originator message longer than the aggregation limit is sent alone and never taken out again by a receiver
  (`Aggregation.RoundTripIff`, `LongIsLost`), and its direct link flag is never adjusted (`SendToIf`).
- The echo of the newest own message counts for nothing until one more is scheduled (`EchoAcceptedIff`,
  `NewestEchoLost`).
- The test that is to prefer the lower address among equally close nodes compares for equality; on a tie the node
  that stands last in the table is taken (`ChooseNextCandidate`). Its comment claims otherwise. The lowest address is taken
  exactly when it is the one that stands last (`LowestIff`), and not in the table of `HigherTaken`.
- Whatever the checksum function, it gives two different claim sets of one VLAN the same checksum (`Collision`). A single
  missing claim goes unnoticed exactly when its address has checksum 0, one registered in place of another exactly when
  their addresses have the same checksum (`LossNoticedIff`).
- A dataset that a slave pushes from another of its interfaces than the one named as its source counts as SYNCED at the
  master and goes no further than that master and its slaves (`SpreadsIff`).
- A new record of an originator takes number 0 for sent on already (`ZeroNotSent`).
- B.A.T.M.A.N. V's hop penalty is the announced share only as long as a 32-bit product does not overflow
  (`PenaltyExactIff`, `PenaltyWraps`); it never raises the throughput all the same.

## Model

| member | source | states |
|---|---|---|
| HashTables.HashTable.AddBucket | tools/alfred-2016.1/hash.c:64-94 | a bucket is appended to the chain its key chooses; with the duplicate check, a key that is there already changes nothing |
| HashTables.HashTable.Add | tools/alfred-2016.1/hash.c:209-225 | adds exactly a new key to the map the table stands for, and refuses a known one |
| HashTables.HashTable.Find | tools/alfred-2016.1/hash.c:229-245 | finds exactly what the map holds |
| HashTables.HashTable.Remove | tools/alfred-2016.1/hash.c:273-298 | takes exactly the key out of the map and returns what it held |
| HashTables.HashTable.RemoveBucket | tools/alfred-2016.1/hash.c:251-267 | takes the element the iterator stands on out of the map; what the iterator has still to visit stays the same |
| HashTables.HashTable.Iterate | tools/alfred-2016.1/hash.c:112-182 | moves to the next element still to be visited, also from the gap a removed one left, and ends when there is none |
| HashTables.HashTable.Resize | tools/alfred-2016.1/hash.c:302-325 | relinks the same buckets into a table of the new size that stands for the same map |
| HashTables.HashTable.Sweep | tools/alfred-2016.1/hash.c:112-182 | a loop that removes the current element at any steps visits every element present at the start exactly once, ends, and leaves exactly the others |
| HashTables.RowsEnumerate | tools/alfred-2016.1/hash.c:112-182 | reading all chains in order meets every entry of the map exactly once |
| HashTables.AppendRepresents | tools/alfred-2016.1/hash.c:64-94 | appending an element with a new key to the chain its key chooses adds exactly that key to the map |
| HashTables.DropRepresents | tools/alfred-2016.1/hash.c:251-267 | unlinking an element removes exactly its key from the map |
| HashTables.RestAfterDrop | tools/alfred-2016.1/hash.c:251-267 | what lies behind the gap is what lay behind the removed element |
| AlfredPackets.PushData | tools/alfred-2016.1/send.c:52-136 | the packets carry, once and in table order, exactly the datasets that fit a packet alone and may go: LOCAL ones in a push of local data, also FIRST_HAND ones between masters, all in an answer, of the type asked for; all packets are numbered in turn and fit, none has room for the next dataset unless an oversized one came between, no 16-bit length wraps, and TXEND carries the packet count modulo 65536 |
| AlfredPackets.ParseOfEncodeAll | tools/alfred-2016.1/recv.c:50-116 | the receiver's parsing gives back the datasets that were packed |
| AlfredPackets.FirstOfEncode | tools/alfred-2016.1/recv.c:50-67 | a packed dataset is read back whole, whatever follows it |
| AlfredReceiver.Receiver.FinishPushData | tools/alfred-2016.1/recv.c:40-120 | stores the datasets of a packet in turn, stops at the first incomplete one, and never overwrites a LOCAL entry |
| AlfredReceiver.Receiver.ProcessPushData | tools/alfred-2016.1/recv.c:175-243 | buffers a packet unless its length is wrong, its number is there, or a slave has no such transaction |
| AlfredReceiver.PushIff | tools/alfred-2016.1/recv.c:175-243 | exactly which pushes are buffered, and that only what the length field covers is |
| AlfredReceiver.Receiver.ProcessTxEnd | tools/alfred-2016.1/recv.c:323-382 | ends the transaction; applies all buffered packets when their number is the one announced, else none |
| AlfredReceiver.Receiver.Request | tools/alfred-2016.1/unix_sock.c:226-265 | opens the transaction of a slave's own request, unless it exists |
| AlfredReceiver.Pigeonhole | tools/alfred-2016.1/recv.c:344-358 | n distinct numbers below n are all of them |
| AlfredReceiver.RunBuffers | tools/alfred-2016.1/recv.c:205-235 | under loss, repetition and reordering a transaction buffers distinct packets of its run only, and counts them |
| AlfredReceiver.CountMeansWhole | tools/alfred-2016.1/recv.c:344-358 | a matching count means that exactly the whole run is buffered |
| AlfredReceiver.FinishesIff | tools/alfred-2016.1/recv.c:344-358 | the count in a TXEND matches if and only if the whole run has arrived since the transaction was opened |
| AlfredReceiver.RunHolds | tools/alfred-2016.1/recv.c:205-243 | a transaction is open and holds a packet exactly when the history says so |
| AlfredReceiver.DeliveredCompletes | tools/alfred-2016.1/recv.c:175-243 | when every packet has been delivered at least once to a transaction open all the time, the TXEND completes it |
| AlfredReceiver.AllOrNothing | tools/alfred-2016.1/recv.c:323-382 | after any history: the TXEND of a run whose packets have all arrived since the transaction was opened, in any order and with repeats, stores the whole run; no other message of the transfer changes the table |
| AlfredReceiver.TransferResult | tools/alfred-2016.1/recv.c:175-243 | a receiver of one transfer holds its old table until the run has arrived whole and is closed, and from then on the run stored into it |
| AlfredReceiver.OnlyWholeRunsIff | tools/alfred-2016.1/recv.c:344-358 | no delivery of what the sender sends completes a transaction without its whole run if and only if the run has fewer than 65536 packets or is never closed by a TXEND |
| AlfredReceiver.OrderIrrelevant | tools/alfred-2016.1/recv.c:79-112 | order and repetition of the datasets leave no trace in the table |
| AlfredReceiver.StoreAllOverwrites | tools/alfred-2016.1/recv.c:79-112 | the table after a run, said without an order: each key of the run holds its dataset or the local one, the others are untouched |
| AlfredReceiver.EndToEnd | tools/alfred-2016.1/send.c:52-136 | from the sender's table to the receiver's: once the run has arrived whole and is closed, every selected entry is there; until then the receiver's table is as before |
| AlfredProvenance.Provenance | tools/alfred-2016.1/recv.c:79-112 | in every run of any mesh with fixed modes: LOCAL entries were handed in at their server, FIRST_HAND ones came last from their own source, no copy is more than three deliveries old, a master's at most two, and all were handed in where their source may speak |
| AlfredProvenance.InvNext | tools/alfred-2016.1/send.c:138-171 | every hand-in, push, request, reply, delivery and expiry keeps that |
| AlfredProvenance.SyncedOnlyOnRequest | tools/alfred-2016.1/recv.c:302-321 | SYNCED entries leave a server only towards a slave that asked it |
| AlfredProvenance.LocalSurvives | tools/alfred-2016.1/recv.c:89-94 | nothing from the network overwrites a LOCAL entry |
| AlfredProvenance.ReceiveIsStore | tools/alfred-2016.1/recv.c:79-112 | a delivery in the mesh does to the table what the receiver's code does |
| AlfredProvenance.AcceptedIs | tools/alfred-2016.1/unix_sock.c:123-146 | what a client may hand in, and under which source |
| AlfredProvenance.PushedIs | tools/alfred-2016.1/send.c:70-82 | which entries each kind of push carries |
| AlfredProvenance.LocalArrives | tools/alfred-2016.1/recv.c:79-112 | a LOCAL entry that a slave pushes and the network delivers is in the master's table, FIRST_HAND exactly when it came from its source's address, else SYNCED |
| AlfredProvenance.SpreadsIff | tools/alfred-2016.1/send.c:138-171 | a dataset comes from a client of one slave over two masters to another slave that asks if and only if the first slave pushed it from the address named as its source |
| AlfredServer.PurgeTable | tools/alfred-2016.1/server.c:161-181 | a purging loop leaves exactly the unexpired entries |
| AlfredServer.PurgeData | tools/alfred-2016.1/server.c:161-219 | datasets that were seen less than 600 seconds ago and transactions less than 10 stay, all others go |
| AlfredServer.PurgeServers | tools/alfred-2016.1/server.c:183-198 | exactly the servers of an interface that were seen less than 60 seconds ago stay, and a best server that goes is forgotten |
| AlfredServer.BestOf | tools/alfred-2016.1/server.c:116-138 | the running maximum over an interface ends with a server of the best quality, if one beats what was there |
| AlfredServer.Servers.PurgeInterface | tools/alfred-2016.1/server.c:183-198 | purging one interface touches no other |
| AlfredServer.Servers.SetBestServer | tools/alfred-2016.1/server.c:116-138 | over all interfaces a server of maximal quality is chosen, and none only if there is none |
| AlfredServer.Servers.Purge | tools/alfred-2016.1/server.c:183-201 | after a purge the best server is one that is still there; it is kept when it stays, else chosen anew, and missing only when no server is left |
| BlaProtocol.Run | tools/batman-adv-2016.1/net/batman-adv/bridge_loop_avoidance.c:283-317 | in every run each gateway's checksum is the XOR over exactly the claims it owns, its reference count is one plus their number, the request counter counts the pending entries, and each claim has one owner, of its own VLAN |
| BlaProtocol.StepKeeps | tools/batman-adv-2016.1/net/batman-adv/bridge_loop_avoidance.c:633-729 | every claim frame, payload frame, periodic run and shutdown keeps that |
| BlaProtocol.XorTake | tools/batman-adv-2016.1/net/batman-adv/bridge_loop_avoidance.c:679-688 | the checksum of a claim set does not depend on the order in which the claims came |
| BlaProtocol.AddClaimKeeps | tools/batman-adv-2016.1/net/batman-adv/bridge_loop_avoidance.c:633-697 | a new claim or a change of ownership keeps both gateways' checksums and reference counts |
| BlaProtocol.DelClaimKeeps | tools/batman-adv-2016.1/net/batman-adv/bridge_loop_avoidance.c:705-729 | dropping a claim takes it out of its owner's checksum and reference count |
| BlaProtocol.DelBackboneKeeps | tools/batman-adv-2016.1/net/batman-adv/bridge_loop_avoidance.c:283-317 | a bulk deletion leaves the gateway without claims and with the initial checksum |
| BlaProtocol.HandleAnnounceKeeps | tools/batman-adv-2016.1/net/batman-adv/bridge_loop_avoidance.c:740-787 | an ANNOUNCE keeps the invariant, whether it matches or not |
| BlaProtocol.ProcessClaimKeeps | tools/batman-adv-2016.1/net/batman-adv/bridge_loop_avoidance.c:981-1107 | any claim frame keeps the invariant |
| BlaProtocol.PurgeGwKeeps | tools/batman-adv-2016.1/net/batman-adv/bridge_loop_avoidance.c:1118-1160 | a purged gateway takes its claims and its pending request with it |
| BlaProtocol.PurgeClaimsLeaves | tools/batman-adv-2016.1/net/batman-adv/bridge_loop_avoidance.c:1171-1209 | a purge removes exactly the own claims it meets that have timed out, or all it meets, and changes nothing else but checksums and references |
| BlaProtocol.PurgeClaimsSends | tools/batman-adv-2016.1/net/batman-adv/bridge_loop_avoidance.c:1171-1209 | and it sends exactly an UNCLAIM for each own claim that it removes |
| BlaProtocol.PurgeGwsLeaves | tools/batman-adv-2016.1/net/batman-adv/bridge_loop_avoidance.c:1118-1160 | a purge removes exactly the gateways it meets that have timed out, or all it meets, each with its claims |
| BlaProtocol.TickGwsDoes | tools/batman-adv-2016.1/net/batman-adv/bridge_loop_avoidance.c:1322-1357 | every own gateway met is refreshed, announced, and its waiting time counted down |
| BlaProtocol.PeriodicDoes | tools/batman-adv-2016.1/net/batman-adv/bridge_loop_avoidance.c:1295-1362 | after the periodic work no timed-out own claim or gateway is left and every own gateway left was announced |
| BlaProtocol.PeriodicKeeps | tools/batman-adv-2016.1/net/batman-adv/bridge_loop_avoidance.c:1118-1209 | own claims stay for 100 seconds after their last use, gateways with all their claims for 60 |
| BlaProtocol.ShutdownEmpties | tools/batman-adv-2016.1/net/batman-adv/bridge_loop_avoidance.c:1583-1602 | a shutdown leaves no claim, no gateway and no pending request |
| BlaProtocol.SetRequestSentKeeps | tools/batman-adv-2016.1/net/batman-adv/bridge_loop_avoidance.c:586-603 | the request counter moves exactly with the pending flags |
| BlaResync.SameCrcIff | tools/batman-adv-2016.1/net/batman-adv/bridge_loop_avoidance.c:756-783 | two claim sets have one checksum if and only if those of their differences agree |
| BlaResync.OneMissingIff | tools/batman-adv-2016.1/net/batman-adv/bridge_loop_avoidance.c:756-783 | leaving out one claim keeps the checksum if and only if its address has checksum 0 |
| BlaResync.OneSwappedIff | tools/batman-adv-2016.1/net/batman-adv/bridge_loop_avoidance.c:756-783 | one claim in place of another keeps the checksum if and only if their addresses have the same |
| Checksums.AddressesCollide | tools/batman-adv-2016.1/net/batman-adv/bridge_loop_avoidance.c:679-695 | every 16-bit checksum gives two addresses the same value |
| BlaResync.Collision | tools/batman-adv-2016.1/net/batman-adv/bridge_loop_avoidance.c:756-783 | for every checksum there are two different claim sets of one VLAN that it does not tell apart |
| BlaResync.NoticedIff | tools/batman-adv-2016.1/net/batman-adv/bridge_loop_avoidance.c:740-787 | the owner's ANNOUNCE is answered by a REQUEST if and only if the two claim sets have different checksums |
| BlaResync.LossNoticedIff | tools/batman-adv-2016.1/net/batman-adv/bridge_loop_avoidance.c:740-787 | so a lost claim is noticed if and only if its address has a checksum other than 0, a mistaken one if and only if the two addresses differ in theirs |
| BlaResync.AnnounceHandled | tools/batman-adv-2016.1/net/batman-adv/bridge_loop_avoidance.c:740-787 | the announcer's claims are dropped and a REQUEST is sent if and only if the checksums differ; else nothing is pending any more |
| BlaResync.EqualTablesQuiet | tools/batman-adv-2016.1/net/batman-adv/bridge_loop_avoidance.c:756-783 | equal tables never trigger a REQUEST |
| BlaResync.MismatchAsks | tools/batman-adv-2016.1/net/batman-adv/bridge_loop_avoidance.c:586-603 | on a mismatch the receiver drops what it had for the announcer, asks, and counts the request as pending |
| BlaResync.RequestAnswered | tools/batman-adv-2016.1/net/batman-adv/bridge_loop_avoidance.c:538-576 | a REQUEST is answered by all own claims of the VLAN and a closing ANNOUNCE with the checksum |
| BlaResync.ClaimsHandled | tools/batman-adv-2016.1/net/batman-adv/bridge_loop_avoidance.c:870-895 | processing the answer's claims moves exactly the listed claims to the answering gateway |
| BlaResync.AnswerConverges | tools/batman-adv-2016.1/net/batman-adv/bridge_loop_avoidance.c:538-624 | after the answer the requester has exactly the owner's own claims for it, the same checksum and no pending request; other claims are as before |
| BlaResync.Resync | tools/batman-adv-2016.1/net/batman-adv/bridge_loop_avoidance.c:740-895 | the whole exchange from a mismatch on converges, whatever the two tables looked like |
| BlaFollow.Follows | tools/batman-adv-2016.1/net/batman-adv/bridge_loop_avoidance.c:740-895 | in any run with any other frames, payload and periodic work, what a gateway has registered for another is exactly what that one's CLAIM, UNCLAIM and ANNOUNCE frames say, as long as nothing else takes its clients |
| BlaFollow.SaidSpeaks | tools/batman-adv-2016.1/net/batman-adv/bridge_loop_avoidance.c:1620-1787 | whatever payload, frames and periodic work a gateway has, its frames tell each change of what it owns, with the right checksum at each ANNOUNCE |
| BlaFollow.RequestTells | tools/batman-adv-2016.1/net/batman-adv/bridge_loop_avoidance.c:538-576 | whoever knows only a part of a gateway's claims knows all after its answer, and waits for nothing |
| BlaFollow.ResyncAmidst | tools/batman-adv-2016.1/net/batman-adv/bridge_loop_avoidance.c:740-895 | resynchronisation in traffic: with anything interleaved at both gateways that spares the owner's clients, once a REQUEST was answered and all frames have arrived the requester has what the owner then owns, the same checksum, and no request pending |
| BlaFollow.StaysInStep | tools/batman-adv-2016.1/net/batman-adv/bridge_loop_avoidance.c:756-783 | tables that agree keep agreeing through any such run, and nothing is asked for again |
| BlaFollow.WaitsOut | tools/batman-adv-2016.1/net/batman-adv/bridge_loop_avoidance.c:1336-1353 | whatever frames and payload come in between, an own gateway stays pending for exactly its number of periods |
| BlaFollow.NewGatewayWaits | tools/batman-adv-2016.1/net/batman-adv/bridge_loop_avoidance.c:488-497 | a new own gateway announces itself and is pending until its third period |
| BlaOwners.OwnerClaims | tools/batman-adv-2016.1/net/batman-adv/bridge_loop_avoidance.c:1640-1682 | a gateway comes to own a client only by a step in which it sends a CLAIM for it |
| BlaOwners.FrameLeaves | tools/batman-adv-2016.1/net/batman-adv/bridge_loop_avoidance.c:981-1107 | no frame of another gateway makes a client one's own, and its CLAIM ends one's own claim |
| BlaOwners.OneOwner | tools/batman-adv-2016.1/net/batman-adv/bridge_loop_avoidance.c:870-895 | in any run of any number of gateways, with any delay and reordering, two gateways whose CLAIMs have reached one another do not both own a client |
| BlaOwners.ForwardsIff | tools/batman-adv-2016.1/net/batman-adv/bridge_loop_avoidance.c:1620-1698 | a broadcast of a registered client passes from the mesh to the LAN if and only if this gateway owns it and no request is pending |
| BlaOwners.RxVerdict | tools/batman-adv-2016.1/net/batman-adv/bridge_loop_avoidance.c:1620-1698 | a frame from the mesh is dropped if and only if it is a broadcast and a request is pending or its client is registered elsewhere; with any other frame the client is this gateway's own and fresh, by a CLAIM exactly when it was not before, and no other claim changes |
| BlaOwners.TxVerdict | tools/batman-adv-2016.1/net/batman-adv/bridge_loop_avoidance.c:1717-1787 | a frame from the LAN is dropped if and only if it is a broadcast and a request is pending or its client is registered elsewhere; any other frame ends an own claim on its client, by an UNCLAIM, and changes no other |
| BlaOwners.OffPasses | tools/batman-adv-2016.1/net/batman-adv/bridge_loop_avoidance.c:1631-1632 | with the avoidance switched off every frame passes and no claim changes |
| BlaOwners.FrameCounts | tools/batman-adv-2016.1/net/batman-adv/bridge_loop_avoidance.c:914-1107 | own frames and those of other groups outside the mesh change nothing; after any other the group is the larger one and the own entry fresh |
| BlaOwners.ClaimRefreshesIff | tools/batman-adv-2016.1/net/batman-adv/bridge_loop_avoidance.c:633-697 | a CLAIM moves the claim to its sender, whose entry it refreshes exactly when the claim is new to it |
| BlaOwners.UnclaimIff | tools/batman-adv-2016.1/net/batman-adv/bridge_loop_avoidance.c:832-858 | an UNCLAIM ends a claim, whoever holds it, if and only if its sender is known |
| BlaOwners.OneForwards | tools/batman-adv-2016.1/net/batman-adv/bridge_loop_avoidance.c:1620-1698 | so of two gateways that have the client registered at most one bridges its broadcast |
| BlaOwners.OneFloods | tools/batman-adv-2016.1/net/batman-adv/bridge_loop_avoidance.c:1717-1787 | and at most one lets the client's broadcast from the LAN into the mesh |
| BlaTables.Bla.AddClaim | tools/batman-adv-2016.1/net/batman-adv/bridge_loop_avoidance.c:633-697 | the claim points to its new owner; checksums, reference counts and times of both owners change as specified |
| BlaTables.Bla.DelClaim | tools/batman-adv-2016.1/net/batman-adv/bridge_loop_avoidance.c:705-729 | the claim is gone and its owner's fields are adjusted |
| BlaTables.Bla.DelBackboneClaims | tools/batman-adv-2016.1/net/batman-adv/bridge_loop_avoidance.c:283-317 | a walk over the claims in any order removes exactly the gateway's and resets its checksum |
| BlaTables.Bla.GetBackboneGw | tools/batman-adv-2016.1/net/batman-adv/bridge_loop_avoidance.c:438-501 | an unknown gateway gets a fresh entry; an own one announces itself and starts with a pending request |
| BlaTables.Bla.SendClaim | tools/batman-adv-2016.1/net/batman-adv/bridge_loop_avoidance.c:326-427 | each frame type carries the address in the place its receiver reads it from |
| BlaTables.Bla.AnswerRequest | tools/batman-adv-2016.1/net/batman-adv/bridge_loop_avoidance.c:538-576 | walks over all claims in some order, sends the own ones and then the ANNOUNCE |
| BlaTables.Bla.SendRequest | tools/batman-adv-2016.1/net/batman-adv/bridge_loop_avoidance.c:586-603 | drops the gateway's claims, sends the REQUEST and marks it pending once |
| BlaTables.Bla.HandleAnnounce | tools/batman-adv-2016.1/net/batman-adv/bridge_loop_avoidance.c:740-787 | state and frames are those of the specified handler |
| BlaTables.Bla.HandleRequest | tools/batman-adv-2016.1/net/batman-adv/bridge_loop_avoidance.c:799-820 | only a request to this node is answered |
| BlaTables.Bla.HandleUnclaim | tools/batman-adv-2016.1/net/batman-adv/bridge_loop_avoidance.c:832-858 | the claim goes, whoever owns it, when the sender is known; an own one is announced |
| BlaTables.Bla.HandleClaim | tools/batman-adv-2016.1/net/batman-adv/bridge_loop_avoidance.c:870-895 | the claim is registered for its sender; an own one is announced |
| BlaTables.Bla.ProcessClaim | tools/batman-adv-2016.1/net/batman-adv/bridge_loop_avoidance.c:914-1107 | own and foreign-group frames change nothing; others are dispatched after the group and the own entry are brought up to date |
| BlaTables.Bla.BlaRx | tools/batman-adv-2016.1/net/batman-adv/bridge_loop_avoidance.c:1620-1698 | verdict, frames and tables are those of the specified check, which BlaOwners.RxVerdict characterises |
| BlaTables.Bla.BlaTx | tools/batman-adv-2016.1/net/batman-adv/bridge_loop_avoidance.c:1717-1787 | verdict, frames and tables are those of the specified check, which BlaOwners.TxVerdict characterises |
| BlaTables.Bla.PurgeClaims | tools/batman-adv-2016.1/net/batman-adv/bridge_loop_avoidance.c:1171-1209 | of all claims exactly the own ones that have timed out go, on shutdown all |
| BlaTables.Bla.PurgeGws | tools/batman-adv-2016.1/net/batman-adv/bridge_loop_avoidance.c:1118-1160 | of all gateways exactly those that have timed out go, on shutdown all, with their claims and pending requests |
| BlaTables.Bla.PeriodicWork | tools/batman-adv-2016.1/net/batman-adv/bridge_loop_avoidance.c:1295-1362 | no timed-out own claim or gateway is left, every own gateway left has been announced with its checksum, and waiting times are counted down |
| BlaTables.Bla.Free | tools/batman-adv-2016.1/net/batman-adv/bridge_loop_avoidance.c:1583-1602 | nothing is left in either table and no request is pending; an UNCLAIM was sent for each own claim, and nothing else |
| Duplist.BcastDuplist.constructor | tools/batman-adv-2016.1/net/batman-adv/bridge_loop_avoidance.c:1402-1406 | the unused entries are of one originator and too old from the next moment on |
| Duplist.BlankStopsIff | tools/batman-adv-2016.1/net/batman-adv/bridge_loop_avoidance.c:1402-1406 | an unused entry stops a broadcast only at the very moment of the start, from another host and with payload checksum 0 |
| Duplist.BcastDuplist.CheckBcastDuplist | tools/batman-adv-2016.1/net/batman-adv/bridge_loop_avoidance.c:1447-1501 | the search that stops at the first old entry answers as one of the whole ring, which holds the last 16 accepted broadcasts; an accepted one becomes the newest |
| Duplist.RunLetsNoneThrough | tools/batman-adv-2016.1/net/batman-adv/bridge_loop_avoidance.c:1432-1446 | in any run, a payload passes from a second host within the timeout only after 16 other broadcasts |
| Fragmentation.SendPacket | tools/batman-adv-2016.1/net/batman-adv/fragmentation.c:405-516 | completes exactly what 15 payloads hold and sends its fragments, cut from the tail; between 15 and 16 payloads it sends 15 fragments in vain, above 16 none; with an MTU shorter than the header a single fragment |
| Fragmentation.CutCount | tools/batman-adv-2016.1/net/batman-adv/fragmentation.c:457-493 | k fragments suffice if and only if k payloads hold the packet |
| Fragmentation.FragTableEntry.InitChain | tools/batman-adv-2016.1/net/batman-adv/fragmentation.c:113-128 | a slot with another seqno is cleared for the new one, one with the same is left alone |
| Fragmentation.FragTableEntry.FindPlace | tools/batman-adv-2016.1/net/batman-adv/fragmentation.c:188-206 | a walk that stops early finds the place in the descending chain, and whether the number is there already |
| Fragmentation.FragTableEntry.InsertPacket | tools/batman-adv-2016.1/net/batman-adv/fragmentation.c:143-240 | the slot and the chain handed over are those of the specified reception |
| Fragmentation.MergePackets | tools/batman-adv-2016.1/net/batman-adv/fragmentation.c:252-297 | the payloads of a chain, from the highest number to the lowest |
| Fragmentation.FragTable.constructor | tools/batman-adv-2016.1/net/batman-adv/originator.c:917-921 | a new originator has eight empty slots that all carry seqno 0 |
| Fragmentation.FragTable.SkbBuffer | tools/batman-adv-2016.1/net/batman-adv/fragmentation.c:313-337 | a fragment changes only the slot of its seqno; it is turned down, buffered, or completes a packet |
| Fragmentation.ReceiveKeepsOk | tools/batman-adv-2016.1/net/batman-adv/fragmentation.c:143-240 | whatever arrives, a chain stays strictly descending, its size is the sum of its payloads in 16 bits, and what is handed over is as long as announced |
| Fragmentation.SelectInserted | tools/batman-adv-2016.1/net/batman-adv/fragmentation.c:188-214 | inserting fragments in any order gives the chain of those received, in descending order |
| Fragmentation.CutSelect | tools/batman-adv-2016.1/net/batman-adv/fragmentation.c:219-232 | all fragments joined are the packet, and any missing one shows in the size |
| Fragmentation.RoundTrip | tools/batman-adv-2016.1/net/batman-adv/fragmentation.c:113-297 | in any delivery with any order, repeats and other slots' fragments in between, each fragment is turned down if it came before, completes the packet as it was sent if it is the last missing one, and is buffered otherwise |
| Fragmentation.MergedOnce | tools/batman-adv-2016.1/net/batman-adv/fragmentation.c:313-337 | once all fragments have arrived the packet was handed over, exactly once |
| Fragmentation.RoundTripIff | tools/batman-adv-2016.1/net/batman-adv/fragmentation.c:113-128 | with nothing buffered for it, a fully delivered packet is handed over if and only if its slot does not carry its seqno already |
| Fragmentation.ZeroIsLost | tools/batman-adv-2016.1/net/batman-adv/fragmentation.c:113-128 | a one-byte packet under seqno 0 is turned down by the empty slots of a new originator |
| OgmTables.BitmapShiftLeft | tools/batman-adv-2016.1/net/batman-adv/bitarray.c:24-30 | shifting in place moves every bit up and clears the lowest; shifts that are not inside the window do nothing |
| OgmTables.WriteBit | tools/batman-adv-2016.1/net/batman-adv/bitarray.h:50-57 | sets a bit inside the window and nothing else |
| OgmTables.BitGetPacket | tools/batman-adv-2016.1/net/batman-adv/bitarray.c:44-98 | the window after a message some numbers ahead or behind, and whether it moved |
| OgmTables.OrigNode.NeighNodeNew | tools/batman-adv-2016.1/net/batman-adv/originator.c:626-681 | a neighbour joins once, with an empty window |
| OgmWindow.WindowProtected | tools/batman-adv-2016.1/net/batman-adv/routing.c:169-187 | a message out of range is refused within the protection time and starts a new one after it |
| OgmWindow.RefusedIff | tools/batman-adv-2016.1/net/batman-adv/bat_iv_ogm.c:1296-1304 | a message is refused, and then changes nothing, if and only if neighbours are known, its number lies 64 or more behind or 65536 or more ahead, and the protection time of 30 seconds is not over |
| OgmTables.OrigNode.UpdateSeqnos | tools/batman-adv-2016.1/net/batman-adv/bat_iv_ogm.c:1282-1372 | answer and windows are those of the specified update, whatever the order of the neighbour list; every packet count is the number of marks |
| OgmTables.HardIface.Schedule | tools/batman-adv-2016.1/net/batman-adv/bat_iv_ogm.c:868-931 | takes the next number and slides every originator's own-broadcast window; each sum stays the number of marks |
| OgmTables.HardIface.Echo | tools/batman-adv-2016.1/net/batman-adv/bat_iv_ogm.c:1664-1694 | marks the echo's position in one window and brings its sum up to date |
| OgmWindow.UpdateRefines | tools/batman-adv-2016.1/net/batman-adv/bat_iv_ogm.c:1312-1365 | the 32-bit windows answer as a record of all numbers heard, and keep meaning that record |
| OgmWindow.TestMeans | tools/batman-adv-2016.1/net/batman-adv/bitarray.h:38-47 | the window test is membership in that record, within the window |
| OgmWindow.GetMeans | tools/batman-adv-2016.1/net/batman-adv/bitarray.c:44-98 | moving, marking and resetting the window follow the record |
| OgmWindow.RecordIsHistory | tools/batman-adv-2016.1/net/batman-adv/bat_iv_ogm.c:1312-1365 | a number is on the record if and only if it was received since the neighbour joined and since the last restart |
| OgmWindow.WindowIsHistory | tools/batman-adv-2016.1/net/batman-adv/bat_iv_ogm.c:1312-1365 | after any run bit i is set if and only if the last number minus i was received from the neighbour since it joined and since the last restart |
| OgmWindow.StatusIsHistory | tools/batman-adv-2016.1/net/batman-adv/bat_iv_ogm.c:1326-1348 | NEIGH_DUP exactly for a number received from this neighbour, ORIG_DUP exactly for one received only from others |
| OgmWindow.OwnWindowIsHistory | tools/batman-adv-2016.1/net/batman-adv/bat_iv_ogm.c:1664-1694 | in any interleaving of schedules and echoes bit i is set if and only if an echo of own number next - 2 - i was accepted |
| OgmWindow.EchoAcceptedIff | tools/batman-adv-2016.1/net/batman-adv/bat_iv_ogm.c:1676-1688 | an echo counts if and only if its number lies between one and 64 schedules behind the newest, for all 32-bit numbers |
| OgmWindow.NewestEchoLost | tools/batman-adv-2016.1/net/batman-adv/bat_iv_ogm.c:1676-1688 | such as the echo of number 7 when 8 is the next |
| Aggregation.Receive | tools/batman-adv-2016.1/net/batman-adv/bat_iv_ogm.c:1740-1780 | hands on the messages at the offsets the length fields give |
| Aggregation.RoundTripIff | tools/batman-adv-2016.1/net/batman-adv/bat_iv_ogm.c:1763-1776 | a packet comes apart into the messages it was made of if and only if it is no longer than the aggregation limit |
| Aggregation.LongIsLost | tools/batman-adv-2016.1/net/batman-adv/bat_iv_ogm.c:406-416 | a message of 513 bytes is not found in its packet |
| Aggregation.Padded | tools/batman-adv-2016.1/net/batman-adv/bat_iv_ogm.c:406-416 | padding does not harm the messages before it |
| Aggregation.MarkedSplits | tools/batman-adv-2016.1/net/batman-adv/bat_iv_ogm.c:419-481 | the receiver gets the messages in order, message k with DIRECTLINK if and only if it was queued as direct link and leaves on its incoming interface, otherwise unchanged |
| Aggregation.ForwPacket.constructor | tools/batman-adv-2016.1/net/batman-adv/bat_iv_ogm.c:633-715 | a new packet holds one message and its flag |
| Aggregation.ForwPacket.Aggregate | tools/batman-adv-2016.1/net/batman-adv/bat_iv_ogm.c:718-735 | a message and its flag go to the end of the packet |
| Aggregation.ForwPacket.FlagsFit | tools/batman-adv-2016.1/net/batman-adv/bat_iv_ogm.c:729-734 | 32 flag bits suffice for every packet that is built |
| Aggregation.ForwPacket.SendToIf | tools/batman-adv-2016.1/net/batman-adv/bat_iv_ogm.c:419-481 | sends all messages marked, or an over-long single one as it is |
| Aggregation.ForwQueue.QueueAdd | tools/batman-adv-2016.1/net/batman-adv/bat_iv_ogm.c:747-808 | a message goes to the end of the first packet that takes it, else alone into a new one, with its interfaces and held back, unless the queue is full; nothing else changes, direct link messages are never mixed into a flooded packet, and no message is late or held back too long |
| Aggregation.ForwQueue.TakesIff | tools/batman-adv-2016.1/net/batman-adv/bat_iv_ogm.c:550-612 | which packet takes which message, in terms of the messages themselves: their interfaces, times, sizes, direct link flags and times to live |
| Aggregation.ForwQueue.Heard | tools/batman-adv-2016.1/net/batman-adv/bat_iv_ogm.c:419-481 | from the queue over the air to the receiver: the messages come out in the order they were queued, unchanged but for DIRECTLINK, which message k carries if and only if it was queued with it and leaves on the interface it came in on |
| Aggregation.ForwQueue.NotHeard | tools/batman-adv-2016.1/net/batman-adv/bat_iv_ogm.c:406-416 | a message beyond the aggregation limit goes out alone, as it is, and is not heard |
| Tq.CalcTq | tools/batman-adv-2016.1/net/batman-adv/bat_iv_ogm.c:1136-1269 | the 32-bit product and the 8-bit results are the exact quotients rounded down, with no wrap and no division by zero |
| Tq.NoWrap | tools/batman-adv-2016.1/net/batman-adv/bat_iv_ogm.c:1243-1250 | the product of four qualities fits 32 bits |
| Tq.LinkTq | tools/batman-adv-2016.1/net/batman-adv/bat_iv_ogm.c:1187-1250 | the quality times the three shares, divided by 255^3 and rounded down; never raised, and kept if and only if at least 54 of 64 messages are heard, all come back and no interface penalty applies |
| Tq.HopPenalty | tools/batman-adv-2016.1/net/batman-adv/bat_iv_ogm.c:387-396 | the share 255 - penalty of 255, rounded down; a positive quality is kept only without a penalty |
| Tq.TqOwn | tools/batman-adv-2016.1/net/batman-adv/bat_iv_ogm.c:1187-1206 | the share of messages that came back of those heard, as a part of 255 and rounded down; full only when all came back, zero exactly below the minima |
| Tq.AsymPenalty | tools/batman-adv-2016.1/net/batman-adv/bat_iv_ogm.c:1208-1222 | 255 less the cube of the share missed, rounded; no loss exactly from 54 messages on, and never total when one was heard |
| Tq.FallsAtEachHop | tools/batman-adv-2016.1/net/batman-adv/bat_iv_ogm.c:841-846 | with a hop penalty a positive quality strictly falls at each hop |
| Tq.DiesOut | tools/batman-adv-2016.1/net/batman-adv/bat_iv_ogm.c:1428-1432 | so a message is dropped after at most as many hops as the quality it starts with, even without a time to live |
| Tq.KeptIff | tools/batman-adv-2016.1/net/batman-adv/bat_iv_ogm.c:1187-1250 | a path keeps the quality if and only if every hop is without penalty and every link good |
| Dht.ClosenessIs | tools/batman-adv-2016.1/net/batman-adv/distributed-arp-table.c:537-539 | the 16-bit value is the ring distance from the key up to the node, turned round |
| Dht.IsOrigNodeEligible | tools/batman-adv-2016.1/net/batman-adv/distributed-arp-table.c:461-500 | which nodes take the lead in a round |
| Dht.ChooseNextCandidate | tools/batman-adv-2016.1/net/batman-adv/distributed-arp-table.c:510-564 | a round adds the closest capable node that is left, among equals the last in the table, or nothing if none is left |
| Dht.LowestIff | tools/batman-adv-2016.1/net/batman-adv/distributed-arp-table.c:490-495 | among equally close nodes the lowest address is taken if and only if it stands last of them in the table |
| Dht.TieTakesLast | tools/batman-adv-2016.1/net/batman-adv/distributed-arp-table.c:490-495 | of two nodes at one place the last in the table is taken, so tables in different order lead to different choices |
| Dht.HigherTaken | tools/batman-adv-2016.1/net/batman-adv/distributed-arp-table.c:490-495 | of nodes 1 and 2 at one place, in this order, node 2 is taken |
| Dht.DatSelectCandidates | tools/batman-adv-2016.1/net/batman-adv/distributed-arp-table.c:580-610 | three distinct capable nodes, or all there are, the closest first, and none left out is closer than one chosen |
| Dht.SameCloseness | tools/batman-adv-2016.1/net/batman-adv/distributed-arp-table.c:567-579 | nodes with the same originators agree on how close each candidate is, whatever the order of their tables |
| Dht.SameChoice | tools/batman-adv-2016.1/net/batman-adv/distributed-arp-table.c:567-579 | and choose the same nodes in the same order when there are no ties |
| OgmV.OrigIfinfo.UpdateMetric | tools/batman-adv-2016.1/net/batman-adv/bat_v_ogm.c:416-485 | which messages are dropped, known or new, and what is recorded |
| OgmV.OrigIfinfo.UpdateRoute | tools/batman-adv-2016.1/net/batman-adv/bat_v_ogm.c:497-573 | the route step: the mark and whether the message goes on are those of the specification that OgmV.SentIff characterises |
| OgmV.OrigIfinfo.ProcessPerOutif | tools/batman-adv-2016.1/net/batman-adv/bat_v_ogm.c:586-615 | the two steps together, which OgmV.SentIff characterises |
| OgmV.SentIff | tools/batman-adv-2016.1/net/batman-adv/bat_v_ogm.c:372-560 | a message is sent on if and only if it is in range and not behind, or out of range outside the protection time, comes from the router, has time to live left and another number than the last one sent on; and what is recorded |
| OgmV.AgeIs | tools/batman-adv-2016.1/net/batman-adv/bat_v_ogm.c:434-475 | a message counts as new when it is accepted with another number than the last, as known with the same |
| OgmV.FirstArrivalIff | tools/batman-adv-2016.1/net/batman-adv/bat_v_ogm.c:543-560 | in any run over any network the first arrival of a number at a port is sent on if and only if it is acceptable, from the router and with time to live left |
| OgmV.ZeroNotSent | tools/batman-adv-2016.1/net/batman-adv/bat_v_ogm.c:543-545 | a new record lets no message with number 0 through |
| OgmV.ForwardedOnce | tools/batman-adv-2016.1/net/batman-adv/bat_v_ogm.c:434-560 | between two protection starts the numbers a node sends on over an interface strictly grow, whatever the routes do |
| OgmV.FloodEnds | tools/batman-adv-2016.1/net/batman-adv/bat_v_ogm.c:543-560 | in any run over any network one message is sent on at most once by each node over each interface, and once more only for a protection time that starts there after it was sent |
| OgmV.StartsApart | tools/batman-adv-2016.1/net/batman-adv/routing.c:169-187 | two protection starts on one record lie further apart than the protection time |
| OgmV.FloodEndsInTime | tools/batman-adv-2016.1/net/batman-adv/bat_v_ogm.c:543-560 | a flood that is over within the protection time costs at most two transmissions per node and interface |
| OgmV.OrigIfinfo.constructor | tools/batman-adv-2016.1/net/batman-adv/originator.c:361-396 | a new record has both numbers 0 and lets the first message out of range start a protection time |
| OgmV.FreshStartsIff | tools/batman-adv-2016.1/net/batman-adv/originator.c:361-396 | on a new record a message starts a protection time exactly when neighbours are known and its number is out of range |
| OgmV.ForwardPenalty | tools/batman-adv-2016.1/net/batman-adv/bat_v_ogm.c:324-347 | half the throughput on the same half-duplex interface above 1 Mbit/s; the penalty never raises it, also when the 32-bit product overflows |
| OgmV.PenaltyExactIff | tools/batman-adv-2016.1/net/batman-adv/bat_v_ogm.c:345-346 | it is the announced share if and only if the product fits 32 bits |
| OgmV.PenaltyWraps | tools/batman-adv-2016.1/net/batman-adv/bat_v_ogm.c:345-346 | 2 Tbit/s fall to a tenth at a penalty of 15 |

## Left out

- Sockets, select loops, packet headers' type and version checks, debugfs and sysfs output, and the command line tools.
- RCU, spin locks and kernel reference counts other than a backbone gateway's: each handler is one atomic step, and a
  gateway's reference count is looked at between handlers.
- Allocation failures: every allocation succeeds.
- Clocks are integers that never wrap and never run backwards within a table; jiffies wrap-around is not modelled.
- `crc16`, the CRC32 of broadcasts and the hash functions are arbitrary functions; a hash function must only stay in range.
- Walks over the kernel hash tables meet the keys that were there at the start in an arbitrary order; no other handler runs
  in between.
- `batadv_bla_update_orig_address` and `batadv_bla_status_update`: the primary address and the setting are fixed per run.
- Runtime changes of alfred's mode; `changed_data_type` and the update command; reading replies out to a client socket.
- AlfredProvenance.Provenance: a push counts as one message per dataset; that a transfer arrives whole is the subject of
  AlfredReceiver.
- AlfredReceiver.AllOrNothing: assumes, as the sender does, that an address and transaction id are used for one run.
- AlfredServer.Servers.Purge: servers are values known by interface and address; a quality that changes between two purges
  is a change of the table.
- BlaOwners.OneForwards: a gateway that has not heard of the client yet claims it and lets its broadcast pass; that such a
  second copy is caught by the ring of recent broadcasts is up to the other gateways' copies arriving within its timeout.
- BlaResync.Resync: the answer reaches the requester in order and with no other frame in between (BlaFollow.ResyncAmidst does
  without this), and both see each other as originators or share a group.
- BlaFollow.ResyncAmidst: frames of one gateway arrive in the order in which they were sent and none is lost; no other gateway
  claims or unclaims a client of the owner meanwhile, the owner is not shut down, and its entry does not time out. What a
  lost frame leaves behind is caught by the next ANNOUNCE if and only if the checksums differ (`NoticedIff`).
- Fragmentation.RoundTrip: the MTU holds the fragment header, and no timeout purges the slot while the fragments arrive.
  Forwarding of fragments (`batadv_frag_skb_fwd`) is a routing decision and not part of this model.
- Aggregation.ForwQueue.QueueAdd: messages are shorter than 65536 bytes, as every frame is; sending and removing a packet when its
  timer fires is not modelled.
- OgmTables.OrigNode.UpdateSeqnos: one outgoing interface; its windows are independent of those of the others.
- Dht.ChooseNextCandidate: each originator is in the table once, and none is being freed while it is looked at.
- OgmV.OrigIfinfo.UpdateRoute: whether the sender is the best next hop is an input, and so is whether neighbours are known.
- The ring buffer of received qualities, neighbour comparison and best gateway selection: simple means and maxima.
- Translation table, TVLV processing and the local DAT cache.
