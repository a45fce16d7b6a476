# OWL in Dafny

OWL implements the Apple Wireless Direct Link (AWDL) ad hoc protocol. This project
models its platform-independent part in Dafny and proves what the protocol is for:
that nodes agree on one master, that their availability windows line up along the
sync tree, that frames say to the receiver what the sender meant, that the peer table
is a map and mirrors the system's neighbour table, and that queued frames are neither
lost nor repeated and get sent in time.

## Reading guide

| component | files | main results |
|---|---|---|
| Master election of one node | `Election.dfy` | the loop picks the maximum of a strict total order |
| Election as a distributed protocol | `Network.dfy`, `Stabilisation.dfy` | self-stabilisation under any interleaving with a dominating node, stable configurations are forests, ten-hop limit exact |
| The same on every network | `Convergence.dfy`, `Agreement.dfy` | every network, with ties and nodes out of reach, converges to its one stable configuration; exactly when all nodes agree on a master; how sync cycles arise and vanish |
| Peer table | `HashSpec.dfy`, `HashLoss.dfy`, `HashMap.dfy`, `PeerModel.dfy`, `Peers.dfy`, `Node.dfy` | the hash map refines a map for every hash function and allocator; exactly which tables can lose records; neighbour mirroring over all runs; clean-up and election together |
| Clocks | `Arith.dfy`, `Sync.dfy`, `SyncTree.dfy` | fixed-width window arithmetic is floor division; one frame aligns two nodes; multi-hop clock bound |
| Send scheduling | `Schedule.dfy` | exactly when frames may be sent, and progress of the multicast and unicast timer chains |
| Frames | `Wire.dfy`, `Tx.dfy`, `FrameLayout.dfy`, `Rx.dfy`, `RoundTrip.dfy`, `Amsdu.dfy` | every field of an action frame by its offset, action frame round trip, deaggregation inverts aggregation, what the host gets for a frame sent |
| Transmit queues, checksum | `CircularBuffer.dfy`, `Transmit.dfy`, `Crc32.dfy` | what becomes of every frame and when; frame conservation over all runs; table-driven CRC equals the bitwise one |
| All together | `EndToEnd.dfy` | runs of whole nodes, exchanging frames and cleaning up, are runs of the network and converge; the clocks of the tree that the election builds |

`dafny verify dfyconfig.toml` checks the whole project.

## Conventions

- Ethernet addresses are 48-bit numbers; `CompareAddrIsNumeric` shows that comparing
  them octet by octet is comparing the numbers.
- Unsigned wrap-around is written out with `%` wherever the source can wrap: 32-bit
  heights, 16-bit window counters, 64-bit times. Dafny's `/` and `%` floor for the
  positive divisors used, which is what the wrapped arithmetic amounts to.
- The clock is a parameter. Times that the daemon keeps in `double` seconds are signed
  microseconds. Timers fire when they are armed for.
- The network model has two steps, in any order: a link delivers the current state of
  its source, or a node runs its election on what it last heard. A *phase* is a stretch
  of a run in which first every link delivers at least once and then every node runs at
  least once; other steps may happen in between. A simultaneous round is one phase.
  States and tables are arbitrary at the start. Links need not be symmetric.
- Whether the n-th `calloc` succeeds is given by an arbitrary function, and it always
  fails above a cap; the cap is the termination measure of growing the hash map.
  What an allocated output buffer holds before it is written is arbitrary as well.
- Callbacks that report neighbours are appended to a log. Frames handed to the wireless
  or host device are appended to logs as well.

## What the code does differently from what one might expect

Each of these is stated by a lemma.

- `WrapFakesRoot`: a peer advertising height 2^32 - 1 passes the height limit, and a node
  adopting it shows height 0. Stabilisation then takes one more phase (`Flush`).
- `LineSplits`: with equal counters and metrics, which is what all nodes start with, three
  nodes in a line with addresses increasing along it end up with two masters in every run. `RunsAgree` gives the exact
  condition, on any network and from any start: all nodes end up with master r if and only
  if every other node is below r in counter and metric, or tied with r, of lower address
  and able to hear r itself, and every node is within 10 hops of r. Whether or not they
  agree, the states always converge (`Converges`).
- `CyclesArise`, `RingCloses`: peers that sync to the node itself are rejected (the comment
  at src/election.c:88 says that this rules out cycles). Two nodes with out-of-date records
  of each other still adopt each other; with up-to-date records they do not
  (`NoPairFromCurrent`), but a run can close a longer cycle then too. `CyclesVanish`: no cycle
  of any length survives convergence, on any network; with a dominating node none goes
  through a node that has settled (`SettledLeadsToRoot`).
- `PutPresentBreaks`: storing a present key always breaks the hash map, so callers must
  look it up first; `PeerTable.Add` does.
- `LossHappens`: nine keys are stored in an empty table and a tenth makes it grow; if the
  allocator grants the first growth only, a stored record is lost. `LossExact` says which
  tables can lose records that way, before the call. A reported neighbour may then have no
  record any more, exactly if the lost record was valid (`FailMirrors`); until that happens
  the mirror is exact (`RunMirrors`, `NodeRunKeeps`), and the sync master is right again
  after the next clean-up (`NodeRunSyncs`).
- `CutoffExact`: while the clock is still below the timeout, the clean-up drops every
  peer; from then on it drops exactly those that timed out.
- `DataRoundTrip`: a transmitted frame always claims to be IPv6, and the receiver hands over
  its whole buffer of 1518 bytes. So what arrives starts with the frame that was sent
  exactly if that is IPv6, and equals it exactly if it is also 1518 bytes long; the other
  bytes are whatever the buffer held.
- `SlotsExact`: the caller has 16 slots for the Ethernet frames of one received frame, and
  they are filled before a later error is noticed. They suffice for every frame of a given
  length, well-formed or not, exactly if that is less than 542 octets.
- `ErrorAfterUpdate`: after an update the sync error is 0 for every countdown of 1 to 64;
  in general exactly if the window number it implies is in range.

## Model

| member | source | states |
|---|---|---|
| Types.CompareAddrIsNumeric | src/election.c:31-33 | for all addresses, memcmp on the octets has the sign of the numeric comparison |
| Types.BytesOfAddr | src/wire.c:172-178 | six octets read as an address and written again are the same octets |
| Election.AcceptsIsTotalOrder | src/election.c:89-103 | the branches of the loop compute "greater counter, then metric, then lower height, then greater address", which is irreflexive, transitive, asymmetric and total on different nodes |
| Election.LeadsStep | src/election.c:77-104 | whichever peer comes next, one turn keeps the best of the node itself and the eligible peers seen so far |
| Election.OutcomeUnique | src/election.c:77-112 | the result depends on the table as a map only, not on slots, insertion history or rehashes |
| Election.OutcomeExists | src/election.c:77-112 | every table has an outcome: the node stays root or adopts the unique greatest eligible peer |
| Election.ElectIgnoresHistory | src/election.c:74-74 | after the reset only identity, own counter and own metric matter |
| Election.WrapFakesRoot | src/election.c:82-86 | exact effect of 32-bit wrap of height + 1 on eligibility and on the adopted height |
| Election.StartsAsRoot | src/election.c:38-58 | a node starts as its own root at height 0 with metric 60 and counter 0 |
| Network.PhaseLifts | src/election.c:67-112 | one phase, however interleaved, lifts the whole network one rung of any ladder of state predicates |
| Network.LevelKept | src/election.c:67-112 | no delivery or run ever takes the network down a rung |
| Stabilisation.RunPurges | src/election.c:82-112 | a state elected against level k information is true of a real master at a real distance, or has height at least k and at most 10 |
| Stabilisation.RootStays | src/election.c:89-103 | against true information nobody beats the dominating node |
| Stabilisation.RivalsAge | src/election.c:89-112 | claims about nodes tied with the dominating node move out one hop per run and are never renewed |
| Stabilisation.ChildSettles | src/election.c:89-112 | once the closer neighbours have settled, a node d hops away settles on the closer neighbour of greatest address |
| Stabilisation.Stabilises | src/election.c:67-112 | from any configuration, after Flush + d phases (one more if other nodes tie with the dominating one) and any further steps, a node d <= 10 hops from the dominating node has its one final state: that master, true distance, closer neighbour of greatest address |
| Stabilisation.FollowersAreWithinTenHops | src/election.h:25-25 | after stabilisation a node has the dominating node as master if and only if it is within 10 hops |
| Stabilisation.MeshAgrees | src/election.c:74-112 | full mesh with ties: everybody syncs directly to the node of greatest counter, metric and address, for good |
| Stabilisation.RoundsStabilise | src/election.c:67-112 | the same bound counted in simultaneous rounds |
| Stabilisation.StableStep | src/election.c:106-112 | in a stable configuration a node is its own root or exactly one below its sync master, with the same master values |
| Stabilisation.StableIsForest | src/election.c:82-112 | on any topology, following sync masters strictly descends, never returns, and after exactly height <= 10 steps reaches the root whose values are advertised |
| Stabilisation.StableIsSettled | src/election.c:67-112 | with a dominating node there is one stable state per node within 10 hops |
| Stabilisation.TiesCanSplit | src/election.h:26-27 | three nodes in a line with the initial values, addresses increasing along it: a stable configuration with two masters two hops apart |
| Convergence.EchoesAge | src/election.c:82-112 | claims better than any that undecided nodes can come to make are echoes: each run moves them one hop further out |
| Convergence.TopIsDecided | src/election.c:77-112 | once the echoes are gone, the undecided node with the best possible claim elects the same state whatever its undecided neighbours say |
| Convergence.DecideOne | src/election.c:67-112 | twelve phases settle one more node for good |
| Convergence.Converges | src/election.c:67-112 | on every network, from every configuration and under every interleaving, after 2 + 12 n phases all n nodes have the states of one limit, for good |
| Convergence.StableIffLimit | src/election.c:67-112 | every network has exactly one stable configuration |
| Agreement.FollowerGivesWay | src/election.c:89-103 | in a stable configuration a node with another master is below it, or tied with it, of lower address and hearing it |
| Agreement.StableAgreement | src/election.c:67-112 | in a stable configuration all nodes have master r if and only if every other node gives way to r and is within 10 hops |
| Agreement.RunsAgree | src/election.c:67-112 | the same condition decides, for every run from every start, whether all nodes end up with master r |
| Agreement.LineSplits | src/election.h:26-27 | three nodes in a line with the initial values, addresses increasing along it, keep two masters in every run |
| Agreement.CyclesArise | src/election.c:87-88 | two nodes with out-of-date records adopt each other although peers that sync to the node are rejected |
| Agreement.NoPairFromCurrent | src/election.c:87-88 | with up-to-date records a run never makes two nodes sync to each other |
| Agreement.RingCloses | src/election.c:87-88 | three nodes, all records up to date: one run closes a cycle |
| Agreement.CyclesVanish | src/election.c:67-112 | after convergence following sync masters returns to a node only if it is a root, on every network |
| Agreement.SettledLeadsToRoot | src/election.c:67-112 | with a dominating node, following sync masters from a settled node d hops away reaches it in d steps through settled nodes |
| HashSpec.AddRepresents | src/hashmap.c:155-159 | filling a free slot of the chain of an absent key represents the map with that key added |
| HashSpec.RemoveRepresents | src/hashmap.c:187-195 | blanking a slot represents the map without its key, although no tombstone is left |
| HashSpec.SizeIsInUse | src/hashmap.c:26-26 | size is the number of slots in use |
| HashSpec.RoomExact | src/hashmap.c:69-94 | there is room if and only if less than half of the slots are in use and one of the eight after the hash is free or holds the key |
| HashSpec.PlaceKeepsHalf | src/hashmap.c:77-77 | through all nested growth, failed or not, the table never gets more than half full |
| HashSpec.PutPresentBreaks | src/hashmap.c:139-162 | storing a present key never gives a valid map again |
| HashSpec.PlaceFails | src/hashmap.c:139-162 | storing fails only if the last allocation asked for was refused |
| HashLoss.FewKeysHaveRoom | src/hashmap.c:77-93 | with fewer than eight keys there is room for every key, whatever the hash function |
| HashLoss.NeverLoses | src/hashmap.c:99-162 | in a table not at risk, storing an absent key adds it or changes nothing, whatever the allocator does |
| HashLoss.LossExact | src/hashmap.c:126-128 | a table can lose a record to some allocator if and only if the key has no room and the records do not fit into the doubled table in slot order (or they do, and the same is true there) |
| HashLoss.LossHappens | src/hashmap.c:126-128 | keys stored one after the other in an empty table, and an allocator, for which a stored record is lost |
| HashMaps.HashMap.constructor | src/hashmap.c:35-54 | a new map is empty |
| HashMaps.HashMap.HashIndex | src/hashmap.c:69-94 | the first slot of the chain that is free or holds the key; none exactly if half full or all eight are taken by other keys |
| HashMaps.HashMap.Rehash | src/hashmap.c:99-134 | refines growing slot by slot, through nested growth, so which records a failure costs is determined; on success the same contents in at least twice the slots; terminates |
| HashMaps.HashMap.Put | src/hashmap.c:139-162 | refines storing slot by slot; succeeds if there is room and then adds exactly the key; fails only if memory asked for was refused, and that costs records only if the table was at risk |
| HashMaps.HashMap.Get | src/hashmap.c:167-209 | finds exactly the present keys with their values; removes exactly the key when asked |
| HashMaps.HashMap.Length | src/hashmap.c:219-223 | the number of keys |
| HashMaps.HashMap.NextInUse | src/hashmap.c:249-263 | the next slot in use, skipping only free ones |
| HashMaps.HashMap.RemoveAt | src/hashmap.c:270-288 | removes exactly the element under the iterator, if there is one |
| PeerModel.AddMirrors | src/peers.c:84-116 | adding or refreshing a peer keeps the reported neighbours equal to the valid peers and the reports alternating |
| PeerModel.RemoveMirrors | src/peers.c:118-133 | so does removing one |
| PeerModel.ExpireMirrors | src/peers.c:170-187 | so does expiring any number of them in any order |
| PeerModel.FailMirrors | src/hashmap.c:126-128 | records lost for want of memory break the mirror if and only if a valid peer is among them; the valid peers left are still reported |
| PeerModel.RunMirrors | src/peers.c:84-187 | over every run of add, update, remove, expire and out-of-memory steps all valid peers are reported neighbours; and until a valid peer is lost, the neighbours reported are exactly the valid peers and reports for each address strictly alternate |
| PeerModel.AddIsTouchThenMark | src/peers.c:93-114 | adding is refreshing followed by the validity check |
| PeerModel.HeardPeerSurvives | src/peers.c:93-94 | a peer heard at a time survives an expiry if and only if the cut-off is not later |
| Peers.PeerTable.constructor | src/peers.c:37-39 | an empty table with nothing reported |
| Peers.PeerTable.Add | src/peers.c:84-116 | refines the add step; reports whether the peer was known; fails only for a new peer, with eight or more peers, no room and memory asked for and refused, and that costs records only if the table was at risk |
| Peers.PeerTable.Mark | src/peers.c:108-114 | a complete record turns valid once and is reported once |
| Peers.PeerTable.Remove | src/peers.c:118-133 | refines the remove step |
| Peers.PeerTable.Get | src/peers.c:135-143 | the filed peer object, or none |
| Peers.PeerTable.ExpireAt | src/peers.c:176-184 | one turn of the sweep: report and remove exactly if expired |
| Peers.PeerTable.RemoveBefore | src/peers.c:170-187 | after removal during iteration exactly the peers updated since then remain, and each valid one that went was reported once |
| Node.AwdlNode.Consider | src/election.c:78-101 | one candidate passes all rejections exactly if it is eligible and preferred |
| Node.AwdlNode.RunElection | src/election.c:67-112 | the loop over hash slots leaves the outcome of the election over the abstract peer map |
| Node.AwdlNode.CleanPeers | daemon/core.c:320-336 | expire, then elect among the rest; the sync master is then the node itself or a valid peer in the table |
| Node.CutoffExact | daemon/core.c:327-330 | the clean-up drops exactly the timed-out peers if and only if the clock has reached the timeout; before that it drops all |
| Node.NodeRunKeeps | daemon/core.c:320-336 | in every reachable state all valid peers are reported neighbours, and until a valid peer is lost for want of memory no others are |
| Node.NodeRunSyncs | daemon/core.c:320-336 | in every state reached since the start or any clean-up without losing a valid peer, the sync master is the node itself or a valid peer still in the table; a clean-up always restores this |
| Sync.CurrentAwCounts | src/sync.c:47-54 | for all positive periods the split formula is counter plus whole windows elapsed, modulo 2^16 |
| Sync.WindowsAreFloors | src/sync.c:33-58 | current AW, current EAW and both countdowns are floor division from the epoch, however the 64-bit difference and the counter wrap |
| Sync.SlotShifts | src/schedule.c:66-72 | moving the clock by n EAWs, forward or back past the last update, moves the slot by n modulo 16 and keeps the countdown |
| Sync.ReachableIsStandard | src/sync.c:24-72 | after any sequence of updates from the initial state: period 16, presence mode 4 and a counter divisible by 4 |
| Sync.StartsAtZero | src/sync.c:23-31 | a node starts at the beginning of window 0, with nothing measured |
| Sync.ErrorIsDistance | src/sync.c:60-65 | the sync error is the distance in time units between the advertised position and the own one |
| SyncTree.ErrorAfterUpdate | src/sync.c:60-72 | right after an update the sync error is 0 exactly if the implied EAW number is in range; always for countdowns 1 to 64 |
| SyncTree.SyncAligns | src/rx.c:34-58 | after one sync frame the child's windows start later than the parent's by the parent's position within its time unit |
| SyncTree.OneFrameAligns | src/sync.c:47-72 | afterwards both show the same EAW number exactly outside the first (elapsed mod 1024) microseconds of each EAW, across counter wrap |
| SyncTree.LagBoundsDisagreement | src/sync.c:56-58 | two nodes a lag apart disagree exactly in the first lag microseconds of each EAW |
| SyncTree.TreeKeepsTime | src/rx.c:34-58 | after any interleaving of sync frames a node that got its time from the root over h hops lags by less than h time units and agrees on the EAW number outside them |
| Schedule.GuardZones | src/schedule.c:48-55 | the guard decision by position in the EAW |
| Schedule.McastExact | src/schedule.c:43-55 | multicast frames may be sent if and only if the window number is 0 or 10 modulo 16 and the position is in its middle 32 time units |
| Schedule.SameChannelExact | src/schedule.c:30-41 | the channels compared are those at the window number modulo 16, the peer's at its offset, through all wraps |
| Schedule.ChanNumbers | src/channel.c:56-67 | the channel number of an entry in each encoding, and of the constants used |
| Schedule.NewPeerUnreachable | src/peers.c:71-72 | no channel is shared with a peer that has not said its sequence |
| Schedule.McastProgress | daemon/core.c:246-277 | from any instant the multicast chain sends after at most 11 rearms and in less than 10 EAWs |
| Schedule.McastFromLeading | src/schedule.c:53-54 | one rearm leaves the leading guard |
| Schedule.McastTrailingWait | daemon/core.c:264-265 | where the end-of-slot wait lands, possibly in the next leading guard |
| Schedule.UnicastAllowed | src/schedule.c:57-80 | sending is allowed exactly if both are on the same non-zero channel and no guard separates different channels |
| Schedule.UnicastExact | src/schedule.c:57-80 | unicast frames may be sent if and only if both are on the same non-zero channel, and within 3 time units of an edge in the window beyond it too |
| Schedule.UnicastProgress | daemon/core.c:202-244 | if the sequences share a channel in any slot, the unicast chain sends after at most 17 rearms |
| Schedule.UnicastIffShared | daemon/core.c:222-240 | the unicast chain ever sends if and only if the sequences share a channel |
| Wire.TlvRoundTrip | src/wire.c:209-222 | reading at the front of a buffer gives back the TLV written there and leaves the rest |
| Wire.OctetWeights | src/wire.c:91-118 | little-endian fields start with the lowest octet, big-endian ones with the highest |
| Wire.Buf.Strip | src/wire.c:68-74 | drops exactly n bytes at the front, or nothing if out of bounds |
| Wire.Buf.Take | src/wire.c:76-81 | drops exactly n bytes at the end, or nothing |
| Wire.Buf.Write | src/wire.c:125-130 | overwrites exactly the given bytes, or nothing |
| Tx.EmitChanseq | src/tx.c:80-96 | the loop appends the channel sequence header and all sixteen entries |
| Tx.EmitListTlv | src/tx.c:146-162 | a TLV around the channel sequence, its length filled in last, is the TLV with that value |
| Tx.EmitAction | src/tx.c:363-385 | the buffer then holds the action header and the TLVs in order |
| FrameLayout.TlvKinds | src/tx.c:363-385 | the TLV numbers of PSF and MIF frames, in order |
| FrameLayout.HeaderLayout | src/tx.c:52-68 | every octet of the action header, with both time stamps |
| FrameLayout.SyncLayoutTimes | src/tx.c:98-144 | channels, periods, flags, countdown and AW numbers at their offsets, the channel sequence behind them |
| FrameLayout.SyncLayoutMaster | src/tx.c:98-144 | extensions, master address and presence mode at their offsets |
| FrameLayout.SyncLayoutRemaining | src/tx.c:131-136 | the remaining length is 16 time units less those elapsed in the window, at least 0 |
| FrameLayout.ChanseqLayout | src/tx.c:80-96 | header and both octets of each of the sixteen entries, by offset |
| FrameLayout.ElectionLayout | src/tx.c:164-186 | the fields of the first election TLV at their offsets, zero between them |
| RoundTrip.ElectionV2Read | src/tx.c:188-206 | the fields of the second election TLV at their offsets |
| FrameLayout.ElectionV2Reserved | src/tx.c:199-200 | the octets between them are zero |
| FrameLayout.DataPathLayout | src/tx.c:243-271 | flags, country code, social channel bit, own address and extended flags at their offsets |
| FrameLayout.FixedLayout | src/tx.c:208-295 | service and capability parameters, name with its suffix, version and device class, octet by octet |
| Rx.HandleTlvKeeps | src/rx.c:208-231 | no TLV changes a record's identity, validity or time stamp, nor the receiver's election state or window lengths, nor moves its counter off the start of an EAW |
| Rx.Receiver.HandleTlvs | src/rx.c:295-311 | the loop handles the TLVs in order until the end, an error or stray bytes |
| Rx.Receiver.RxAction | src/rx.c:253-320 | ignored, filtered, or: the peer is added, found again, updated from the TLVs and added once more; a new peer is ignored only if there are eight or more, there is no room for it, and memory asked for was refused; the clock stays standard |
| RoundTrip.ParseWritten | src/rx.c:295-306 | parsing written TLVs consumes every byte and handles exactly the list |
| RoundTrip.HeaderAccepted | src/rx.c:233-251 | a frame is taken for an AWDL action frame if and only if it has these seven octets and is 16 octets long |
| RoundTrip.ElectionHandled | src/rx.c:111-131 | the first election TLV is ignored after the second version was seen, and otherwise sets height modulo 256, master and both metrics |
| RoundTrip.ElectionV2Handled | src/rx.c:133-149 | whatever the record said, it then holds all election fields of the sender |
| RoundTrip.ChanseqHandled | src/rx.c:60-109 | the sender's channel sequence is stored entry by entry |
| RoundTrip.ChanseqAccepted | src/rx.c:60-109 | a channel sequence is accepted if and only if some sender writes it in one of the three encodings; a refused one changes nothing |
| RoundTrip.ArpaCut | src/rx.c:151-159 | names of any length are recorded, cut to 64 octets |
| RoundTrip.DataPathFound | src/rx.c:161-194 | with any of the optional parts present, country code and infrastructure address are found and nothing else changes |
| RoundTrip.SyncHandled | src/rx.c:34-58 | the receiver takes over the sender's window position exactly if the sender is its sync master |
| RoundTrip.MeasurementCounted | src/rx.c:44-53 | each sync frame is counted, and as an error if and only if the positions are more than 3 time units apart |
| RoundTrip.ActionRoundTrip | src/rx.c:253-320 | for every sender and every prior record the frame is recognised, fully consumed, accepted, and leaves exactly the sender's election state, channel sequence, version, device class and (MIF) name |
| RoundTrip.FrameSetsClock | src/rx.c:44-53 | a frame of the sync master sets the clock as one step of the sync tree |
| Amsdu.RxData | src/rx.c:353-389 | the checks and the four writes into the 1518-byte buffer are the specified result, with unwritten bytes kept |
| Amsdu.ReceiveRefuses | src/rx.c:335-374 | which data frames are turned away with which code, by their octets |
| Amsdu.DataLayout | src/tx.c:40-50 | the data header octet by octet |
| Amsdu.RxSubframe | src/rx.c:394-413 | one turn strips header, subframe and padding and gives that turn's result |
| Amsdu.RxAmsdu | src/rx.c:391-418 | the loop over subframes computes the recursive specification for every input |
| Amsdu.OutputsBounded | daemon/core.c:113-118 | for all bytes: n output frames take at least 32 n - 2 bytes of input |
| Amsdu.SlotsExact | daemon/core.c:113-118 | a number of slots suffices for every frame of a length, well-formed or not, if and only if the length is less than 32 (slots + 1) - 2, which is 542 for 16 |
| Amsdu.PadAligns | src/rx.c:413-413 | padding is the least that makes a subframe a multiple of four octets long |
| Amsdu.SubframeOf | src/rx.c:394-413 | the loop takes exactly one subframe and its padding off the front |
| Amsdu.DeaggregateInverts | src/rx.c:391-418 | for every list of subframes, set of known peers and buffer contents: one buffer per subframe of a known peer, in order, with the frame at its front and the rest as it was |
| Amsdu.HostGets | daemon/core.c:112-125 | one buffer is handed over per subframe of a known peer, in order, and starts with its addresses, ethertype and payload |
| Amsdu.StrayOctet | daemon/core.c:112-125 | after an error nothing is handed over: with one stray octet at the end, none of the frames received before it |
| Amsdu.ReceiveBody | src/rx.c:353-389 | a data frame of a known peer becomes a buffer that starts with its addresses, ethertype and payload |
| Amsdu.EtherFrame | src/rx.c:379-386 | every Ethernet frame is a header, given by its addresses and ethertype, and a payload |
| Amsdu.DataRoundTrip | src/tx.c:40-50 | the buffer received starts with the Ethernet frame sent if and only if that is IPv6, and equals it if and only if it is also 1518 bytes long |
| CircularBuffer.Ring.constructor | src/circular_buffer.c:40-54 | an empty queue of that capacity |
| CircularBuffer.Ring.Put | src/circular_buffer.c:102-109 | appends, dropping the oldest element when full |
| CircularBuffer.Ring.Put2 | src/circular_buffer.c:111-125 | appends unless full |
| CircularBuffer.Ring.Get | src/circular_buffer.c:127-144 | takes or shows the oldest element |
| CircularBuffer.Ring.Size | src/circular_buffer.c:73-93 | the pointers give the queue length |
| CircularBuffer.Ring.IsEmpty | src/circular_buffer.c:146-151 | exactly when the queue is empty |
| CircularBuffer.Ring.IsFull | src/circular_buffer.c:153-158 | exactly when the queue has reached its capacity |
| Transmit.PollConserves | daemon/core.c:70-98 | reading from the host keeps every frame exactly once and in order |
| Transmit.GroupBit | daemon/core.c:82-83 | a frame is multicast if and only if the group bit of its destination is set |
| Transmit.PollReads | daemon/core.c:70-98 | reading takes frames until there are no more, a unicast frame waits, 16 are queued or one is too short; all but the last are multicast |
| Transmit.UnicastStep | daemon/core.c:202-244 | a frame to the own address is looped back, to an unknown one dropped, to a peer sent if and only if both are on the same channel as UnicastExact says |
| Transmit.UnicastDelivers | daemon/core.c:202-244 | the timer's runs send a frame to a peer, after at most 17 rearms, if and only if the sequences share a channel, and change nothing else |
| Transmit.MulticastStep | daemon/core.c:246-277 | the oldest frame is sent if and only if the window number is 0 or 10 modulo 16, in its middle 32 time units |
| Transmit.MulticastDelivers | daemon/core.c:246-277 | the timer's runs send the oldest frame after at most 11 rearms |
| Transmit.RunConserves | daemon/core.c:70-277 | over every run each multicast frame was sent once in order or is still queued, each unicast frame was sent, looped back or dropped once in order or is pending |
| Transmit.Transmitter.Poll | daemon/core.c:70-98 | refines the poll step and says which kinds arrived |
| Transmit.Transmitter.SendUnicast | daemon/core.c:202-244 | refines the unicast step; rearms with the wait that UnicastProgress counts |
| Transmit.Transmitter.SendMulticast | daemon/core.c:246-277 | refines the multicast step; rearms with the wait that McastProgress counts |
| Crc32.TabIsStep8 | src/crc32.c:4-48 | all 256 table entries are the register after eight bit steps |
| Crc32.Step8Splits | src/crc32.c:55-55 | eight steps are eight steps of the low octet, exclusive or the register shifted by eight |
| Crc32.Crc | src/crc32.c:50-57 | for every byte string the table-driven CRC is the bitwise reflected CRC-32 (section 3.2.9 of IEEE 802.3) |
| EndToEnd.FrameIsDelivery | src/rx.c:133-149 | parsing a neighbour's frame files exactly what the network's delivery step hands over |
| EndToEnd.FrameMakesValid | src/peers.c:62-64 | a frame makes its sender's record valid if and only if it has sent a MIF by then and says a version and a device class; it is reported exactly when it turns valid; no other record changes |
| EndToEnd.ElectionIsRun | src/election.c:67-112 | the election over a node's table is the network's run step |
| EndToEnd.RunIsExec | src/rx.c:253-320 | every run of action frames sent, parsed and filed and of clean-ups in which nobody expires, on the nodes' own tables, is a run of the network |
| EndToEnd.WorldConverges | daemon/core.c:320-336 | after enough phases of such a run every node's election state is the one the network's only stable configuration gives it |
| EndToEnd.StableTree | src/election.c:106-112 | the followers of a root in a stable configuration form a tree of height at most 10 |
| EndToEnd.LimitKeepsTime | src/rx.c:34-58 | on every network, once the election has converged, any interleaving of sync frames along it keeps each informed follower h hops from its root within h time units and on its EAW number outside them |

## Left out

- Device I/O, netlink, CoreWLAN, option parsing, daemonising, logging and printing.
- Radiotap headers and the IEEE 802.11 header in front of the modelled frame bodies; the frame check sequence is modelled as a checksum only.
- SipHash: the hash map is proved for an arbitrary hash function.
- Ownership and freeing of memory; allocation failure is modelled only where the hash map grows.
- TLV handlers are functions on record values, and the fixed TLV contents are functions that give bytes; the loops around them and the frame that is put together from them are methods. What is not captured is writing struct fields in place.
- RoundTrip.ActionRoundTrip: covers the two-octet channel encodings; with the one-octet encoding the source leaves the second octet of each received entry undefined (it is 0 in `ReadChans`).
- Schedule.UnicastProgress: takes the peer's sync offset as 0, the only value a peer record ever holds (`Filed` in `PeerModel.dfy`).
- SyncTree.TreeKeepsTime: takes clocks of equal rate and instant delivery, and a sync tree that does not change.
- Stabilisation.Stabilises: takes a fixed topology whose heard neighbours are all valid and do not expire; so do the results of `Convergence.dfy`, `Agreement.dfy` and `EndToEnd.dfy`.
- Convergence.Converges: its number of phases is a bound for every network, not the least one.
- Transmit.RunConserves: counts a frame as sent when it is handed to the sending routine; failures of the device are not modelled.
- The initial channel switching, MIF and PSF timers, which have no property beyond their period.
