# Verified model of anisa

A Dafny model of the parts of the anisa node that carry state or arithmetic, with proofs about them:

- **Peer admission and connections** (`packages/p2p`). `Admission.dfy` says what each synchronous
  stretch of the code does to the accepted peers, the pending peers and the stored connections.
  `PeerService.dfy` has the classes, one method per stretch, proved against those functions.
  `PeerProtocol.dfy` lets the same functions happen in any order: a run is an arbitrary sequence of
  events (acceptances, pings, peer-list requests, seed re-population, answers, resumptions and
  socket failures), and the theorems hold after every run. A ping that is awaited is answered
  and resumed in two separate events, so other stretches may come between them, and peer objects
  have identities, so a late answer to a ping of a dropped peer does not reach its successor.
  Comparing subnets may throw for a text that is no address, and an answer may lack its state.
  `PeerHistory.dfy` tells from the events of a run what its maps hold.
  `SubnetBound.dfy` has the exact bound on peers of one /24 under overlapping acceptances, and
  `BatchAdmission.dfy` the discovery batch and the seed loop.
- **The periodic update**: the loop of runs and timers (`UpdateLoop.dfy`), and the node as a whole,
  in which that loop and the protocol run together and too few accepted peers make a run populate
  the seeds (`NetworkUpdate.dfy`).
- **The network monitor's data**: the median height (`NetworkHeight.dfy`), the merge of peer lists
  (`DiscoveryMerge.dfy`) and the accounting of failed pings (`PingTally.dfy`).
- **Plugin registration** (`packages/container`): the graph of targets and its cycles
  (`PluginGraph.dfy`), the depth-first walk and when it ends (`PluginWalk.dfy`), the order of
  registration and which plugins are registered (`PluginOrder.dfy`), and the classes
  (`PluginRegistrar.dfy`).
- **The socket codec**: the base64 encoder against section 4 of RFC 4648 (`Base64.dfy`) and the
  replacer and reviver on value trees (`SocketCodec.dfy`).
- **The seed list** (`SeedList.dfy`) and **column renaming** (`CamelizeColumns.dfy`).

Clocks, socket outcomes, answers of peers, shuffles and the order of completion are parameters or
events. Library functions are parameters: whitelist matching and the /24 of an ip are arbitrary
functions of the ip (the latter a partial one), the camel-case conversion is any function
(idempotent where a lemma says so), a plugin's hook has a fixed outcome, and the decoding of text
that is not proper base64 is arbitrary.

Findings that the model makes precise:

- The subnet limit is compared with accepted peers only, so it is kept by every run exactly when
  acceptances of the subnet do not overlap (`LimitHoldsExactlyWhenSerial`).
- A ping response without a state is stored like any other. An accepted peer has exactly the state
  of the reply that was delivered to it last (`AcceptedPeersHaveAnswered`), possibly none
  (`PeersWithoutStateAreAccepted`), and asking for the network height throws exactly while some
  accepted peer has none (`HeightThrowsExactlyWithoutState`).
- A stored connection loses its owner in a run exactly when a seed that is accepted and connected
  is populated again and cannot be compared with another accepted peer (`ConnectionsOwnedAllAlong`).
  So over any set of known ips, and in particular over addresses with the default whitelist `["*"]`,
  no run leaks a connection exactly if no two of them pass the whitelist of which one is no address
  (`ConnectionsOwnedExactlyWhenAddressesParse`).
- The periodic update goes on for ever exactly if the minimum number of peers is ignored or at most
  one, or no whitelisted seed is incomparable with another whitelisted ip that is a seed or can be
  discovered (`LoopSurvivesExactlyWhenSeedsParse`). Otherwise a run can be rejected while it
  populates the seeds, and then no timer is started any more.
- The already-registered check comes after the recursion. So if no failure is recorded under the path
  of another module, the walk of a plugin that reaches a cycle never returns normally, whatever has
  been registered before (`CyclicWalkNeverReturns`).
- A failed plugin is recorded under its name but looked up under a path. If a failing plugin is
  named like the path of another module, that dependency is skipped. Then a plugin on a cycle can be
  registered (`CyclesBlockExactlyWhenWellNamed`), and the teardown order can break
  (`OrderHoldsExactlyWhenWellNamed`); both happen for some graph whenever name and path differ.
- A plugin without a register hook is passed over together with its targets, so the order follows
  the targets of hooked plugins only. For targets as declared it holds exactly if such a plugin
  declares none but itself (`DeclaredOrderHoldsExactlyWithNothingBehind`).
- The median height withstands arbitrary reports exactly while they are fewer than the others
  (`RobustExactlyBelowHalf`).
- A top-level string, number, boolean or null does not survive the codec: it comes back as its JSON
  text (`MessageRoundTrip`).

## Model

| member | source | states |
|---|---|---|
| `PeerService.PeerConnector.Connect` | packages/p2p/src/peer-connector.ts:19-30 | keeps a stored connection, stores a new open one otherwise, and stores nothing if opening throws |
| `PeerService.PeerConnector.Disconnect` | packages/p2p/src/peer-connector.ts:32-38 | the connection of the ip is gone, the others stay, and its socket is left open |
| `PeerService.PeerConnector.Terminate` | packages/p2p/src/peer-connector.ts:40-48 | the connection of the ip is gone and its socket closed, the others stay |
| `PeerService.PeerCommunicator.StartPing` | packages/p2p/src/peer-communicator.ts:31-42 | a recently pinged peer is skipped unless forced; otherwise its error is cleared and a connection is stored if one can be opened |
| `PeerService.PeerCommunicator.Emit` | packages/p2p/src/peer-communicator.ts:119-142 | the synchronous prefix of every request: clears the error, stores the connection |
| `PeerService.PeerCommunicator.FinishPing` | packages/p2p/src/peer-communicator.ts:45-53 | throws without data; a response without configuration throws after time and state have been written; a complete one sets all three fields; a missing state is written as such |
| `PeerService.PeerProcessor.ValidatePeerIp` | packages/p2p/src/peer-processor.ts:36-66 | the four filters in their order, on the current maps; the subnet comparison throws for seeds, too |
| `PeerService.PeerProcessor.StartAcceptance` | packages/p2p/src/peer-processor.ts:30-34 | exactly the admissible ips become pending, each with a fresh peer object that is being pinged; nothing else changes; rejected if the filter throws |
| `PeerService.PeerProcessor.AcceptNewPeer` | packages/p2p/src/peer-processor.ts:68-78 | an accepted peer is left alone, any other becomes pending and is connected; a fresh peer is never skipped as recently pinged |
| `PeerService.PeerProcessor.FinishAcceptance` | packages/p2p/src/peer-processor.ts:80-91 | an answered ping stores the peer, a failed one disconnects it, and both clear the pending entry |
| `PeerService.EventListener.OnDisconnectPeer` | packages/p2p/src/event-listener.ts:11-14 | connection and accepted peer are dropped, pending peers stay |
| `PeerService.NetworkMonitor.AcceptDiscovered` | packages/p2p/src/network-monitor.ts:205 | the loop has the effect of the batch function that DiscoveryBatch characterises, and is rejected if some turn throws |
| `PeerService.NetworkMonitor.PopulateSeedPeers` | packages/p2p/src/network-monitor.ts:330-336 | the loop has the effect of the seed function that SeedBatch characterises, and is rejected exactly in the cases of SeedBatchRejects |
| `PeerService.NetworkMonitor.StartUpdate` | packages/p2p/src/network-monitor.ts:87-101 | a run starts exactly if none of the flags for test, genesis start and disabled discovery is set; genesis start only sets the cold-start flag |
| `PeerService.NetworkMonitor.EndUpdate` | packages/p2p/src/network-monitor.ts:111-122 | with enough accepted peers, or in seed mode, the run ends and starts a timer of 600 seconds unless one is outstanding; otherwise the seeds are populated, and the run waits for them or is rejected |
| `PeerService.NetworkMonitor.EndRepopulation` | packages/p2p/src/network-monitor.ts:114-121 | a run that waited for its seeds, and was not rejected, ends and starts a timer of 60 seconds unless one is outstanding |
| `PeerService.NetworkMonitor.OnTimer` | packages/p2p/src/network-monitor.ts:301-305 | the flag is cleared before the next run starts |
| `PeerProtocol.StepKeepsInv` | packages/p2p/src/peer-processor.ts:68-92 | every event keeps the invariant behind the run theorems |
| `PeerProtocol.RepopulateKeepsOwners` | packages/p2p/src/network-monitor.ts:331-335 | a forgotten seed is pending again in the same stretch unless the subnet check throws, so its connection is not orphaned |
| `PeerProtocol.ConnectionsOwnedAllAlong` | packages/p2p/src/network-monitor.ts:331-335 | for every single run: each stored connection belongs to an accepted or pending ip in every state of it, if and only if no accepted and connected seed is populated that cannot be compared with another accepted peer |
| `PeerProtocol.ConnectionsOwnedExactlyWhenAddressesParse` | packages/p2p/src/peer-storage.ts:57-59 | for every set of known ips: that holds after every run over them, if and only if discovery is disabled or no two of them pass the whitelist of which one is no address |
| `PeerProtocol.IdleConnectionsAreAccepted` | packages/p2p/src/peer-connector.ts:19-48 | for every set of known ips, under exactly the same condition: while no acceptance is in flight, each stored connection belongs to an accepted ip |
| `PeerProtocol.AcceptancesArePendingPeers` | packages/p2p/src/peer-storage.ts:21-51 | after every run acceptances in flight and pending ips correspond one to one, and pending and accepted ips are disjoint |
| `PeerProtocol.FinishedAcceptanceClearsPending` | packages/p2p/src/peer-processor.ts:75-89 | a finished acceptance clears its pending entry on success and on failure, and leaves the ip accepted or disconnected accordingly |
| `PeerProtocol.StartedPing` | packages/p2p/src/peer-communicator.ts:31-42 | the whole effect of a ping on an accepted peer: none if it was pinged less than 120 seconds ago and the ping is not forced; else that peer object is being pinged, over a stored connection or, if none can be opened, in vain |
| `PeerHistory.RepliesDecidePings` | packages/p2p/src/network-monitor.ts:147-162 | whatever happens before the caller resumes: a complete reply to a ping leaves the maps alone, and any other makes the ip of the pinged peer neither accepted nor connected |
| `PeerHistory.RepliesDecideAcceptances` | packages/p2p/src/peer-processor.ts:75-89 | whatever happens before the caller resumes: after a complete reply the new peer is stored, after any other its connection is dropped, and the ip is pending no more |
| `PeerHistory.OperationStays` | packages/p2p/src/peer-communicator.ts:127-151 | an operation in flight changes only by its own reply and by its own resumption |
| `PeerHistory.AcceptedHistory` | packages/p2p/src/peer-processor.ts:80-86 | a peer object is the accepted one of its ip if and only if its acceptance was answered in full and resumed, and since then no ping of the ip failed and it was not populated as a seed |
| `PeerHistory.ConnectedHistory` | packages/p2p/src/peer-connector.ts:19-48 | an ip is connected if and only if a connection was stored for it, by a ping, a peer-list request or an admissible acceptance, and since then its socket has not gone down and no operation on it has failed |
| `PeerProtocol.AcceptedPeersHaveAnswered` | packages/p2p/src/peer-communicator.ts:45-53 | every accepted peer has been pinged, its ping time and its state, or the lack of one, are those of the reply delivered last to that peer object, and its plugins those of the last complete one |
| `PeerProtocol.UnansweredPeersAreFresh` | packages/p2p/src/peer.ts:9-20 | a peer object to which nothing was delivered has a state without height and neither ping time nor plugins |
| `PeerProtocol.PeersWithoutStateAreAccepted` | packages/p2p/src/peer-communicator.ts:49-53 | an answer without a state is enough to be accepted, so not every accepted peer has one |
| `PeerProtocol.OnlyCompleteRepliesAreStored` | packages/p2p/src/peer-communicator.ts:127-151 | no peer is stored whose own acceptance was not answered by a complete response while it waited |
| `SubnetBound.ConcurrentSubnetBound` | packages/p2p/src/peer-processor.ts:50-63 | with at most W acceptances of a /24 in flight, accepted plus pending non-seed peers of it never exceed the limit - 1 + W |
| `SubnetBound.SubnetBoundIsReached` | packages/p2p/src/network-monitor.ts:205 | for every limit, every W and any ips, a run with at most W in flight accepts limit - 1 + W of them |
| `SubnetBound.LimitHoldsExactlyWhenSerial` | packages/p2p/src/peer-storage.ts:57-59 | every run keeps the configured limit if and only if W is 1 |
| `BatchAdmission.DiscoveryBatch` | packages/p2p/src/network-monitor.ts:205 | the batch adds to pending exactly the ips that were eligible before it (discovery enabled, whitelisted, unknown, comparable, fewer accepted peers in the subnet than the limit), and connects those that can be connected |
| `BatchAdmission.DiscoveryBatchRejects` | packages/p2p/src/network-monitor.ts:205 | the batch is rejected exactly if a whitelisted ip of it that was not pending cannot be compared with some accepted peer |
| `BatchAdmission.BatchOrderIsIrrelevant` | packages/p2p/src/network-monitor.ts:205 | the order of the batch, and repetitions, make no difference |
| `BatchAdmission.SeedBatch` | packages/p2p/src/network-monitor.ts:330-336 | every seed is forgotten, and with discovery enabled exactly those become pending that are whitelisted and have a turn at which the subnet check does not throw |
| `BatchAdmission.SeedBatchRejects` | packages/p2p/src/network-monitor.ts:330-336 | populating the seeds is rejected exactly if a whitelisted seed that was not pending meets at its turn an accepted peer with which it cannot be compared |
| `BatchAdmission.SeedsNeverRejectExactlyWhenAddressesParse` | packages/p2p/src/peer-storage.ts:57-59 | for every set of known ips: after no run over them populating known seeds is rejected, if and only if discovery is disabled or no two of them pass the whitelist of which one is no address |
| `BatchAdmission.SeedsArePendingAfterwards` | packages/p2p/src/network-monitor.ts:330-336 | with discovery enabled, unless it is rejected, every whitelisted seed is pending and not accepted; no other peer is dropped in any case |
| `BatchAdmission.BatchIsARun` | packages/p2p/src/network-monitor.ts:205 | a batch is part of some run, so all run theorems hold after it |
| `UpdateLoop.LoopNeitherDiesNorForks` | packages/p2p/src/network-monitor.ts:87-122 | the flag is set exactly while the one timer is outstanding; once called, runs, timers and rejected runs together stay between 1 and the number of outside calls |
| `UpdateLoop.LoopRunsExactlyInOrdinaryMode` | packages/p2p/src/network-monitor.ts:88-101 | nothing ever runs if and only if one of the flags for test, genesis start and disabled discovery is set; otherwise the first call starts a run |
| `UpdateLoop.RunsNeverOverlapExactlyAfterOneCall` | packages/p2p/src/network-monitor.ts:294-306 | runs never overlap if and only if there is at most one outside call |
| `NetworkUpdate.LoopIsATrace` | packages/p2p/src/network-monitor.ts:103-122 | the loop of the whole node, whose runs are rejected only by their own seeds, is a run of the loop alone |
| `NetworkUpdate.EndOfDiscovery` | packages/p2p/src/network-monitor.ts:111-121 | a run with enough accepted peers, or in seed mode, ends and leaves one timer; with too few it goes through the seeds and is rejected or waits |
| `NetworkUpdate.EndOfRun` | packages/p2p/src/network-monitor.ts:114-121 | a run that has waited ends and leaves one timer, a rejected one ends and leaves none, and a timer that fires clears the flag and starts a run |
| `NetworkUpdate.LoopSurvivesExactlyWhenSeedsParse` | packages/p2p/src/network-monitor.ts:111-122 | with discovery enabled: once called, a run or a timer is outstanding after every run of the node, if and only if the minimum is ignored or at most one, or no whitelisted seed is incomparable with another whitelisted ip that is a seed or can be discovered |
| `NetworkHeight.HeightThrowsExactlyWithoutState` | packages/p2p/src/network-monitor.ts:239-247 | after every run the height throws if and only if the reply delivered last to some accepted peer had no state; otherwise it is the median of the reports |
| `NetworkHeight.HeightOfStates` | packages/p2p/src/network-monitor.ts:239-247 | of the states alone: zero if none has a known height other than zero, else one of these heights, with at most half of them below it and more than half not above it |
| `NetworkHeight.ReportedHeights` | packages/p2p/src/network-monitor.ts:242-243 | heights that are unknown or zero are left out, and every other is kept as often as it occurs |
| `NetworkHeight.SortSorts` | packages/p2p/src/network-monitor.ts:244 | the sort gives an ascending rearrangement |
| `NetworkHeight.HalfOnEitherSide` | packages/p2p/src/network-monitor.ts:239-247 | the height is a reported one with at least half of the reports on either side |
| `NetworkHeight.MedianIsInTheMiddle` | packages/p2p/src/network-monitor.ts:246 | fewer reports than the middle position are below it and more are not above it |
| `NetworkHeight.MiddleIsUnique` | packages/p2p/src/network-monitor.ts:246 | being in the middle in that sense determines the height |
| `NetworkHeight.PeerOrderIsIrrelevant` | packages/p2p/src/network-monitor.ts:240-244 | the order of the peers makes no difference |
| `NetworkHeight.MinorityCannotMoveTheMedian` | packages/p2p/src/network-monitor.ts:239-247 | fewer arbitrary reports than others cannot move the result out of the range of the others |
| `NetworkHeight.HalfMovesTheMedian` | packages/p2p/src/network-monitor.ts:246 | as many arbitrary reports as others can put the result at any greater height |
| `NetworkHeight.RobustExactlyBelowHalf` | packages/p2p/src/network-monitor.ts:239-247 | the result stays in the range of the others for all reports if and only if the arbitrary ones are fewer |
| `DiscoveryMerge.DiscoveredPeers` | packages/p2p/src/network-monitor.ts:180-202 | at most 400 peers, one for each ip among the first 50 entries of the answers of the first 8 peers, each the last such entry for its ip |
| `DiscoveryMerge.KeyedKeepsLast` | packages/p2p/src/network-monitor.ts:197-199 | within a list the last entry for an ip is kept |
| `DiscoveryMerge.MergedKeepsLast` | packages/p2p/src/network-monitor.ts:201 | between lists the last one that mentions the ip wins |
| `PingTally.Tally` | packages/p2p/src/network-monitor.ts:129-175 | `max` is the number of peers, or the given count if that is smaller and not zero; for every order of failures, the counter and the total length of the groups equal their number, and `max` less the counter is the number of checked peers without one |
| `PingTally.GroupsPartition` | packages/p2p/src/network-monitor.ts:153-157 | every failed peer is in the group of its error and in no other, and nobody else is in a group |
| `PingTally.GroupsKeepOrder` | packages/p2p/src/network-monitor.ts:153-157 | a group lists its peers in the order in which they failed |
| `PluginGraph.GroundedExactlyWithoutCycle` | packages/container/src/registrars/plugin.ts:97-103 | the chains of targets from a path are bounded by the number of modules if and only if it reaches no cycle |
| `PluginWalk.WalkOutcome` | packages/container/src/registrars/plugin.ts:85-145 | case by case, what a walk comes to: a missing path fails, a plugin without a hook is left alone, and after `extends` and then, unless failed, `depends`, a plugin whose name or alias is a key is left alone, an invalid version aborts with all as it was, and else the hook decides |
| `PluginWalk.WantedMeans` | packages/container/src/registrars/plugin.ts:26-33 | names up to the early exit count; the exclude list decides if there is one, else the include list if there is one |
| `PluginWalk.SecondSetUpChangesNothing` | packages/container/src/registrars/plugin.ts:85-145 | on every graph, going through the same names again after a finished set-up changes nothing |
| `PluginWalk.AcyclicWalkEnds` | packages/container/src/registrars/plugin.ts:85-111 | the walk of a path that reaches no cycle ends, at most one deeper than the number of modules, whatever is registered already |
| `PluginWalk.WalkEndsExactlyWithoutCycle` | packages/container/src/registrars/plugin.ts:97-111 | unless aborted, and if no failure is recorded under another module's path, the walk ends if and only if the path reaches no cycle |
| `PluginWalk.CyclicWalkNeverReturns` | packages/container/src/registrars/plugin.ts:97-111 | if no failure is recorded under another module's path, the walk of a plugin that reaches a cycle never returns normally |
| `PluginWalk.CyclesBlockExactlyWhenWellNamed` | packages/container/src/registrars/plugin.ts:101-143 | for every path and name of the only failing plugin: that holds after every set-up of every such graph if and only if the name is the path |
| `PluginWalk.AcyclicSetUpEnds` | packages/container/src/registrars/plugin.ts:26-33 | the set-up ends if no name that passes the filter, up to the early exit, reaches a cycle |
| `PluginOrder.WalkKeepsInv` | packages/container/src/registrars/plugin.ts:85-146 | finished walks are closed under targets, and a path whose walk has finished is not registered later |
| `PluginOrder.TargetsAreRecordedFirst` | packages/container/src/registrars/plugin.ts:97-138 | in the teardown list every plugin comes after all its transitive targets through hooked plugins that are in it, and none is in it twice, if no failure is recorded under another module's path |
| `PluginOrder.DependentsAreTornDownFirst` | packages/container/src/registrars/plugin.ts:52-56 | under the same proviso, the first teardown runs every recorded plugin once and before its transitive targets through hooked plugins, and a second one, on the reversed list, after them |
| `PluginOrder.OrderHoldsExactlyWhenWellNamed` | packages/container/src/registrars/plugin.ts:101-143 | for every path and name of the only failing plugin: every set-up of every such graph records targets through hooked plugins first if and only if the name is the path |
| `PluginOrder.DeclaredOrderHoldsExactlyWithNothingBehind` | packages/container/src/registrars/plugin.ts:93-103 | for every plugin among hooked ones: every set-up of every such graph records all declared transitive targets first if and only if the plugin is hooked or declares no target but itself |
| `PluginOrder.OnlyReachableRegister` | packages/container/src/registrars/plugin.ts:64-111 | in every case only hooked plugins are registered that can be reached from a name which passes the filter and stands before the early exit |
| `PluginOrder.RegisteredPluginsAreProper` | packages/container/src/registrars/plugin.ts:105-138 | however the set-up ended, each registered plugin has a valid version and a hook that succeeds and is in the container with its options, and those recorded for teardown are exactly the registered ones with a deregister hook, in order |
| `PluginOrder.RegisteredAreTheClosure` | packages/container/src/registrars/plugin.ts:26-33 | if nothing that can be reached from those names is missing, invalid, failing or hidden, the registered plugins are exactly the hooked ones that can be reached, each once |
| `PluginRegistrar.PluginRegistrar.RegisterWithContainer` | packages/container/src/registrars/plugin.ts:85-111 | the recursive method ends within the depth of the graph and does what the walk says, also when it aborts |
| `PluginRegistrar.PluginRegistrar.RegisterItself` | packages/container/src/registrars/plugin.ts:105-145 | has check, version check, registration, failure record or forced exit, which sets the shutdown flag; an invalid version changes nothing, and only a valid one with a hook that succeeds registers |
| `PluginRegistrar.PluginRegistrar.ShouldRegister` | packages/container/src/registrars/plugin.ts:211-223 | the include list decides unless there is an exclude list, which then decides alone |
| `PluginRegistrar.PluginRegistrar.SetUp` | packages/container/src/registrars/plugin.ts:26-33 | the loop over the configured names with filter, early exit and abort, if none of those to be registered reaches a cycle |
| `PluginRegistrar.PluginRegistrar.TearDown` | packages/container/src/registrars/plugin.ts:52-56 | runs each recorded hook once, in reverse order, and leaves the list reversed |
| `Base64.AppendWord` | packages/p2p/src/utils/sc-codec.ts:13-16 | shifts and masks give the four 6-bit groups of section 4 of RFC 4648 |
| `Base64.ArrayBufferToBase64` | packages/p2p/src/utils/sc-codec.ts:7-26 | the result is the encoding of section 4 of RFC 4648, for every byte sequence |
| `Base64.EncodingIsABijection` | packages/p2p/src/utils/sc-codec.ts:7-26 | encoder and strict decoder are inverse to each other, in both directions |
| `Base64.EncodingIsInjective` | packages/p2p/src/utils/sc-codec.ts:7-26 | different bytes have different encodings |
| `Base64.EncodingLength` | packages/p2p/src/utils/sc-codec.ts:12-17 | four characters for every three bytes begun |
| `Base64.EncodingPadding` | packages/p2p/src/utils/sc-codec.ts:19-23 | padding stands at the end only, in the number that the length modulo three asks for |
| `Base64.TestVectors` | packages/p2p/src/utils/sc-codec.ts:4-26 | test vectors of section 10 of RFC 4648 |
| `SocketCodec.RoundTrip` | packages/p2p/src/utils/sc-codec.ts:28-61 | reading what was written gives the normal form, at every depth |
| `SocketCodec.RoundTripUnchanged` | packages/p2p/src/utils/sc-codec.ts:28-61 | a value comes back unchanged if and only if it has no array buffer and no look-alike at any depth |
| `SocketCodec.SecondRoundTrip` | packages/p2p/src/utils/sc-codec.ts:28-61 | a second round trip changes nothing more |
| `SocketCodec.ReadUnchanged` | packages/p2p/src/utils/sc-codec.ts:58-61 | reading leaves a tree as it is if and only if no object in it, at any depth, has `base64: true` and a text as `data` |
| `SocketCodec.ByteOfMeans` | packages/p2p/src/utils/sc-codec.ts:40-55 | a number in the data of a buffer-like object is cut off towards zero and reduced modulo 256 |
| `SocketCodec.MessageRoundTrip` | packages/p2p/src/utils/sc-codec.ts:65-93 | whole messages come back in normal form if and only if they are containers, binary data or the ping and pong texts |
| `SocketCodec.IncomingMessages` | packages/p2p/src/utils/sc-codec.ts:65-85 | any text stays as it is unless it is empty; JSON text of an object or an array is read, other JSON text stays text |
| `SeedList.PeersFile.Fetch` | packages/container/src/config/file-loader.ts:73-90 | the first local file, or the first download that can be parsed, decides: its list, or nothing if it is falsy; a local file that cannot be loaded throws |
| `SeedList.PeersFile.BuildPeers` | packages/container/src/config/file-loader.ts:92-101 | the loop merges the fetched list; without one nothing changes |
| `SeedList.MergedList` | packages/container/src/config/file-loader.ts:97-101 | the original list is a prefix, additions are fetched entries, exactly the pairs of ip and port of both lists are in the result, and no addition has the ip and the port of an entry before it |
| `SeedList.MergeTwice` | packages/container/src/config/file-loader.ts:97-101 | merging the same list again changes nothing |
| `CamelizeColumns.CamelizeColumns` | packages/database-postgres/src/utils.ts:8-22 | every row is changed in place by one and the same list of renames |
| `CamelizeColumns.RenameColumn` | packages/database-postgres/src/utils.ts:15-19 | in every row the new property has the old one's value, or `undefined` if there was none, the old one is gone and all others are as they were |
| `CamelizeColumns.CamelizedRows` | packages/database-postgres/src/utils.ts:8-22 | for rows with the same columns the renaming is injective, sends each column to itself or its camel name and keeps every cell |
| `CamelizeColumns.RenamedColumns` | packages/database-postgres/src/utils.ts:12-14 | a column keeps its name if and only if its camel name is taken, inherited, or the camel name of an earlier column |
| `CamelizeColumns.SecondRunChangesNothing` | packages/database-postgres/src/utils.ts:8-22 | a second run renames nothing, in whatever order it visits the columns |
| `CamelizeColumns.VisitingCamelNames` | packages/database-postgres/src/utils.ts:11-14 | it makes no difference whether the loop visits names that it added itself, at whatever point of the visit |

## Left out

- Sockets, HTTP, DNS, NTP, real clocks and timers: their outcomes are events or parameters.
- The order of entries in maps, and thereby of `values()` and of `Object.values`: maps have no order here; what is proved does not depend on it.
- Latency, ports and version of a peer, and the maximum payload of a socket: plain writes that no decision reads.
- Setting and reading connection errors: nothing in the repository sets one; only the clearing is modelled.
- Peer addresses beyond equality: whitelist and /24 are arbitrary functions of the ip, and for which texts the /24 cannot be computed is open, since the `ip` library is not part of this model.
- Open sockets over whole runs: that `disconnect` forgets a socket without closing it is stated of the method only.
- PluginRegistrar.PluginRegistrar.SetUp: does not cover names that reach a cycle, where the recursion does not end or, after a misnamed failure, may end; module PluginWalk covers them.
- The condition under which `discoverPeers` starts its batch (`pingAll`, too few peers, or the 0.75 ratio): the batch may start at any time.
- An invalid whitelist pattern, a missing seed list (which exits the process), and an environment value for the subnet limit that is no number.
- `pingPorts`, `hasCommonBlocks`, `postBlock`, `postTransactions`, `getPeerBlocks`: stubs, or without effect on the modelled state.
- Plugin options (defaults, overrides, casting): pointwise merging, which is assumed not to throw. If it did, the name would go into the failure records, or the set-up would be rejected.
- A register hook that succeeds once and fails another time, and a deregister hook that rejects: outcomes are fixed.
- Exit handlers, the readiness flag and `Container.tearDown`: only the shutdown flag set by a forced exit is modelled.
- JSON text: writing and parsing are taken together as the identity on trees; `undefined`, functions and non-finite numbers do not occur in the values.
- Platform decoding of text that is not a proper base64 encoding: an arbitrary function.
- Writing `peers.json` back to disk, and a fetched value that is truthy but no list.
- Why the seeds that a run waits for are settled: in `NetworkUpdate` a run may end its wait at any time.
- Rate limiting, the socket server, databases, the wallet API, the CLI, logging and the event emitter's listener limits.
