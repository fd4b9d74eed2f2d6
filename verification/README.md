# rshome, modelled and proved in Dafny

rshome links ESPHome devices to a home-automation hub. This project models the parts of it
that carry protocol and bookkeeping logic and proves what they promise, or exactly when
they keep a promise. `dafny verify dfyconfig.toml` checks everything.

| file | module | what it models |
|---|---|---|
| `Codec.dfy` | `Codec` | the Native API stream codec: varints and frames cut out of a growing buffer |
| `Session.dfy` | `Session` | the client end of a device link: handshake, import, ingest, reconnect |
| `Conduct.dfy` | `Conduct` | how a session conducts itself over runs: giving up, ending, trying again, refusing |
| `Connection.dfy` | `Connection` | the server end: entity list, subscription, key lookup |
| `Link.dfy` | `Link` | both ends over two FIFO channels: reachable configurations, length of the handshake, addressing |
| `Traffic.dfy` | `Traffic` | commands and pings over a link: order, exactly-once calls, answers |
| `Mirror.dfy` | `Mirror` | what a subscription achieves: when the client mirrors the server's store |
| `Manager.dfy` | `Manager` | the device-link manager and its maps |
| `History.dfy` | `History` | the manager's records told from the messages it has handled |
| `Supervisor.dfy` | `Supervisor` | the restart limiter and the restart monitor |
| `Echo.dfy` | `Echo` | telling firmware pushes from local changes |
| `Snapshots.dfy` | `Snapshots` | saving and restoring a whole runtime |
| `Contents.dfy` | `Contents` | what is in a snapshot and in a restored runtime, entry by entry |
| `DependencyOrder.dfy` | `DependencyOrder` | the legacy topological sort, cycles included |
| `Dag.dfy` | `Dag` | layers, critical path, reachability and orchestration steps |
| `Naming.dfy` | `Naming` | entity ids, FNV-1a keys, device slugs |
| `Wire.dfy`, `Words.dfy`, `Ordering.dfy` | | frames and states, machine words, sorted names |

The shape is the same throughout. What a handler or algorithm does is a function on values
(`Step`, `Handle`, `OnFrame`, `Order`, `DecodeFrame`, `Build`, ...). A class or method in the
form of the original, with its loops over maps in an arbitrary order, is proved to compute
that function. Theorems are about the function: over all inputs, or over all runs of events.

Where the code does less than its comments say, the code is modelled as it is and the exact
condition is proved:

- an over-long varint is not rejected but makes the decoder wait for ever
  (`Codec.WaitsForeverExactlyWhenStalled`), and payloads over 64 KiB are encoded but never
  decoded (`Codec.FrameRoundTrip`);
- after a refused import the session is Active all the same (`Session.RejectedStillActive`);
- frames and reader ends carry no mark of their connection, so an old reader's end tears down
  a new connection (`Session.StaleReaderTearsDown`, `Session.ExactlyOneToken`);
- a Connect that arrives while a connection is up withdraws nothing (`Session.StepSilentIff`,
  `Session.ValuesSurviveReconnect`);
- a state without a frame, Unavailable above all, is never pushed, and the client goes on
  showing the one before (`Mirror.DrainedClientMirrorsStore`,
  `Mirror.UnavailableLeavesTheOldState`);
- an entity that is added on the server after the subscription is never pushed on that connection
  (`Traffic.AddedLaterIsNeverPushed`);
- an entity that vanished keeps its old key, which may by now be another's
  (`Session.VanishedReturnsIffKeyUnused`);
- an entity that is listed under a new key can keep answering to its old one (`Mirror.SoleIff`);
- the session that owns an identity is told to stop as its own duplicate when it reconnects,
  and its device has no other session for as long as it stays on record
  (`Manager.ReconnectEndsTheLink`, `Manager.OwnerReachable`);
- an identity is orphaned when its session resolves to a new one, and stays
  (`Manager.OrphanedExactly`, `Manager.OrphanReachable`, `Manager.OrphanForever`);
- announcing a device again never gives it a session (`Manager.SameSessionOnRecord`);
- resolving a device that is gone drops its restored record (`Manager.ListedIff`);
- `RestartN` narrows its limit to 32 bits (`Supervisor.SupervisedRun`);
- a push comes back to the firmware when it is overtaken (`Echo.EchoedIff`,
  `Echo.OvertakenIsEchoed`), and a local change
  back to the firmware's value is not relayed (`Echo.FirmwareFollowsIff`);
- a snapshot does not round-trip when two devices list an entity that has no registered
  descriptor (`Snapshots.RoundTripIffNoClash`), which can happen (`Snapshots.ClashReachable`),
  and a removed entity comes back as an orphan (`Snapshots.RemovedComesBack`);
- a snapshot that lists a device several times can give it more entities than a device may
  have (`Snapshots.RestoreKeepsLimits`, `Snapshots.LimitPerDeviceIff`).

## Model

| member | source | states |
|---|---|---|
| `Codec.VarintRoundTrip` | crates/rshome-native-api/src/codec.rs:24-55 | for every 64-bit value and any bytes behind it, reading what was written gives the value and its exact length, 1 to 10 |
| `Codec.EncodeVarintMinimal` | crates/rshome-native-api/src/codec.rs:44-55 | an encoding fits in n bytes if and only if the value fits in n seven-bit groups |
| `Codec.VarintPrefixFree` | crates/rshome-native-api/src/codec.rs:44-55 | one encoding is a prefix of another only if they are the same value's |
| `Codec.PeekRefusal` | crates/rshome-native-api/src/codec.rs:20-41 | a refused varint is either incomplete, and a byte can finish it, or over-long, and nothing can |
| `Codec.PeekVarint` | crates/rshome-native-api/src/codec.rs:24-41 | the loop with its shifting accumulator reads the value modulo 2^64, also where the tenth group overflows, and refuses exactly when ten groups do not end it or the bytes run out |
| `Codec.WriteVarint` | crates/rshome-native-api/src/codec.rs:44-55 | the loop appends the base-128 encoding of the value |
| `Codec.DecodeStable` | crates/rshome-native-api/src/codec.rs:61-118 | a frame or an error is not changed by bytes that arrive behind it |
| `Codec.FrameRoundTrip` | crates/rshome-native-api/src/codec.rs:61-131 | a frame decodes to itself, leaving what follows, if and only if its payload is at most 64 KiB; a larger one is rejected |
| `Codec.MalformedIff` | crates/rshome-native-api/src/codec.rs:61-92 | the decoder fails exactly on a first byte that is not zero, which the error names, and on a length over 64 KiB, which the error names |
| `Codec.WideTypeIsCut` | crates/rshome-native-api/src/codec.rs:96-117 | a message type of up to 64 bits decodes to its lowest 32, the frame otherwise unharmed |
| `Codec.TenthByteDropsBits` | crates/rshome-native-api/src/codec.rs:24-41 | of a ten-byte varint only the lowest bit of the last byte counts |
| `Codec.StalledForever` | crates/rshome-native-api/src/codec.rs:78-101 | with an over-long varint in the header the decoder asks for more whatever arrives |
| `Codec.ElevenBytesStall` | crates/rshome-native-api/src/codec.rs:78-82 | a preamble and ten continuation bytes are such an input |
| `Codec.WaitsForeverExactlyWhenStalled` | crates/rshome-native-api/src/codec.rs:61-118 | the decoder asks for more under every continuation if and only if a header varint is over-long |
| `Codec.DrainSplit` | crates/rshome-native-api/src/codec.rs:61-118 | draining a buffer in two parts, the rest of the first put before the second, gives the same frames and error |
| `Codec.DrainLeavesNothing` | crates/rshome-native-api/src/codec.rs:61-118 | what is left of a drained buffer is its end, at which the decoder asks for more or fails with the error reported |
| `Codec.ChunkingIsInvisible` | crates/rshome-native-api/src/codec.rs:57-119 | draining after each chunk gives the frames, error and rest of draining the whole stream at once |
| `Codec.StreamRoundTrip` | crates/rshome-native-api/src/codec.rs:57-132 | any frames up to 64 KiB, encoded, concatenated and cut anywhere, come out in order and leave the buffer empty |
| `Codec.Encode` | crates/rshome-native-api/src/codec.rs:124-131 | appends the encoding of the frame to the buffer |
| `Codec.Decode` | crates/rshome-native-api/src/codec.rs:61-118 | advances the buffer by exactly the frame it returns; asking for more and failing leave it untouched |
| `Codec.FrameReader.Receive` | crates/rshome-device-link/src/session.rs:1103-1128 | the reader loop forwards every frame the buffer holds, stops at the first error, and ends |
| `DependencyOrder.OrderIsTopologicalThenCyclic` | crates/rshome-config/src/validated.rs:130-192 | for any edges: every node exactly once; first those that reach no cycle, each after its dependencies; then those that reach one, sorted |
| `DependencyOrder.TopologicalIffAcyclic` | crates/rshome-config/src/validated.rs:130-192 | the whole order is topological if and only if there is no cycle |
| `DependencyOrder.SortableExactly` | crates/rshome-config/src/validated.rs:164-181 | the main loop places a node if and only if it reaches no cycle |
| `DependencyOrder.OrderDependsOnDependencies` | crates/rshome-config/src/validated.rs:133-191 | the order is the same for any two edge maps with the same nodes and dependencies, however listed or repeated |
| `DependencyOrder.FirstComeFirstServed` | crates/rshome-config/src/validated.rs:154-181 | of two nodes the main loop places, the one that became ready after fewer placements comes first, and of two that became ready together the lesser name |
| `DependencyOrder.RankIsFirst` | crates/rshome-config/src/validated.rs:168-180 | a node becomes ready at the first placement after which all it depends on is placed |
| `DependencyOrder.DependencyGraph.AddDependency` | crates/rshome-config/src/validated.rs:93-98 | adds one dependency to one node and changes no other |
| `DependencyOrder.DependencyGraph.CountDependencies` | crates/rshome-config/src/validated.rs:141-145 | in-degrees count dependencies with repeats |
| `DependencyOrder.DependencyGraph.ReverseEdges` | crates/rshome-config/src/validated.rs:147-152 | each dependent is listed as often as it names the dependency, in any map order |
| `DependencyOrder.DependencyGraph.Release` | crates/rshome-config/src/validated.rs:168-180 | lowers the in-degrees of the dependents and queues, in name order, exactly those whose last missing dependency was placed |
| `DependencyOrder.DependencyGraph.PlaceAll` | crates/rshome-config/src/validated.rs:164-181 | the loop computes the sortable part of the order |
| `DependencyOrder.DependencyGraph.ComputeOrder` | crates/rshome-config/src/validated.rs:130-192 | whatever order the hash maps yield, the result is the one order of the theorems above |
| `Dag.ParallelLayers` | crates/rshome-schema/src/graph.rs:178-214 | whichever topological order is used, each node is in the layer numbered by its longest chain, layers are sorted and as many as the longest chain has nodes; a cyclic graph has none |
| `Dag.Bucket` | crates/rshome-schema/src/graph.rs:203-211 | fills and sorts the layers in any map order, nodes with the same name listed each |
| `Dag.LayersUnique` | crates/rshome-schema/src/graph.rs:414-447 | the layers of parallel_stages are determined by the graph alone |
| `Dag.EdgesGoForward` | crates/rshome-schema/src/graph.rs:187-201 | every edge goes to a strictly later layer |
| `Dag.NoShorterLayering` | crates/rshome-schema/src/graph.rs:173-214 | no numbering that respects the edges uses fewer layers |
| `Dag.Distances` | crates/rshome-schema/src/graph.rs:456-472 | one pass in topological order gives every node its longest-chain length and a predecessor that attains it |
| `Dag.CriticalPath` | crates/rshome-schema/src/graph.rs:450-489 | the path is a chain of the graph that no chain exceeds, empty for an empty or cyclic graph |
| `Dag.TransitiveDeps` | crates/rshome-schema/src/graph.rs:217-243 | terminates, cycles included, with the sorted names of exactly the nodes that reach the start by one or more edges |
| `Dag.NamesAreDistinct` | crates/rshome-schema/src/graph.rs:237-242 | where node names differ, such a list has no repeats and is exactly the names of the nodes |
| `Dag.NeverItsOwnDependency` | crates/rshome-schema/src/graph.rs:217-243 | in an acyclic graph a node is never among its own dependencies |
| `Dag.BuildSteps` | crates/rshome-schema/src/graph.rs:353-385 | edges are those declared, unknown ids skipped, or the chain of the list when nothing is declared |
| `Dag.FromSteps` | crates/rshome-schema/src/graph.rs:353-397 | the graph of the steps, refused exactly if it has a cycle, which does not depend on how the edges are listed |
| `Dag.InferredChainKeepsOrder` | crates/rshome-schema/src/graph.rs:366-374 | the only topological order of an inferred chain with distinct ids is the order of the list |
| `Naming.PartsOfId` | crates/rshome-entity/src/entity_id.rs:6-16 | the domain of a built id always reads back; the object id does if and only if it has no dot |
| `Naming.Fnv1a32` | crates/rshome-native-api/src/fnv.rs:4-11 | the loop computes the FNV-1a hash with 32-bit wrap-around |
| `Naming.FnvOfTemp` | crates/rshome-native-api/src/fnv.rs:23-27 | the value the repository gives for "temp" |
| `Naming.Utf8Reads` | crates/rshome-native-api/src/fnv.rs:6 | the bytes that are hashed are UTF-8: the first tells how many there are, and six bits of each following one make up the character |
| `Naming.FnvStepInjective` | crates/rshome-native-api/src/fnv.rs:6-9 | a hashing step loses nothing: equal hashes after a byte come from equal hashes before it |
| `Naming.FnvSuffix` | crates/rshome-native-api/src/fnv.rs:4-11 | two names with a common ending collide if and only if they collide without it |
| `Naming.DomainsCollide` | crates/rshome-native-api/src/fnv.rs:13-16 | entities with the same object id have the same key in every domain |
| `Naming.SlugIsClean` | crates/rshome-device-link/src/discovery.rs:37-48 | a slug has no double underscore and none at either end, whatever lower-casing and alphanumeric test are used |
| `Naming.SlugJoinsWords` | crates/rshome-device-link/src/discovery.rs:37-48 | a slug is the longest runs of alphanumeric characters of the lowered name, in order, joined by single underscores |
| `Naming.SlugKeepsIff` | crates/rshome-device-link/src/discovery.rs:37-48 | a lowered name is its own slug if and only if it has only alphanumeric characters and single underscores inside |
| `Naming.SqueezeFixedPoint` | crates/rshome-device-link/src/discovery.rs:43-47 | a string is its own slug if and only if it is clean in that way |
| `Naming.LocalNameInjective` | crates/rshome-device-link/src/session.rs:739-740 | slug and object id can be told from the local name, for every object id |
| `Naming.SharedIdIffSameSlug` | crates/rshome-device-link/src/session.rs:739-740 | two devices can share an entity id, each in its domain, if and only if the domains and the slugs are the same |
| `Session.StepTokens` | crates/rshome-device-link/src/session.rs:977-1061 | each message keeps the number of reconnects on their way plus live readers, except that an undecodable device info, a refused import and an inactivity timeout add exactly one |
| `Session.TokensAreConserved` | crates/rshome-device-link/src/session.rs:313-440 | over every run that number is one plus how often those three happened |
| `Session.ExactlyOneToken` | crates/rshome-device-link/src/session.rs:955-1061 | in every reachable state that is not stopped there is one token if and only if none of the three happened; it is then the reader exactly while the session is connected |
| `Session.RunAlive` | crates/rshome-device-link/src/session.rs:313-440 | over every run a connected session has a reader and a waiting one a reconnect on its way |
| `Session.StaleReaderTearsDown` | crates/rshome-device-link/src/session.rs:490-499 | after a device info that does not decode and a reconnect there are two readers, and the old one's end tears down the new connection and leaves its reader behind |
| `Session.RejectedStillActive` | crates/rshome-device-link/src/session.rs:569-611 | when the list ends the session is Active; a reconnect is also on its way exactly if the list was over the caps, and then nothing was imported |
| `Session.EntitiesHearTheLastWord` | crates/rshome-device-link/src/session.rs:859-880 | over every run, leaks included, the last message to each entity is the firmware's last word on it or, where none is on record, Unavailable |
| `Session.SilentRun` | crates/rshome-device-link/src/session.rs:942-948 | on every run without leaks no firmware value is on record while the session is not active |
| `Session.StepSilentIff` | crates/rshome-device-link/src/session.rs:977-1061 | the only message after which a value can be on record without an active session is a Connect, exactly when it finds one on record |
| `Session.ValuesSurviveReconnect` | crates/rshome-device-link/src/session.rs:569-611 | a run on which that happens: a list is refused, a push is taken, the reconnect arrives |
| `Session.BackoffGrowsToThirty` | crates/rshome-device-link/src/session.rs:1142-1148 | delays never shrink, start at 1 s and are 30 s exactly from the sixth attempt |
| `Conduct.DelayDoubles` | crates/rshome-device-link/src/session.rs:421-440 | on every run the next delay is one second doubled for each reconnect asked for since a handshake was last through, at most 30 s |
| `Conduct.StepAttempts` | crates/rshome-device-link/src/session.rs:421-440 | each message counts the reconnects it asks for, and the end of a handshake, even a refused list, starts the count again |
| `Conduct.GivesUpOnSilence` | crates/rshome-device-link/src/session.rs:1024-1054 | on every run a ping tick gives an active connection up if and only if nothing was heard for 30 s, and else sends one ping and changes nothing; when not active it does nothing |
| `Conduct.ActivityIsLastHeard` | crates/rshome-device-link/src/session.rs:442-449 | over every run the activity time is that of the last frame received, whatever it was |
| `Conduct.EndsIff` | crates/rshome-device-link/src/session.rs:516-531 | a message ends the session for good if and only if it is Stop, or a device info that asks for a password |
| `Conduct.KnownIffAdded` | crates/rshome-device-link/src/session.rs:641-690 | over every run the device counts as registered exactly if the device manager took it at the end of some handshake, nothing is imported before, and an entity has a key exactly if it was imported |
| `Conduct.CommandRefusals` | crates/rshome-device-link/src/session.rs:902-940 | on every run the first reason that applies is given: never imported, no command for the value, not active; else and only else the command is written under the last key |
| `Conduct.AnswersPings` | crates/rshome-device-link/src/session.rs:630-639 | an active session answers a ping and writes nothing else to what it receives; only pushes change more than its activity time |
| `Conduct.LossIsTold` | crates/rshome-device-link/src/session.rs:942-948 | a lost connection tells each of the session's entities once, and Stop twice, that it is unavailable, nobody else anything, and forgets their values |
| `Conduct.ListIsTold` | crates/rshome-device-link/src/session.rs:838-857 | a refused list tells all entities of the session that they are unavailable; one that is taken tells exactly those not listed any more, and keeps what is known of the others |
| `Conduct.RefusedIff` | crates/rshome-device-link/src/session.rs:691-727 | a list is refused if and only if it is over 512 or the entity limit, or if the registry and the places in it for new entities, repeats counted, are over that limit |
| `Conduct.SharedLocalIff` | crates/rshome-device-link/src/session.rs:738-742 | two listed entities share a local id if and only if kind and object id are the same |
| `Conduct.KindsOf` | crates/rshome-native-api/src/entity_list.rs:39-43 | only buttons are commanded without being listed, and only the three sensor kinds are listed without being commanded |
| `Session.FinalizeKeepsLimit` | crates/rshome-device-link/src/session.rs:691-727 | an import never takes the registry past max_entities, and a list over min(max_entities, 512) or over the room left changes nothing |
| `Session.ImportedReturn` | crates/rshome-device-link/src/session.rs:738-760 | after an accepted list with distinct keys every listed entity is found again through its key, whatever the keys were before |
| `Session.ReturnIffDistinctKeys` | crates/rshome-device-link/src/session.rs:738-760 | for a list of different entities that holds if and only if no two share a key |
| `Session.VanishedReturnsIffKeyUnused` | crates/rshome-device-link/src/session.rs:838-857 | an entity no longer listed keeps its key, and is found through it if and only if no listed entity has it |
| `Session.ImportedRefs` | crates/rshome-device-link/src/session.rs:738-836 | the import adds exactly the listed entities to the session, and no others to the registry |
| `Session.DeviceSession.constructor` | crates/rshome-device-link/src/session.rs:271-311 | starts idle with one Connect on its way |
| `Session.DeviceSession.ImportList` | crates/rshome-device-link/src/session.rs:734-836 | the loop files keys both ways, reuses known actors and registers new ones |
| `Session.DeviceSession.FinalizeEntities` | crates/rshome-device-link/src/session.rs:641-857 | the whole import: caps first, then the list, then what disappeared is told it is unavailable |
| `Session.DeviceSession.IngestState` | crates/rshome-device-link/src/session.rs:859-880 | a push for a known key is recorded for, and sent to, that one entity; any other is ignored |
| `Session.DeviceSession.Withdraw` | crates/rshome-device-link/src/session.rs:942-948 | forgets what the firmware said of these entities and tells each that it is unavailable |
| `Session.DeviceSession.HandleHandshake` | crates/rshome-device-link/src/session.rs:468-628 | the handshake state machine with all its ways out |
| `Session.DeviceSession.HandleInbound` | crates/rshome-device-link/src/session.rs:442-466 | a frame is handled by the state the session is in and refreshes its activity time |
| `Session.DeviceSession.HandleMessage` | crates/rshome-device-link/src/session.rs:977-1067 | the whole actor is the state machine the run theorems are about |
| `Connection.ListedExactly` | crates/rshome-native-api/src/entity_list.rs:9-43 | an entry is listed if and only if it is that of a registered entity whose state has one |
| `Connection.ListedKeysDistinct` | crates/rshome-native-api/src/entity_list.rs:9-43 | distinct server keys give a list of distinct keys |
| `Connection.ScanIsSureIffKeyUnique` | crates/rshome-native-api/src/command_dispatch.rs:18-23 | the scan is sure to find an entity if and only if no other has its key |
| `Connection.CallsIff` | crates/rshome-native-api/src/connection.rs:218-238 | a frame makes a service call if and only if it is a command, the connection is served and some entity has the key; the call is for such an entity and asks for what the command says |
| `Connection.CommandIsCalled` | crates/rshome-native-api/src/command_dispatch.rs:25-35 | with distinct keys the call is for the one entity with the key, and nothing is written |
| `Connection.HangsUpIff` | crates/rshome-native-api/src/connection.rs:166-217 | over any frames the server hangs up if and only if the first is not Hello or one asks to disconnect |
| `Connection.FarewellIff` | crates/rshome-native-api/src/connection.rs:209-217 | it says goodbye exactly to whom it serves and who asks to disconnect |
| `Connection.ListedIffPushable` | crates/rshome-native-api/src/entity_list.rs:9-43 | an entity is listed, under its key, object id and kind, if and only if its state could be pushed |
| `Connection.ServerConnection.BuildEntityList` | crates/rshome-native-api/src/entity_list.rs:9-36 | the listable entities in name order, whatever order the registry yields them in |
| `Connection.ServerConnection.FindEntityId` | crates/rshome-native-api/src/command_dispatch.rs:18-23 | answers an entity with the key, or none exactly if there is none |
| `Connection.ServerConnection.Subscribe` | crates/rshome-native-api/src/connection.rs:196-215 | pushes the stored states in name order and watches every entity |
| `Connection.ServerConnection.HandleFrame` | crates/rshome-native-api/src/connection.rs:147-240 | the server state machine; a frame before Hello closes the connection |
| `Connection.ServerConnection.HandleStateUpdate` | crates/rshome-native-api/src/connection.rs:121-127 | a change is pushed exactly when subscribed and its state has a frame |
| `Link.EveryReachableStateIsLegal` | crates/rshome-native-api/src/connection.rs:147-215 | whatever session connects, every state reachable on one connection without loss is one of the listed handshake configurations, from the Hello the session writes, and the server never sees a frame before Hello |
| `Link.ConnectedIsLegal` | crates/rshome-device-link/src/session.rs:313-415 | the session's own step on a connection that is accepted writes exactly Hello, keeps what it knows, and starts a legal run |
| `Link.StepLegal` | crates/rshome-device-link/src/session.rs:468-628 | every step of either end, and every change around them, keeps those configurations |
| `Link.NeverStuck` | crates/rshome-device-link/src/session.rs:468-628 | before the server is subscribed exactly one channel holds frames |
| `Link.HandshakeTakesSevenMore` | crates/rshome-device-link/src/session.rs:468-628 | when the server is subscribed the client is Active and has imported exactly the server's list |
| `Link.HandshakeLength` | crates/rshome-device-link/src/session.rs:568-611 | on every run the delivery that subscribes the server is number n + 7 for a list of n entities |
| `Link.SubscribedIffDelivered` | crates/rshome-native-api/src/connection.rs:147-215 | on every run the server is subscribed if and only if at least n + 7 deliveries have been made |
| `Link.KeysAgree` | crates/rshome-native-api/src/fnv.rs:13-16 | with distinct server keys the server's key of a listed entity and the client's id for it name each other, whatever earlier connections left |
| `Link.PushLandsOnItsEntity` | crates/rshome-device-link/src/session.rs:859-880 | a state pushed for a listed entity reaches exactly the local entity imported from it |
| `Link.CommandReachesItsEntity` | crates/rshome-device-link/src/session.rs:902-940 | a command for that local entity is resolved by the server's key scan to the original |
| `Traffic.CommandIsCarriedOut` | crates/rshome-native-api/src/command_dispatch.rs:18-35 | on every run: once what was on its way before a command has been delivered, the next delivery calls the service for exactly the entity the sender was imported from, with what was asked, if it is still registered and keys are distinct |
| `Traffic.CallsAreCommandsInOrder` | crates/rshome-device-link/src/session.rs:902-940 | on every run of an active client on which no command is for an entity that is gone, the calls made and the commands on their way are those at the start followed by those the entities sent, each once and in order |
| `Traffic.FirstInFirstOut` | crates/rshome-native-api/src/connection.rs:60-100 | what is on its way to the server arrives in order and complete |
| `Traffic.WatchedFromSubscription` | crates/rshome-native-api/src/connection.rs:196-215 | the watched entities are exactly those registered when the subscription arrived |
| `Traffic.AddedLaterIsNeverPushed` | crates/rshome-native-api/src/connection.rs:196-215 | on every run from the subscription on, an entity that was not registered then is never pushed |
| `Traffic.PingsAreAnswered` | crates/rshome-native-api/src/connection.rs:171-174 | on every run of a connection the pings sent are those on their way, answers on their way back and answers heard |
| `Mirror.StepInv` | crates/rshome-native-api/src/connection.rs:117-127 | every step keeps: what the server pushed last under a key is the last such frame on its way, or is the client's record |
| `Mirror.DrainedClientMirrorsStore` | crates/rshome-native-api/src/connection.rs:121-127 | on every run whose changes are reported, once nothing is on its way: the client's record of a listed entity is what the server's store has if and only if the store's state has a frame, given distinct server keys and a client whose keys are hashed, or at least have no stale one that names the entity |
| `Mirror.UnavailableLeavesTheOldState` | crates/rshome-native-api/src/connection.rs:121-127 | the failing case can follow any settled state: the entity becomes unavailable, nothing is pushed, and the client keeps the old state |
| `Mirror.StepPlain` | crates/rshome-native-api/src/connection.rs:196-215 | only states that have a frame are ever on their way or on record |
| `Mirror.SoleIff` | crates/rshome-device-link/src/session.rs:743-745 | after an accepted list no other key names a listed entity if and only if every key that named it before is listed again |
| `Mirror.HashedIsSole` | crates/rshome-native-api/src/fnv.rs:13-16 | with hashed keys no other key ever names a listed entity, on a first connection or a later one |
| `Mirror.EveryConnectionKeepsHashed` | crates/rshome-device-link/src/session.rs:743-745 | every run of a connection to this server leaves each of the client's keys the hash of the object id it names, if they were before |
| `Manager.MapsStayConsistent` | crates/rshome-device-link/src/manager.rs:378-662 | over every message sequence: the identity maps fit together and with the records, sessions and resolved ids are among discovered ones, both caps hold, and every session actor ever spawned is in the map or was told to stop |
| `Manager.StepInv` | crates/rshome-device-link/src/manager.rs:378-662 | each message keeps that |
| `Manager.StatusAndCommandAgree` | crates/rshome-device-link/src/manager.rs:393-427 | a status that is not merely restored is of the device a command for the same id goes to, and an id a session answers to has one |
| `Manager.StopsOnlyRedundantIff` | crates/rshome-device-link/src/manager.rs:514-525 | a session that resolves is told to stop exactly if the identity has a record, its own included, and the map keeps it |
| `Manager.ReconnectEndsTheLink` | crates/rshome-device-link/src/manager.rs:514-525 | a session that owns its identity, after any run on which its device is not withdrawn while inactive, is told to stop when it resolves again, and from then on, on every run on which the device stays on record, there is no session for it that was not told to stop |
| `Manager.OwnerReachable` | crates/rshome-device-link/src/manager.rs:440-562 | two messages lead from a new manager to a session that owns its identity |
| `Manager.SameSessionOnRecord` | crates/rshome-device-link/src/manager.rs:440-464 | over every run, while a device stays on record it has the session it has or none: one that found no room at first never gets one |
| `Manager.OrphanedExactly` | crates/rshome-device-link/src/manager.rs:527-561 | an identity is orphaned by its session resolving to a new one and by nothing else |
| `Manager.OrphanReachable` | crates/rshome-device-link/src/manager.rs:503-562 | three messages lead from a new manager to an orphan |
| `Manager.OrphanForever` | crates/rshome-device-link/src/manager.rs:465-498 | an orphaned identity keeps its record through every run without Stop |
| `Manager.SessionGainedIff` | crates/rshome-device-link/src/manager.rs:234-282 | a session is spawned exactly for a device new on record while there is room |
| `Manager.SessionLostIff` | crates/rshome-device-link/src/manager.rs:465-498 | a session is given up exactly on Stop, on withdrawal while not active, or on eviction of a silent unresolved device; it is then told to stop |
| `Manager.ListedIff` | crates/rshome-device-link/src/manager.rs:384-392 | exactly which messages make an identity cease to be listed, a resolution of a device that is gone among them, and which make it listed |
| `History.RecordIsLastReport` | crates/rshome-device-link/src/manager.rs:503-579 | after any messages an identity is on record exactly if it was resolved and not lost since, and the record has what it was resolved with and the status and entity count of the last status message that reached it since, Handshaking and 0 if none did |
| `History.AskedIsToldLastReport` | crates/rshome-device-link/src/manager.rs:393-407 | whoever asks by the identity or by the id on the network is told exactly that last status |
| `History.UnconfirmedAnswer` | crates/rshome-device-link/src/manager.rs:407-427 | any other id is answered by its announcement, else by a restored device that has or had it, and is unknown exactly if nobody has it |
| `History.ReportStands` | crates/rshome-device-link/src/manager.rs:563-579 | a status message that reaches an identity is what everyone is answered until another reaches it or it is lost |
| `History.WithdrawnStaysIffActive` | crates/rshome-device-link/src/manager.rs:465-499 | a withdrawn device keeps identity, record and session if and only if the last status message for it said Active |
| `History.SightingStep` | crates/rshome-device-link/src/manager.rs:440-464 | exactly which messages add, refresh, mark and remove a discovered record, and what it then says |
| `History.StaleIff` | crates/rshome-device-link/src/manager.rs:580-588 | on every run a record that stays and is not announced again is stale if and only if it was before, was withdrawn, or was found silent for 90 s |
| `History.SpawnsAsConfigured` | crates/rshome-device-link/src/manager.rs:234-282 | after any messages the next spawns a session if and only if it announces a new device and both limits leave room; it is one more actor, with the security configured last, clear text if none was |
| `History.RestoredIsLastSeed` | crates/rshome-device-link/src/manager.rs:428-430 | after any messages the restored device of an identity is the last one seeded that no session resolved to since |
| `Manager.LinkManager.SpawnSession` | crates/rshome-device-link/src/manager.rs:234-282 | at most one session per device, none when a limit is zero or reached |
| `Manager.LinkManager.DeviceDiscovered` | crates/rshome-device-link/src/manager.rs:440-464 | a new device is recorded up to the cap; a known one only has its time and stale mark refreshed |
| `Manager.LinkManager.DeviceRemoved` | crates/rshome-device-link/src/manager.rs:465-499 | an active device is marked stale, any other is forgotten in every map and its session stopped |
| `Manager.LinkManager.SessionIdentityResolved` | crates/rshome-device-link/src/manager.rs:503-562 | the four outcomes of a resolution and what each changes |
| `Manager.LinkManager.SessionStatusChanged` | crates/rshome-device-link/src/manager.rs:563-579 | only the record the id resolves to takes the status |
| `Manager.LinkManager.CheckStale` | crates/rshome-device-link/src/manager.rs:580-608 | marks after 90 s, then evicts unresolved records after 600 s with their sessions, in any map order |
| `Manager.LinkManager.Shutdown` | crates/rshome-device-link/src/manager.rs:651-660 | every session is told to stop and all but the discovered records are cleared |
| `Manager.LinkManager.Handle` | crates/rshome-device-link/src/manager.rs:378-662 | the whole actor is the state machine the run theorems are about, and keeps its invariant |
| `Manager.LinkManager.ListConnected` | crates/rshome-device-link/src/manager.rs:384-392 | every identity with a record once, confirmed before restored |
| `Manager.LinkManager.GetStatus` | crates/rshome-device-link/src/manager.rs:393-427 | the order in which the maps are asked |
| `Manager.LinkManager.DispatchCommand` | crates/rshome-device-link/src/manager.rs:609-650 | sends to the session the id routes to if there is one and its mailbox is open, answers what it answers, and else that no session is active |
| `Supervisor.RestartLog.CheckRestartLimit` | crates/rshome-actor/src/supervisor.rs:30-44 | prunes and records in place as the verdict function says, which keeps a restart exactly while its window lasts (`KeptIff`) |
| `Supervisor.LogIsEnough` | crates/rshome-actor/src/supervisor.rs:30-44 | the pruned log decides as the full history of grants would |
| `Supervisor.WindowsAreBounded` | crates/rshome-actor/src/supervisor.rs:30-44 | every window of the given length holds at most max_restarts grants, for any non-decreasing panic times |
| `Supervisor.RefusedIffWindowFull` | crates/rshome-actor/src/supervisor.rs:30-44 | a restart is refused if and only if as many grants as allowed lie between the start of the window that ends now, a fixed time, and now |
| `Supervisor.KeptIff` | crates/rshome-actor/src/supervisor.rs:35-37 | a restart is in the pruned log if and only if it was in the log and the window that began with it is not over |
| `Supervisor.RestartedIff` | crates/rshome-actor/src/system.rs:423-531 | the monitor restarts an actor, under the next id and on the same mailbox, if and only if it panicked and its strategy has a restart left in the window that ends now; else it is done |
| `Supervisor.SiblingsToldIff` | crates/rshome-actor/src/system.rs:460-471 | a panic under AllForOne tells every sibling to stop, and nothing else ever does anything to one |
| `Supervisor.OnlyPanicsRestart` | crates/rshome-actor/src/system.rs:423-440 | an actor that ends without a panic never runs again on any run |
| `Supervisor.StepInv` | crates/rshome-actor/src/system.rs:410-532 | every step of actor, monitor and siblings keeps the supervision invariant |
| `Supervisor.SupervisedRun` | crates/rshome-actor/src/system.rs:213-252 | over any number of restarts: messages taken plus mailbox are the messages sent, in order; what is lost is a subsequence of what was taken, one message for each panic or abort that came with one in hand; restarts are the granted ones, within the limit, which `RestartN` narrows to 32 bits; after the monitor returns no id of the actor is left in task map or child list |
| `Supervisor.Monitor.constructor` | crates/rshome-actor/src/system.rs:350-407 | a spawned actor is registered and has its handle in the list |
| `Supervisor.Monitor.RemoveHandle` | crates/rshome-actor/src/system.rs:342-344 | retains every child but the one |
| `Supervisor.Monitor.Restart` | crates/rshome-actor/src/system.rs:480-515 | the new incarnation has a new id, the same mailbox, and the old handle with its log |
| `Supervisor.Monitor.OnTaskEnd` | crates/rshome-actor/src/system.rs:423-531 | one turn of the monitor, for every strategy and way of ending |
| `Supervisor.Monitor.TakeOne` | crates/rshome-actor/src/system.rs:223-240 | an incarnation takes the front message and goes on, stops, panics or is aborted |
| `Supervisor.Monitor.Post` | crates/rshome-actor/src/system.rs:362-365 | a message sent to the actor goes to the end of the one mailbox all incarnations share |
| `Echo.EchoedIff` | crates/rshome-device-link/src/session.rs:58-77 | after any run, a push that is handled comes back if and only if the last push or withdrawal waiting then differs from it, or its value is not equal to itself |
| `Echo.OvertakenIsEchoed` | crates/rshome-device-link/src/session.rs:871-879 | a run on which that happens: two pushes before the first is handled; it comes back exactly if it can be relayed and the second does not say the same |
| `Echo.IncomparableIsEchoed` | crates/rshome-device-link/src/session.rs:66-76 | after any run, a pushed value that is not equal to itself comes back when it is handled |
| `Echo.OnlyLocalChangesAreRelayed` | crates/rshome-device-link/src/session.rs:859-880 | on every run on which pushes are delivered in order with what follows, no push is relayed and what is relayed is a local change that differs from what the firmware last said |
| `Echo.MapIsLastSaid` | crates/rshome-device-link/src/session.rs:942-948 | over every run the map holds the last push since the last withdrawal |
| `Echo.FirmwareFollowsIff` | crates/rshome-device-link/src/session.rs:66-76 | after local changes the firmware was last told what the entity shows if and only if that is not its own last word, or nothing else was shown |
| `Echo.RelayedIff` | crates/rshome-device-link/src/session.rs:58-77 | after any run a message is relayed if and only if a value comes of it that is not what the firmware last said, and with that value |
| `Echo.HandledInOrder` | crates/rshome-entity/src/entity_actor.rs:56-67 | on every run an entity handles exactly what it was sent, in order, and the store has the last value that came of it |
| `Echo.RemoteStateUpdater.Update` | crates/rshome-device-link/src/session.rs:58-77 | stores always; relays exactly an available state that is not the firmware's last |
| `Echo.EntityActor.SetState` | crates/rshome-entity/src/entity_actor.rs:56-67 | replaces the state, updates the store and reports old and new |
| `Snapshots.RoundTripIffNoClash` | crates/rshome-mcp/src/runtime.rs:156-284 | save, restore into an empty runtime, save again: the same snapshot with links offline, if and only if no entity without a registered descriptor is listed by two devices |
| `Snapshots.RunsRoundTrip` | crates/rshome-mcp/src/runtime.rs:364-403 | every runtime built by the device, registry and link operations round-trips, as long as no shared entity was removed |
| `Snapshots.ClashReachable` | crates/rshome-entity/src/device_actor.rs:57-72 | a run of operations after which the runtime does not round-trip: three devices share an entity and one removes it |
| `Snapshots.RestoredIsReplica` | crates/rshome-mcp/src/runtime.rs:364-403 | the restored runtime has the same devices, listed entities, states and links, and every descriptor is one it was saved with |
| `Contents.CopyHasStatesAndLinks` | crates/rshome-mcp/src/runtime.rs:156-403 | after save and restore the store and the actor of every entity have what was stored of it, and else what its actor said; and every device has the link that was listed for it, offline |
| `Contents.LastEntryIsRestored` | crates/rshome-mcp/src/runtime.rs:364-403 | restoring any snapshot: an entity is there exactly if it is listed, and store, actor and descriptor are those of its last entry |
| `Contents.DevicesAreRestored` | crates/rshome-mcp/src/runtime.rs:364-403 | restoring any snapshot: the devices are those listed, with the last descriptor and all entities listed, and the last link of each is restored offline if there is a link manager |
| `Snapshots.SnapshotHoldsExactly` | crates/rshome-mcp/src/runtime.rs:226-284 | an entity is in the snapshot if and only if its state is known, under a device or as an orphan, never both |
| `Contents.OneEntryPerDevice` | crates/rshome-mcp/src/runtime.rs:156-186 | a snapshot has one entry for each device, in the order of their ids |
| `Contents.DeviceEntrySays` | crates/rshome-mcp/src/runtime.rs:188-224 | the entry of a device has its descriptor, one entry, in id order, for each entity with a known state, which is the stored one and else what the actor says, and the link listed for it, confirmed before restored |
| `Contents.OrphanEntriesSay` | crates/rshome-mcp/src/runtime.rs:226-248 | the orphans are exactly the other entities with a known state, saved the same way |
| `Contents.FailsRatherThanLoses` | crates/rshome-mcp/src/runtime.rs:250-284 | a save fails if and only if some registered entity would be missing from the snapshot |
| `Snapshots.RestoreKeepsLimits` | crates/rshome-mcp/src/runtime.rs:303-362 | restoring any accepted snapshot keeps the limits on devices and entities; a device gets exactly the ids listed under it over the whole snapshot, and keeps its own limit if it is listed once or if all entities have to fit in it |
| `Snapshots.LimitPerDeviceIff` | crates/rshome-mcp/src/runtime.rs:346-359 | some accepted snapshot takes a device over its limit if and only if two devices and more than 512 entities are allowed |
| `Snapshots.CrowdedOverfills` | crates/rshome-mcp/src/runtime.rs:364-403 | such a snapshot: one device listed twice, with 512 entities and one more |
| `Snapshots.CoversIffUnshared` | crates/rshome-entity/src/device_actor.rs:67-72 | the registry keeps knowing every listed entity if and only if what is removed is listed by no other device |
| `Snapshots.StepWellFormed` | crates/rshome-entity/src/registry.rs:16-41 | every operation keeps the two registry maps on the same ids and all maps keyed by what they hold |
| `Contents.KnownAfter` | crates/rshome-entity/src/device_actor.rs:42-72 | what a save would record of an entity after each operation: what it was given, Unavailable if its actor was stopped, else as before |
| `Contents.StaysConsistentIff` | crates/rshome-entity/src/device_actor.rs:57-66 | the store goes on saying what the actors say unless an actor is attached to an entity of which something else is stored |
| `Contents.LinkAfter` | crates/rshome-device-link/src/manager.rs:384-392 | what a save would record as the link of a device after each change of the manager's records |
| `Snapshots.RemovedComesBack` | crates/rshome-mcp/src/runtime.rs:226-248 | a removed entity is registered again after save and restore exactly if its state was known |
| `Snapshots.HaRuntime.AddDeviceMsg` | crates/rshome-entity/src/device_manager.rs:33-55 | a known device keeps its entities and takes the new descriptor |
| `Snapshots.HaRuntime.AddEntityMsg` | crates/rshome-entity/src/device_actor.rs:42-56 | store, descriptor, registry and device list all gain the entity |
| `Snapshots.HaRuntime.AttachEntityMsg` | crates/rshome-entity/src/device_actor.rs:57-66 | registers an existing actor and leaves the store alone |
| `Snapshots.HaRuntime.RemoveEntityMsg` | crates/rshome-entity/src/device_actor.rs:67-72 | only an entity of the device is removed, from the device and the registry |
| `Snapshots.HaRuntime.SnapshotDeviceEntities` | crates/rshome-mcp/src/runtime.rs:188-224 | the entries of a device sorted by id, those without a known state left out; a device that is gone has none |
| `Snapshots.HaRuntime.SnapshotOrphanEntities` | crates/rshome-mcp/src/runtime.rs:226-248 | the entries known to registry or store and not seen under a device |
| `Snapshots.HaRuntime.BuildSnapshot` | crates/rshome-mcp/src/runtime.rs:156-186 | fails exactly if an actor that has to be asked is gone, and else saves everything |
| `Snapshots.HaRuntime.RestoreOrphanEntity` | crates/rshome-mcp/src/runtime.rs:455-467 | store, registry and descriptor gain the entity |
| `Snapshots.HaRuntime.RestoreStructured` | crates/rshome-mcp/src/runtime.rs:364-403 | restores every entry in order and counts exactly the entries listed |
| `Snapshots.HaRuntime.ValidateSnapshot` | crates/rshome-mcp/src/runtime.rs:303-362 | accepts exactly the supported versions within the three limits, and names the first that fails |

## Left out

- Sockets, mDNS browsing, timers and tokio tasks: their effects are events that may happen at any step; a clock is a non-decreasing number, in whole units.
- Noise encryption and PSK decoding: the frame channel is ideal; a failed Noise handshake is a failed connection attempt.
- Protobuf payloads, float conversion and the values of states: frames keep the message kind, key, object id and an abstract state.
- The end-of-stream handling of the framing library: a stream ends with the reader.
- `spawn_watcher`: the entities registered at the subscription have a watcher, and any update of one of them may be reported at any time; that quick changes may be merged into one is not modelled.
- What a session tells the manager (identity and status messages) is not part of the session model; the manager model takes such messages from any session in any order.
- Mirror.DrainedClientMirrorsStore: a client that has keys of another kind of firmware may hold a stale one that now belongs to another entity, under which its record is overwritten; for such a client it is required that no other key names the entity (`Mirror.SoleIff` says when). Changes of the store that no watcher reports are excluded from the subscription on, and whatever the client has on record when it connects must be a state that has a frame.
- Changes other sessions make to the shared registry while one session shakes hands; an import is one step.
- Domains that the domain registry does not resolve: every listable wire type is taken as registered. The domain registry is not part of this model.
- A password-protected device: stopping the session and its post-stop work are one step of `Session.DeviceSession.HandleHandshake`.
- What a handler did before a panic or an abort interrupted it: only the message in hand is followed.
- The restart monitor as a task: spawning an actor, its monitor and its handle is one step, and so is each turn of the monitor.
- The type-erased supervisor path (`supervisor_monitor`), which never restarts anything: it removes the child whatever the limiter says.
- petgraph's topological sort: any topological order, or none when there is a cycle, may be its answer. Auto-loading of components is an input.
- Dag.CriticalPath: which of several longest paths is chosen depends on map order and is left open, as in the original; the path is collected from the front instead of pushed and reversed.
- Sorting (`sort`, `sort_by`) is a function proved to give the sorted permutation; the library's algorithm is not modelled.
- Lower-casing and the alphanumeric test of a slug are arbitrary functions; results about slugs hold for any.
- Manager.LinkManager.DispatchCommand: the reply travels in a task of its own in the original and is one step here; which actors still take messages is an input. ListDiscovered and GetResourceUsage only read.
- Manager: names, addresses and versions of a device are one opaque field; security settings are kept per id but the Noise key is opaque.
- Echo: what becomes of a relayed change (whether its domain has a command, whether the session is active) is `Session.CommandFor`; the broadcast of changes is a list.
- Snapshots.HaRuntime: device actors and their manager are fields of one object, taken as always answering; an entity actor that is stopped puts Unavailable in the store at once, and a registered id stands for its actor, so two actors that were registered under one id are not told apart.
- The JSON text of snapshots, atomic writing and the legacy snapshot format.
- YAML import and export, board rendering, MCP tools, GraphQL, WASM bindings and generated build files.
