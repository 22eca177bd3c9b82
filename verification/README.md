# Models and proofs for parts of a ROS 2 workspace

Dafny models of the components of this workspace that carry state, loops or arithmetic, with proofs
of what they are meant to guarantee. `dafny verify dfyconfig.toml` checks all of it.

- **Interactive markers** (`Markers`, `MarkerServer`, `MarkerClient`, `Replication`). Server and
  client are classes in the form of the C++ code; their calls, and requests, replies and updates in
  flight, are the steps of one system. The main result is that a running client shows the markers of
  the server, even though updates that its snapshot already contains may be applied again on top.
- **rcutils hash map** (`ArrayList`, `HashTable`, `HashMap`, `PowerOfTwo`). The chained table over
  growing lists refines a finite map for every hash function that is consistent with equality of keys
  and every pattern of refused allocations. Capacities are powers of two, so mask and modulo agree.
- **rcutils SHA-256** (`Sha256Spec`, `Sha256`, `Sha256Example`). The streaming code computes the
  function of FIPS 180-4, however a message is cut. One of the published digests is worked through.
- **Package order** (`PackageOrder`). The shell helper's topological sort yields the alphabetically
  least valid order, or reports exactly the packages that lie between cycles.
- **class_loader** (`ClassLoader`, `Ownership`). Counts, owner lists, factory maps, graveyard and open
  list stay consistent over all interleavings of loads and unloads, exactly until one of them throws;
  what holds after that is stated too.
- **rcutils logging** (`Find`, `LoggerLevels`, `CharArray`, `LogFormat`). Logger levels inherit along
  the dots of a name; a compiled format means the same as expanding it directly.
- **Menus** (`Menu`). Flattening the visible menu can be undone.
- **Transforms of messages** (`MessageContext`). However many rounds it takes, no pose is transformed
  twice, and a message is ready exactly when everything has been available.
- **String replacement** (`ReplStr`). Two passes with a growing cache compute the leftmost
  replacement, and the length computed with wrap-around is the right one.

Results worth knowing beside the proofs:

- A client may show markers older than its snapshot until the replayed updates reach the snapshot's
  number. `Replication.ClientMayGoBack` reaches such a state; `Replication.CatchingUp` says what is
  shown meanwhile.
- Setting a logger level removes the old entry first. The level is lost exactly when there was one and
  the name cannot be copied or a request of the insertion is refused
  (`LoggerLevels.Loggers.SetLevel`, `LoggerLevels.ForgottenLevel`).
- A class loader counts a load before it opens the library, and releases factories before it closes
  one. Ownership stays consistent if and only if neither throws (`Ownership.KeptUnlessThrown`). One
  unload mends a failed load (`Ownership.UnloadMends`); nothing mends a failed close
  (`Ownership.FailedCloseIsForGood`).
- The client takes a reply whenever its request was sent. One from before a reset can leave it without
  updates until the next reset (`Replication.LateReplyMissesUpdates`); one that is not older than the
  reset cannot (`Replication.ReplicasConverge`).
- The capacity of a hash map asked to hold more than 2^63 entries, when that is not a power of two,
  wraps around to 1 (`PowerOfTwo.NextPowerOfTwo`); without refused requests it grows from there.
- The length of a replaced string is computed modulo 2^64, so a result that does not fit gets a buffer
  that is too short (`ReplStr.LengthIsExact`, `ReplStr.LengthWrapsToZero`).

## Model

| member | source | states |
|---|---|---|
| `Replication.Convergence` | ros-visualization/interactive_markers/src/interactive_marker_client.cpp:251-377 | in every system state the invariant allows: a RUNNING client whose snapshot is not older than its last reset, whose discards did no harm, and which has handed out updates up to t, at or past its snapshot number, shows exactly the first t published updates applied to nothing |
| `Replication.ReplicasConverge` | ros-visualization/interactive_markers/src/interactive_marker_server.cpp:105-185 | over every interleaving of server calls, requests, replies, late ones too, and deliveries: under the same two conditions, which the client's trace decides, what it shows equals the markers the server had when it had published that many updates, even if updates contained in the snapshot were applied again on top of it |
| `Replication.CaughtUpMeansEqual` | ros-visualization/interactive_markers/src/interactive_marker_client.cpp:365-377 | under these conditions, a client that has received and handed out everything published shows the server's current markers |
| `Replication.CatchingUp` | ros-visualization/interactive_markers/src/interactive_marker_client.cpp:328-377 | before the updates of the snapshot are all applied again: what is shown is the snapshot with the updates from the first delivered one on, and per name the older state, the state of the snapshot, or that state moved |
| `Replication.ClientMayGoBack` | ros-visualization/interactive_markers/src/interactive_marker_client.cpp:328-377 | a reachable state, built step by step from the start, in which a running client shows a marker older than the one in its snapshot |
| `Replication.NoDiscardNoHarm` | ros-visualization/interactive_markers/src/interactive_marker_client.cpp:279-285 | without a discard since the last reset there is no harm; a discard of an update the snapshot contains, before the first delivery, does none either |
| `Replication.InTimeMeansCurrent` | ros-visualization/interactive_markers/src/interactive_marker_client.cpp:239-249 | in every run that takes no reply to a request from before a reset, the snapshot is not older than the last reset |
| `Replication.LateReplyMissesUpdates` | ros-visualization/interactive_markers/src/interactive_marker_client.cpp:171-184 | a reachable state, built step by step, in which such a reply has been taken: the client runs, has handed out everything it received, and shows nothing of the server's marker |
| `Replication.RunKeepsInv` | ros-visualization/interactive_markers/src/interactive_marker_server.cpp:375-391 | every reachable state: replies in flight show the server at some point since the request, and the client's queue is the tail of the published log |
| `Replication.StepKeepsInv` | ros-visualization/interactive_markers/src/interactive_marker_client.cpp:120-169 | each step of server, channel or client keeps that invariant |
| `Replication.LogOnlyGrows` | ros-visualization/interactive_markers/src/interactive_marker_server.cpp:105-185 | what has been published is never changed afterwards |
| `Replication.NextIsAccepted` | ros-visualization/interactive_markers/src/interactive_marker_client.cpp:251-290 | on a lossless in-order topic no update is ever taken for out of sync |
| `Replication.TailPruned` | ros-visualization/interactive_markers/src/interactive_marker_client.cpp:328-363 | finishing initialization prunes exactly the queued updates the snapshot contains; the rest is still the tail of the log |
| `Replication.ServerSideStep` | ros-visualization/interactive_markers/src/interactive_marker_server.cpp:105-185 | the published log applied to nothing always equals the markers of the server |
| `Markers.ReplayIsIdempotent` | ros-visualization/interactive_markers/src/interactive_marker_client.cpp:365-377 | applying any run of updates a second time on top of itself changes nothing (markers replace, poses move existing markers, erases delete) |
| `Markers.LateUpdatesConverge` | ros-visualization/interactive_markers/src/interactive_marker_client.cpp:251-290 | starting from the state after s updates and applying updates lo..t with lo <= s <= t gives the state after t |
| `Markers.ReplayOfName` | ros-visualization/interactive_markers/src/interactive_marker_client.cpp:365-377 | one name after the same updates on two replicas: equal in both if an update puts or erases it, as before if none touches it, only moved otherwise |
| `Markers.ApplyAllAt` | ros-visualization/interactive_markers/src/interactive_marker_client.cpp:365-377 | the effect of a run of updates on one name, as a composition of replace, move and delete, is what applying the run does to it |
| `MarkerServer.PublishedUpdateReproducesServer` | ros-visualization/interactive_markers/src/interactive_marker_server.cpp:105-185 | a replica equal to the old markers that applies the published message equals the new markers |
| `MarkerServer.ReplyShowsServer` | ros-visualization/interactive_markers/src/interactive_marker_server.cpp:375-391 | a replica that starts from a reply equals the server's markers |
| `MarkerServer.ReachableIsValid` | ros-visualization/interactive_markers/src/interactive_marker_server.cpp:148-167 | in every reachable state each pending pose update names an existing marker, so the "this is a bug" branch is never taken |
| `MarkerServer.NextKeepsValid` | ros-visualization/interactive_markers/src/interactive_marker_server.cpp:187-256 | every operation keeps this |
| `MarkerServer.FeedbackFromDifferentClientsIsSpaced` | ros-visualization/interactive_markers/src/interactive_marker_server.cpp:393-418 | successive accepted feedback from different clients for one marker context is at least a second apart, whatever lies between |
| `MarkerServer.AcceptedIffSpaced` | ros-visualization/interactive_markers/src/interactive_marker_server.cpp:393-418 | feedback after an accepted one is accepted if and only if it is from the same client or at least 1000000000 ns later |
| `MarkerServer.LastFeedbackIsRemembered` | ros-visualization/interactive_markers/src/interactive_marker_server.cpp:393-418 | until the next accepted feedback a context remembers the client and the time of the last one |
| `MarkerServer.Server.ApplyChanges` | ros-visualization/interactive_markers/src/interactive_marker_server.cpp:105-185 | state and published message are those of the specification; nothing is published exactly when nothing is pending |
| `MarkerServer.Server.ApplyPending` | ros-visualization/interactive_markers/src/interactive_marker_server.cpp:121-179 | the loop over the pending updates applies and lists each exactly once, in any order |
| `MarkerServer.Server.ApplyOne` | ros-visualization/interactive_markers/src/interactive_marker_server.cpp:126-178 | one turn of that loop, for the three kinds of updates |
| `MarkerServer.Server.InsertMarker` | ros-visualization/interactive_markers/src/interactive_marker_server.cpp:309-321 | the next applyChanges leaves exactly this marker under its name and changes no other name |
| `MarkerServer.Server.EraseMarker` | ros-visualization/interactive_markers/src/interactive_marker_server.cpp:187-199 | the next applyChanges leaves no marker under the name and changes no other name; found exactly when it exists or is pending |
| `MarkerServer.Server.ClearMarkers` | ros-visualization/interactive_markers/src/interactive_marker_server.cpp:201-211 | the next applyChanges leaves no marker at all |
| `MarkerServer.Server.DoSetMarkerPose` | ros-visualization/interactive_markers/src/interactive_marker_server.cpp:459-477 | the next applyChanges leaves the marker with this pose and header and the body it would have had, and every other name as it would have been; a pending full update stays one, anything else, an erasure too, becomes a pose update |
| `MarkerServer.DoSetPoseShows` | ros-visualization/interactive_markers/src/interactive_marker_server.cpp:459-477 | the same of the state: pose and header are set, the body and all other names are kept |
| `MarkerServer.Server.SetMarkerPose` | ros-visualization/interactive_markers/src/interactive_marker_server.cpp:223-256 | succeeds exactly when the marker exists or a full update for it is pending; after the next applyChanges the marker then has this pose, this header or, for an empty frame, the header kept, and the body it would have had, and every other name is as it would have been |
| `MarkerServer.Server.Get` | ros-visualization/interactive_markers/src/interactive_marker_server.cpp:333-373 | an exact preview of applyChanges: found exactly if the marker will exist afterwards, and as it will be, apart from the header while a pose update is pending |
| `MarkerServer.Server.GetInteractiveMarkers` | ros-visualization/interactive_markers/src/interactive_marker_server.cpp:375-391 | all markers and the current number |
| `MarkerServer.Server.ProcessMarkerFeedback` | ros-visualization/interactive_markers/src/interactive_marker_server.cpp:393-449 | accepted exactly if no other client was accepted less than a second ago, and then remembered; an accepted pose is the one the marker has after the next applyChanges, and nothing else changes what applyChanges will leave |
| `MarkerClient.EveryRunIsValid` | ros-visualization/interactive_markers/src/interactive_marker_client.cpp:251-290 | in every run the queue is a contiguous run of numbers ending at the last accepted one, of at most 101 entries, and the trace of callbacks is orderly |
| `MarkerClient.NextKeepsValid` | ros-visualization/interactive_markers/src/interactive_marker_client.cpp:120-169 | every call keeps this, whatever messages arrive |
| `MarkerClient.TurnDecides` | ros-visualization/interactive_markers/src/interactive_marker_client.cpp:120-169 | what a turn does in each mode, on the fields and the trace of callbacks |
| `MarkerClient.ReceiveDecides` | ros-visualization/interactive_markers/src/interactive_marker_client.cpp:251-290 | which updates are queued, which entry a full queue drops, and which updates reset the client |
| `MarkerClient.PushDelivers` | ros-visualization/interactive_markers/src/interactive_marker_client.cpp:365-377 | exactly the longest front of the queue whose updates are ready is delivered, in order |
| `MarkerClient.LaterDeliveriesAreLarger` | ros-visualization/interactive_markers/src/interactive_marker_client.cpp:365-377 | between two resets the delivered numbers strictly increase |
| `MarkerClient.SuccessiveDeliveriesAreConsecutive` | ros-visualization/interactive_markers/src/interactive_marker_client.cpp:279-287 | successive deliveries are consecutive unless the queue overflowed between them |
| `MarkerClient.DeliveryFollowsInitialize` | ros-visualization/interactive_markers/src/interactive_marker_client.cpp:328-363 | nothing is delivered before the initialize callback of its period |
| `MarkerClient.PruneIsSuffix` | ros-visualization/interactive_markers/src/interactive_marker_client.cpp:348-354 | pruning removes exactly the updates with numbers up to the snapshot's |
| `MarkerClient.Client.ResetClient` | ros-visualization/interactive_markers/src/interactive_marker_client.cpp:206-216 | state, queue and snapshot are gone, and the reset callback is called |
| `MarkerClient.Client.ChangeState` | ros-visualization/interactive_markers/src/interactive_marker_client.cpp:379-404 | entering IDLE resets, entering INITIALIZE requests the markers |
| `MarkerClient.Client.SendRequest` | ros-visualization/interactive_markers/src/interactive_marker_client.cpp:218-237 | a request is sent exactly if the service is ready |
| `MarkerClient.Client.ConnectTo` | ros-visualization/interactive_markers/src/interactive_marker_client.cpp:59-103 | connected exactly with a name and created services; always IDLE and empty, with the reset callback last |
| `MarkerClient.Client.DisconnectClient` | ros-visualization/interactive_markers/src/interactive_marker_client.cpp:105-111 | not connected, and reset as by any drop to IDLE |
| `MarkerClient.Client.ProcessInitialMessage` | ros-visualization/interactive_markers/src/interactive_marker_client.cpp:239-249 | the snapshot is kept for the next update call |
| `MarkerClient.Client.ProcessUpdate` | ros-visualization/interactive_markers/src/interactive_marker_client.cpp:251-290 | an update is queued if it is the first or the next one, dropping the oldest of 101 entries; any other leaves the client IDLE |
| `MarkerClient.Client.CheckInitializeFinished` | ros-visualization/interactive_markers/src/interactive_marker_client.cpp:328-363 | prune, deliver the snapshot, and report readiness; or ask again after the time limit |
| `MarkerClient.Client.PushUpdates` | ros-visualization/interactive_markers/src/interactive_marker_client.cpp:365-377 | delivers the queued updates in order up to the first that is not ready |
| `MarkerClient.Client.UpdateClient` | ros-visualization/interactive_markers/src/interactive_marker_client.cpp:120-169 | for each mode, when it is left and for which mode: a RUNNING client stays so exactly if the server is ready and no transform fails while updates wait, and then delivers the longest ready front of its queue; INITIALIZE becomes RUNNING exactly if the server is ready and the snapshot is there with all its transforms, and waits, asks again or is reset otherwise |
| `MarkerClient.Client.SetTargetFrame` | ros-visualization/interactive_markers/src/interactive_marker_client.cpp:171-184 | a new frame resets every client that is not IDLE, and nothing else changes |
| `HashMap.HashMap.Set` | ros2/rcutils/src/hash_map.c:385-444 | refines the finite map for every consistent hash and every allocator: it succeeds exactly if the key is there or all requests of the insertion are granted; a new key is added, an existing one only gets a new value, a failure changes nothing; without a refusal the load factor is kept |
| `HashMap.HashMap.Unset` | ros2/rcutils/src/hash_map.c:446-476 | removes the key from the finite map, and from the iteration order without disturbing the rest |
| `HashMap.HashMap.Get` | ros2/rcutils/src/hash_map.c:504-528 | the value of the finite map, or NOT_FOUND |
| `HashMap.HashMap.KeyExists` | ros2/rcutils/src/hash_map.c:478-502 | exactly the keys of the finite map |
| `HashMap.HashMap.GetNextKeyAndData` | ros2/rcutils/src/hash_map.c:530-590 | the entry behind the previous key in the iteration order, NO_MORE_ENTRIES at its end, NOT_FOUND for an unknown key |
| `HashMap.HashMap.GetNextAfter` | ros2/rcutils/src/hash_map.c:555-587 | where iteration goes on behind a key |
| `HashMap.HashMap.SearchFrom` | ros2/rcutils/src/hash_map.c:564-589 | the first entry at or behind a place, across empty buckets |
| `HashMap.HashMap.EntriesListModel` | ros2/rcutils/src/hash_map.c:530-590 | the iteration order lists every key of the map exactly once, with its value |
| `HashMap.Run` | ros2/rcutils/src/hash_map.c:246-476 | any sequence of sets and unsets on a new map of any initial capacity, with any answers of the allocator, does what it does to a finite map; if no request is refused every call succeeds and 4 * size <= 3 * capacity |
| `HashMap.RunOn` | ros2/rcutils/src/hash_map.c:385-476 | the same from any map |
| `HashMap.HashMap.CheckAndGrow` | ros2/rcutils/src/hash_map.c:177-231 | fails exactly if a request is refused; the finite map stays as it is either way, and the capacity doubles exactly when the load factor is passed and no request is refused |
| `HashMap.HashMap.Rehash` | ros2/rcutils/src/hash_map.c:188-220 | the nested loops build a table for the same finite map, exactly if no request is refused |
| `HashMap.HashMap.MoveBucket` | ros2/rcutils/src/hash_map.c:193-213 | the inner loop, entry by entry, ended only by a refused request |
| `HashMap.HashMap.InsertEntry` | ros2/rcutils/src/hash_map.c:154-174 | an entry is appended to its bucket, which is created first if need be, exactly if the requests for that are granted; nothing changes otherwise |
| `HashMap.HashMap.Initialize` | ros2/rcutils/src/hash_map.c:246-302 | an empty map whose capacity is the least power of two at or above the requested one, exactly if no request is refused |
| `HashMap.HashMap.FindKey` | ros2/rcutils/src/hash_map.c:339-383 | found exactly if the key is in the finite map, and where |
| `HashMap.HashMap.FindInBucket` | ros2/rcutils/src/hash_map.c:360-382 | comparing hashes first misses no key |
| `HashMap.HashMap.ReplaceValue` | ros2/rcutils/src/hash_map.c:399-401 | only the value of the entry changes |
| `HashMap.HashMap.AddEntry` | ros2/rcutils/src/hash_map.c:403-436 | a copied entry is added exactly if all its requests are granted; nothing changes otherwise |
| `HashMap.HashMap.LinkEntry` | ros2/rcutils/src/hash_map.c:425-435 | the same, once the copies are made |
| `HashMap.HashMap.RemoveAt` | ros2/rcutils/src/hash_map.c:468-473 | the entry at a place disappears, later ones move up |
| `HashMap.MaskIndex` | ros2/rcutils/src/hash_map.c:350-358 | the mask index of a lookup equals the modulo index of a rehash, for every capacity that is a power of two |
| `HashMap.RoundedIsPower` | ros2/rcutils/src/hash_map.c:271-275 | the test and the rounding together give the least power of two at or above the request up to 2^63, and 1 beyond |
| `HashTable.Keying.Insert` | ros2/rcutils/src/hash_map.c:154-174 | a table with one more entry looks up like the extended map |
| `HashTable.Keying.Remove` | ros2/rcutils/src/hash_map.c:468-473 | a table with an entry removed looks up like the map without it |
| `HashTable.Keying.MoveOne` | ros2/rcutils/src/hash_map.c:206-212 | moving one entry keeps the old and the new table in step |
| `HashTable.Keying.AllMoved` | ros2/rcutils/src/hash_map.c:188-220 | a rehashed table stands for the same map |
| `HashTable.Keying.EntriesAreLookups` | ros2/rcutils/src/hash_map.c:530-590 | the buckets in order hold each content once and exactly what lookups find |
| `HashTable.Keying.FlattenRemoved` | ros2/rcutils/src/hash_map.c:468-473 | removing an entry removes it from the iteration order and nothing else |
| `PowerOfTwo.MaskIsModulo` | ros2/rcutils/src/hash_map.c:350-358 | and-ing with 2^k - 1 is the remainder modulo 2^k |
| `PowerOfTwo.PowerOfTwoTest` | ros2/rcutils/src/hash_map.c:271-275 | c & (c - 1) is zero exactly for powers of two |
| `PowerOfTwo.NextPowerOfTwo` | ros2/rcutils/src/hash_map.c:234-244 | on 64-bit words with wrap-around: the least power of two at or above v for 1 <= v <= 2^63, and 1 otherwise |
| `PowerOfTwo.Smear` | ros2/rcutils/src/hash_map.c:237-241 | the shift loop fills all bits below the highest one |
| `ArrayList.ArrayList.Initialize` | ros2/rcutils/src/array_list.c:51-90 | an empty list, or no change |
| `ArrayList.ArrayList.AddItem` | ros2/rcutils/src/array_list.c:104-149 | appends; a full list doubles first, and is unchanged when that fails |
| `ArrayList.ArrayList.SetItem` | ros2/rcutils/src/array_list.c:151-162 | replaces one item, or reports an index out of range |
| `ArrayList.ArrayList.RemoveItem` | ros2/rcutils/src/array_list.c:164-184 | removes one item and shifts the later ones down |
| `ArrayList.ArrayList.GetItem` | ros2/rcutils/src/array_list.c:186-197 | the item at the index, or an error exactly when there is none |
| `Sha256.HashChunks` | ros2/rcutils/src/sha256.c:130-194 | for every cutting of a message below 2^61 bytes into update calls the result is the FIPS 180-4 digest of the whole message, of which one published value is computed |
| `Sha256.Context.Update` | ros2/rcutils/src/sha256.c:130-150 | afterwards the context has been fed the old bytes and the new ones, whatever was buffered |
| `Sha256.Context.Absorb` | ros2/rcutils/src/sha256.c:134-149 | a piece that fits is buffered, and a complete block is worked in |
| `Sha256.Context.Transform` | ros2/rcutils/src/sha256.c:72-114 | one compression as in section 6.2.2 of FIPS 180-4 |
| `Sha256.Context.Prepare` | ros2/rcutils/src/sha256.c:74-82 | the message schedule of the buffered block |
| `Sha256.Context.RunRounds` | ros2/rcutils/src/sha256.c:84-104 | the 64 rounds on the rolling variables |
| `Sha256.Context.Final` | ros2/rcutils/src/sha256.c:152-194 | the digest of everything fed |
| `Sha256.Context.LastBlocks` | ros2/rcutils/src/sha256.c:152-180 | after padding, the state is the fold over the padded message |
| `Sha256.Context.PadBuffer` | ros2/rcutils/src/sha256.c:157-168 | both padding cases of section 5.1.1: the length fits in the block, or needs another |
| `Sha256.Context.WriteLength` | ros2/rcutils/src/sha256.c:170-179 | the bit counter, most significant byte first |
| `Sha256.Context.WriteOutput` | ros2/rcutils/src/sha256.c:182-193 | the eight words, most significant byte first |
| `Sha256Spec.UnpadUndoesPad` | ros2/rcutils/src/sha256.c:152-180 | padding can be undone, so different messages have different padded forms |
| `Sha256Example.MessageDigest` | ros2/rcutils/src/sha256.c:25-128 | the published digest of the message of 448 bits, two blocks with all 64 rounds each, down to its 32 bytes |
| `Sha256Example.ScheduleAt` | ros2/rcutils/src/sha256.c:77-82 | the recurrence of the message schedule, at every place of a schedule |
| `Sha256Example.PadAt` | ros2/rcutils/src/sha256.c:152-180 | every byte of a padded message: the message, a set bit, zeros and the length |
| `Sha256Spec.ChChooses` | ros2/rcutils/src/sha256.c:31-34 | the bits of y where x is set and those of z elsewhere |
| `Sha256Spec.MajIsMajority` | ros2/rcutils/src/sha256.c:36-39 | the bits of x where x and y agree and those of z elsewhere |
| `PackageOrder.Order` | disrupt_learning/install/_local_setup_util_sh.py:121-148 | for every closed dependency map: failure exactly if there is a cycle; otherwise every package once, behind all it depends on, in an order that differs from any other such order first at a name that is smaller, character by character; the reported packages are exactly those a cycle leads to and that lead to a cycle |
| `PackageOrder.BeforeIsAlphabetical` | disrupt_learning/install/_local_setup_util_sh.py:140-141 | one name precedes another exactly if it is a proper prefix or has the smaller character where they first differ |
| `PackageOrder.GreedyIsLeast` | disrupt_learning/install/_local_setup_util_sh.py:133-148 | of all valid orders the greedy one is lexicographically least |
| `PackageOrder.GreedyIsOrder` | disrupt_learning/install/_local_setup_util_sh.py:133-148 | a complete greedy list is a valid order |
| `PackageOrder.OrderExcludesCycles` | disrupt_learning/install/_local_setup_util_sh.py:121-148 | a dependency map with a valid order has no cycle |
| `PackageOrder.StuckMeansCycle` | disrupt_learning/install/_local_setup_util_sh.py:134-139 | when no package is available there is a cycle |
| `PackageOrder.StoppedMeansCycle` | disrupt_learning/install/_local_setup_util_sh.py:134-139 | giving up means that there is a cycle |
| `PackageOrder.CyclesRemain` | disrupt_learning/install/_local_setup_util_sh.py:144-147 | removing finished packages neither adds nor removes cycles |
| `PackageOrder.GreatestSupportedIsCyclic` | disrupt_learning/install/_local_setup_util_sh.py:151-173 | the greatest set whose members are all depended on by members holds every cycle, is closed, and is not empty if there is a cycle |
| `PackageOrder.ReportedPackages` | disrupt_learning/install/_local_setup_util_sh.py:137-139 | what the error names |
| `PackageOrder.ReportedAreBetween` | disrupt_learning/install/_local_setup_util_sh.py:133-173 | the packages left by the reduction are exactly those between cycles |
| `PackageOrder.DoneReachesDone` | disrupt_learning/install/_local_setup_util_sh.py:133-148 | whatever an ordered package needs, directly or not, has been ordered |
| `PackageOrder.Workspace.OrderPackages` | disrupt_learning/install/_local_setup_util_sh.py:121-148 | the in-place loop yields the greedy order, or stops and reduces what is left |
| `PackageOrder.Workspace.ReduceCycleSet` | disrupt_learning/install/_local_setup_util_sh.py:151-173 | terminates with the greatest set in which every member is depended on by a member |
| `PackageOrder.Workspace.AllDependencies` | disrupt_learning/install/_local_setup_util_sh.py:161-163 | all remaining dependencies |
| `PackageOrder.Workspace.KeepOnly` | disrupt_learning/install/_local_setup_util_sh.py:164-167 | packages nobody depends on are deleted |
| `PackageOrder.Workspace.RemoveUnknownDependencies` | disrupt_learning/install/_local_setup_util_sh.py:100-105 | afterwards every dependency is a known package, and no other is lost |
| `PackageOrder.Workspace.FirstWithoutDependencies` | disrupt_learning/install/_local_setup_util_sh.py:134-141 | the alphabetically first package that waits for nothing, if there is one |
| `PackageOrder.Workspace.RemoveFromDependencies` | disrupt_learning/install/_local_setup_util_sh.py:144-147 | the finished package is in no dependency set |
| `Ownership.OwnershipIsConsistent` | ros/class_loader/src/class_loader_core.cpp:220-271 | in every run without a failing load or close: a loader owns its library's factories exactly while its count is positive; a library is open exactly while somebody owns a factory of it; all factories of a library have the same owners; no factory is both filed and in the graveyard |
| `ClassLoader.RunIsValid` | ros/class_loader/src/class_loader_core.cpp:403-531 | the invariant behind this holds in every reachable state, after failed loads and closes too |
| `Ownership.CountsAreTallied` | ros/class_loader/src/class_loader.cpp:98-151 | at every state of every run, failures included, the counts of each loader are those tallied from the operations alone: every load with a path adds one, every unload without plugins takes one back, not below zero |
| `Ownership.OwnsWhileLoadsAreLeft` | ros/class_loader/src/class_loader.cpp:98-151 | from any point of any run on: after more binding loads than unloads without plugins the library is open, and the loader owns its factories |
| `ClassLoader.LoadKeepsValid` | ros/class_loader/src/class_loader_core.cpp:403-474 | loading keeps it: first load, further load, and revival from the graveyard |
| `ClassLoader.UnloadKeepsValid` | ros/class_loader/src/class_loader_core.cpp:476-531 | unloading keeps it, whether the library stays open, closes, or cannot be closed |
| `Ownership.FailedLoadBreaksOwnership` | ros/class_loader/src/class_loader.cpp:98-107 | the count is raised before the library is opened: after a load that fails the loader has a positive count and owns no factory of its library |
| `Ownership.KeptUnlessThrown` | ros/class_loader/src/class_loader.cpp:98-151 | from a consistent state an operation keeps ownership consistent if and only if it does not throw: it is no load of a library that is not open and cannot be opened, and no last unload of one that cannot be closed |
| `Ownership.ClosesIfLastHolder` | ros/class_loader/src/class_loader_core.cpp:476-524 | from a consistent state an unload fails exactly if it takes back the only load left on an open library, no plugins are left, and closing is refused |
| `Ownership.FailedCloseIsForGood` | ros2/rcutils/src/shared_library.c:255-281 | after a failed close the library stays in the open list without a factory, and no operation ever changes that, since its handle is gone |
| `Ownership.OwnershipOverRuns` | ros/class_loader/src/class_loader_core.cpp:220-531 | at every state of every run, failures included: ownership is consistent if and only if no close has failed and every loader with a positive count has had a load that bound it since its count was last zero |
| `Ownership.OwnersHaveLoaded` | ros/class_loader/src/class_loader_core.cpp:334-474 | in every run, failures included: the owners of a filed factory are exactly the loaders of its library with such a load |
| `Ownership.FirstFailureBreaksOwnership` | ros/class_loader/src/class_loader_core.cpp:403-443 | in every run ownership is consistent up to the first failing load or close and broken by it |
| `Ownership.UnloadMends` | ros/class_loader/src/class_loader.cpp:109-151 | an unload after a failed load restores the state before it |
| `Ownership.OwnershipIfNoneAstray` | ros/class_loader/src/class_loader_core.cpp:220-271 | in a state of a run ownership is consistent if and only if no library has lost its handle and every loader with a positive count is bound to its factories |
| `ClassLoader.EraseIs` | ros/class_loader/src/meta_object.cpp:110-117 | erasing an owner from a list without duplicates removes exactly that owner |
| `ClassLoader.System.LoadLibrary` | ros/class_loader/src/class_loader.cpp:98-107 | every load with a path is counted, failed or not; the state after it, also after any number of failures before; throws exactly if the library has to be opened and cannot be, and then only the count has changed |
| `ClassLoader.System.AddOwnerToAll` | ros/class_loader/src/class_loader_core.cpp:334-349 | every factory of the library gets the new owner once |
| `ClassLoader.System.Register` | ros/class_loader/src/class_loader_core.cpp:424-443 | what opening the library files |
| `ClassLoader.System.Revive` | ros/class_loader/src/class_loader_core.cpp:351-373 | dead factories of the library are filed again, owned by the loader |
| `ClassLoader.System.Purge` | ros/class_loader/src/class_loader_core.cpp:375-401 | all factories of the library, and no others, leave the graveyard |
| `ClassLoader.System.UnloadLibrary` | ros/class_loader/src/class_loader.cpp:109-151 | counts down by one without plugins, never below zero; at zero the loader's factories are released; throws exactly if the library has to be closed and cannot be |
| `ClassLoader.System.UnloadInternal` | ros/class_loader/src/class_loader_core.cpp:476-531 | the library leaves the open list exactly when nobody owns a factory of it any more and it can be closed; when closing throws, the factories have been released and the library stays open |
| `ClassLoader.System.CloseHandle` | ros2/rcutils/src/shared_library.c:255-281 | a close takes the handle away even if it fails, and without a handle it fails |
| `ClassLoader.System.DestroyMetaObjects` | ros/class_loader/src/class_loader_core.cpp:220-271 | the loader is no owner any more; factories without owners are in the graveyard and in no map |
| `Find.FindN` | ros2/rcutils/src/find.c:32-47 | the first occurrence, or none exactly if there is none |
| `Find.FindLastN` | ros2/rcutils/src/find.c:56-71 | the last occurrence, or none exactly if there is none |
| `LoggerLevels.Loggers.GetEffectiveLevel` | ros2/rcutils/src/logging.c:975-1079 | the level of the nearest dot-ancestor or the name itself with a level other than UNSET, else the default; the shortcut for an empty map and the exact match agree with the walk |
| `LoggerLevels.Loggers.WalkAncestors` | ros2/rcutils/src/logging.c:1028-1061 | the walk over the dots finds the nearest one |
| `LoggerLevels.NearestIsUnique` | ros2/rcutils/src/logging.c:975-1079 | there is at most one nearest ancestor, so the effective level is determined |
| `LoggerLevels.AncestorsEndAtDots` | ros2/rcutils/src/logging.c:1030-1043 | a name's ancestors are exactly what precedes one of its dots |
| `LoggerLevels.OnlyDescendantsChange` | ros2/rcutils/src/logging.c:1081-1182 | changing or removing the entry of a name affects the effective level of that name and its descendants only |
| `LoggerLevels.Purge` | ros2/rcutils/src/logging.c:1118-1166 | iterating by previous key visits every entry once, in order, while the previous one is removed after the next was fetched; exactly the doomed entries are gone |
| `LoggerLevels.Loggers.SetLevel` | ros2/rcutils/src/logging.c:1081-1182 | for a valid level: succeeds exactly if the name can be copied and all requests of the insertion are granted; the old entry is lost exactly if it existed and that condition fails; names other than descendants keep their effective level |
| `LoggerLevels.ForgottenLevel` | ros2/rcutils/src/logging.c:1081-1182 | a level that is set again while the name cannot be copied is lost: the effective level goes from 40 to the default 20 |
| `LoggerLevels.LevelsChanged` | ros2/rcutils/src/logging.c:1081-1182 | setting or removing the entry of a name leaves the effective level of all but its descendants alone, and a level other than UNSET becomes the effective level of the name |
| `LoggerLevels.Loggers.RemoveCached` | ros2/rcutils/src/logging.c:1118-1166 | only the entry of that very name is purged |
| `LoggerLevels.Loggers.AddKey` | ros2/rcutils/src/logging.c:889-924 | the level is stored with its tag exactly if the name can be copied and all requests are granted; nothing changes otherwise |
| `LoggerLevels.Loggers.GetSeverityLevel` | ros2/rcutils/src/logging.c:926-939 | the level as it was set, with the tag removed |
| `LoggerLevels.Loggers.SetDefaultLevel` | ros2/rcutils/src/logging.c:870-878 | exactly the names without a level on their chain of ancestors take the new default, INFO for UNSET; all others keep their effective level |
| `LogFormat.RunIsExpansion` | ros2/rcutils/src/logging.c:1240-1263 | handlers that tile a piece of the format produce its direct expansion |
| `LogFormat.OneHandler` | ros2/rcutils/src/logging.c:413-432 | one handler produces the expansion of what it covers |
| `LogFormat.TextIsCopied` | ros2/rcutils/src/logging.c:563-580 | what precedes the first opening brace of a format is copied |
| `LogFormat.BracesExpand` | ros2/rcutils/src/logging.c:549-627 | what stands in braces is expanded exactly if it is one of the nine token names, and copied otherwise |
| `LogFormat.LeadingTokenOfPrefix` | ros2/rcutils/src/logging.c:549-627 | cutting a format short keeps a leading token exactly if it is still complete |
| `LogFormat.Formatter.ParseFormat` | ros2/rcutils/src/logging.c:549-627 | the handlers tile the format from left to right without gap or overlap, or a prefix of it when all 1024 are used, and running them is its expansion |
| `LogFormat.Formatter.NextHandler` | ros2/rcutils/src/logging.c:560-626 | one turn of the parsing loop covers what starts at its position |
| `LogFormat.Formatter.AddHandler` | ros2/rcutils/src/logging.c:533-547 | appends, or refuses exactly when the table is full |
| `LogFormat.Formatter.FormatMessage` | ros2/rcutils/src/logging.c:1240-1263 | appends the text of all handlers in order to the output |
| `CharArray.CharArray.Resize` | ros2/rcutils/src/char_array.c:86-131 | keeps the contents that fit; a shortened buffer that was not owned is terminated again, an owned one keeps its characters; a buffer that is not owned is replaced |
| `CharArray.CharArray.ExpandAsNeeded` | ros2/rcutils/src/char_array.c:133-149 | room for the size with the contents kept, growing by at least half |
| `CharArray.CharArray.StrNCat` | ros2/rcutils/src/char_array.c:219-241 | the contents with the text appended |
| `Menu.RebuildUndoesPreorder` | ros-visualization/interactive_markers/src/menu_handler.cpp:188-215 | rebuilding a forest from ids and parent ids gives back the flattened forest, sibling order included |
| `Menu.ShownIsRecovered` | ros-visualization/interactive_markers/src/menu_handler.cpp:188-215 | for every menu table in order: what is shown can be read back from its list of entries |
| `Menu.ForestIsDistinct` | ros-visualization/interactive_markers/src/menu_handler.cpp:188-215 | each entry is shown once, and every child id exceeds its parent's |
| `Menu.ShownIffVisible` | ros-visualization/interactive_markers/src/menu_handler.cpp:204-206 | an entry is shown exactly when neither it nor anything above it is hidden |
| `Menu.EntriesShow` | ros-visualization/interactive_markers/src/menu_handler.cpp:253-278 | each listed entry shows the title with its check state, the command and the parent of its handle |
| `Menu.InsertAddsLeaf` | ros-visualization/interactive_markers/src/menu_handler.cpp:67-119 | inserting adds one entry, last below its parent, and changes nothing else that is shown |
| `Menu.HidingPrunes` | ros-visualization/interactive_markers/src/menu_handler.cpp:122-133 | hiding an entry removes its subtree from what is shown and nothing else |
| `Menu.MenuHandler.DoInsert` | ros-visualization/interactive_markers/src/menu_handler.cpp:232-251 | a visible entry without checkbox under the next handle |
| `Menu.MenuHandler.Insert` | ros-visualization/interactive_markers/src/menu_handler.cpp:67-85 | a fresh handle; the entry appears last at the top level |
| `Menu.MenuHandler.InsertUnder` | ros-visualization/interactive_markers/src/menu_handler.cpp:88-119 | a fresh handle; the entry appears last below its parent |
| `Menu.MenuHandler.SetVisible` | ros-visualization/interactive_markers/src/menu_handler.cpp:122-133 | only the flag of the entry changes, unknown handles are reported |
| `Menu.MenuHandler.SetCheckState` | ros-visualization/interactive_markers/src/menu_handler.cpp:136-147 | only the check state of the entry changes, unknown handles are reported |
| `Menu.MenuHandler.PushMenuEntries` | ros-visualization/interactive_markers/src/menu_handler.cpp:188-215 | terminates, never meets a missing handle, and appends the visible forest in preorder |
| `Menu.MenuHandler.Apply` | ros-visualization/interactive_markers/src/menu_handler.cpp:165-186 | the list a marker carries, from which the visible forest can be rebuilt; each entry has the title of its handle, behind "[x] " or "[ ] " if it has a checkbox, and the parent it was inserted below |
| `MessageContext.Context.GetTfTransforms` | ros-visualization/interactive_markers/src/message_context.cpp:229-237 | for every round with any answers: an exception is thrown exactly if some open item has a part that the round reaches, foreign and not moved yet, whose transform fails, has no known newest time, or is newer than the part; otherwise every item and both open lists are as the history of rounds says |
| `MessageContext.Context.IsReady` | ros-visualization/interactive_markers/src/message_context.cpp:188-192 | ready exactly when every item had a round in which nothing was missing; then every stamped pose in a foreign frame has been transformed exactly once and every other pose never |
| `MessageContext.Context.GetMarkerTransforms` | ros-visualization/interactive_markers/src/message_context.cpp:136-166 | the loop that erases from its own list while iterating handles every open marker once |
| `MessageContext.Context.GetPoseTransforms` | ros-visualization/interactive_markers/src/message_context.cpp:168-186 | the same for pose updates |
| `MessageContext.Context.constructor` | ros-visualization/interactive_markers/src/message_context.cpp:194-215 | at first everything is open |
| `MessageContext.TransformMarker` | ros-visualization/interactive_markers/src/message_context.cpp:142-154 | the marker and then all markers of its controls are tried in order up to the first that is not available |
| `MessageContext.CompletedIsSettled` | ros-visualization/interactive_markers/src/message_context.cpp:88-134 | a completed item has every stamped foreign pose transformed once, all others as they were |
| `MessageContext.CompletedStays` | ros-visualization/interactive_markers/src/message_context.cpp:156-158 | later rounds do not change a completed item |
| `MessageContext.RoundAdvances` | ros-visualization/interactive_markers/src/message_context.cpp:136-166 | a round completes an item exactly when in it nothing is missing; frames found in earlier rounds are not asked for again |
| `MessageContext.FoldAdvances` | ros-visualization/interactive_markers/src/message_context.cpp:142-154 | what a round does to each part, given any number of earlier rounds |
| `MessageContext.ThrownIfRejected` | ros-visualization/interactive_markers/src/message_context.cpp:88-134 | which answers throw: a failed lookup, an extrapolation without a newest time, and one whose newest time is not 0 and behind the stamp |
| `ReplStr.ReplStr` | ros2/rcutils/src/repl_str.c:45-144 | the zero-terminated leftmost non-overlapping replacement; with memory granted, null exactly if the text and its terminator are too long for size_t, and then the buffer is too short for the copy loop |
| `ReplStr.FindMatches` | ros2/rcutils/src/repl_str.c:74-98 | all matches from left to right in a cache that is always large enough and never more than 1048575 too large; below 2^60 characters its size in bytes does not wrap around |
| `ReplStr.CopyReplaced` | ros2/rcutils/src/repl_str.c:122-137 | the copy loop writes exactly the computed number of characters |
| `ReplStr.LengthWraps` | ros2/rcutils/src/repl_str.c:98-106 | the length computed in wrap-around arithmetic is right modulo 2^64, also when the replacement is shorter than the pattern |
| `ReplStr.LengthIsExact` | ros2/rcutils/src/repl_str.c:98-106 | it is the length of the result exactly when that is below 2^64 |
| `ReplStr.LengthWrapsToZero` | ros2/rcutils/src/repl_str.c:98-106 | an input whose result has 2^66 characters and whose computed length is 0 |
| `ReplStr.BufferFits` | ros2/rcutils/src/repl_str.c:98-110 | the requested buffer has the right size exactly when size_t can hold it |
| `ReplStr.ReplaceFromMatch` | ros2/rcutils/src/repl_str.c:74-96 | replacement up to and with the first match, then of the rest |
| `ReplStr.CountAssembled` | ros2/rcutils/src/repl_str.c:74-106 | the cached positions account for the length of the result |

## Left out

- MarkerServer: update numbers are unbounded; the wrap-around of the 64-bit counter after 2^64 messages is not modelled.
- Markers: a marker is its name, header, pose and a body that stands for everything else; controls, meshes and colours are not told apart.
- MarkerServer.Server.ProcessMarkerFeedback: registered feedback callbacks and setCallback are not called; they may call the other operations, which are steps of their own.
- Replication.ReplicasConverge: assumes an in-order lossless update topic and callbacks that do not overlap; whether a discard did harm is judged by its number and its time only, so a client may show the right markers after one that counts as harmful.
- MarkerClient: transport, services and clocks are parameters of a call that say what it finds out.
- HashMap.HashMap.Set: two keys are the same when their contents are equal, which covers every comparison that is an equivalence; buckets and entries are values, so pointers into them are not modelled.
- HashMap.HashMap.Initialize: a request for more than 2^57 elements is taken to be refused; the code multiplies the capacity by the size of a struct in size_t, which wraps around for such capacities, and may be granted less than it needs. The map must not be initialized yet, since the code would overwrite it.
- Sha256.Context.Final: for messages below 2^61 bytes, where the 64-bit bit counter does not wrap around.
- PackageOrder: reading the package files and the text of the error.
- ClassLoader.System.LoadLibrary: what a library registers, and whether it can be opened, are arguments, as is whether it can be closed for ClassLoader.System.UnloadLibrary, since the registration macros and the linker are not part of this model; a failing load registers nothing; libraries that are not pure plugin libraries, the destruction of loaders and the debug output are left out.
- ClassLoader: the factory maps of all base classes are one map from base and class name; plugin instances count only through the loader's plugin count.
- LoggerLevels.Loggers.GetEffectiveLevel: the model starts after the lazy initialization of the logging system.
- LogFormat.Formatter.ParseFormat: starts from a decoded format; decoding of escapes in create_format_string is left out.
- LogFormat.Formatter.FormatMessage: the texts of the tokens (time, line, severity and so on) are a function given to it.
- CharArray.CharArray.Resize: when resizing an owned buffer fails the buffer is given up, and nothing is said about its contents then. Formatted printing into it is left out.
- Menu.MenuHandler.InsertUnder: requires an existing parent, as the program stops otherwise.
- Menu: handles are unbounded; the wrap-around of the 32-bit counter is not modelled. Feedback callbacks of entries are left out.
- MessageContext: a lookup answers with a transform that is applied symbolically, so that counting applications makes sense; filling in default controls and repairing empty orientations happen before.
- MessageContext.Context.GetTfTransforms: says nothing about the poses after an exception, and does not tell apart the transform error the client catches from the exception of the second lookup (message_context.cpp:117-119), which it does not.
- ReplStr.ReplStr: requires a pattern that is not empty, as documented, and a string that fits in memory; what an overrun of the buffer does is not modelled. Strings do not contain the terminator.
- ReplStr.FindMatches: the size of the position cache is unbounded; from 2^60 characters on its size in bytes may wrap around in the code.
- The Python marker server, other rcutils containers, file system, processes, time, camera calibration, laser geometry and rosidl_runtime_py are not modelled.
- LoggerLevels.Loggers.SetLevel: whether a name can be copied is an argument; the map's own requests are answered by the allocator.
