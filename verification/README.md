# Bluetooth framework: tables and protocols

This project models the in-process tables and small protocols of the Bluetooth framework and its C
adapter, and proves what they keep over every run.  Proxies into the Bluetooth service, clocks,
application answers and application callbacks are inputs: theorems hold for all of them.

| file | what it models | one step is |
|---|---|---|
| `Quarantine.dfy`, `QuarantineHistory.dfy` | the advertising-address quarantine: a bounded queue and a case-insensitive map | one locked call |
| `HandleTranslation.dfy`, `GattServerTables.dfy`, `GattServerRuns.dfy` | the GATT server adapter: service slots, attribute lists, application and stack handles | one API call or callback |
| `ConnectionTable.dfy` | connection ids of the GATT server adapter | one callback |
| `GattClientRequests.dfy` | the busy flag and request type of the GATT client | one API call or callback |
| `Discovery.dfy` | discovery mark and busy flag of the GATT client against disconnection, any number of threads | one critical section, or one call outside the locks |
| `ServiceStart.dfy` | registration of profile functions against the start of the service, any number of threads | one access to a shared map or flag, one lookup, one call |
| `AdvertisingSlots.dfy` | the seven advertising slots, with reclaim | one section under the advertising lock |
| `AdvertiserCallbacks.dfy` | the table from advertising handles to callbacks | one API call or callback |
| `GattTree.dfy` | services, characteristics and descriptors on the heap, with back-pointers | one constructor or adder |
| `MacAddress.dfy`, `LocalNameAd.dfy`, `ObjectMap.dfy` | address text, the local-name AD structure, the id map | one call |
| `Basics.dfy`, `SetFacts.dfy` | shared types and the first-match search; counting facts about finite sets | |

Code that updates fields is a class whose methods are proved against functions of the old state; the
run theorems are about those functions.  Concurrent code is a state machine whose runs are sequences
of states and actions.  Every lemma carries `{:induction false}`: the proofs are the bodies.

## Assumptions

- The clock of the quarantine never goes back, and adding an hour to it does not overflow 64 bits.
- `CreateInstance` of the advertiser and of the GATT server succeeds.
- Callbacks of the system-ability listener do not overlap each other.  A remote lookup holds its own
  lock throughout and is one step; only the insertion of its object into the cache may come later,
  because clearing the cache does not take that lock.
- Iterating over the shared map of registered functions holds the lock of that map; its class comes
  from a library and is not part of this model.
- A growing vector moves its elements when their move constructor cannot throw and copies them
  otherwise, as the C++ standard library does.
- The stack completes only requests it holds.  It may also lose one; the effect of that is part of
  the theorems about the busy flag.
- The weak pointer to a client or advertiser is alive when a callback arrives.

## Where the code falls short of what one would expect

- The stack's report of a started service goes to the first slot that waits under the UUID of the
  service.  A fresh waiting slot gets the stack handles of its own nodes from every report if and only if
  no lower slot of the server waits under the same UUID and its list is unambiguous: characteristic UUIDs
  are distinct and every descriptor is the first entry with its UUID whose handle is above that of its
  characteristic (`ReportExactIff`, `WaitingSlotReportedIff`).  Another service of the UUID takes the
  report away (`TwinTakesTheReport`), even one whose start has failed (`FailedStartTakesTheReport`).
- Inside one list the second half is exact by itself (`TranslationExactIff`); without a wrap of the handle
  counter it means distinct UUIDs (`TranslationExactIffDistinct`).  Two characteristics of one UUID break
  it (`DuplicateBreaksTranslation`), and so does a wrap between two characteristics that carry the same
  descriptor UUID (`WrapBreaksTranslation`, `WrappedDrawsFail`).
- Application handles come round after 65534 draws: they lead back to their attributes if and only if no
  two draws in use on the server are whole laps apart (`HandlesLeadBackIff`, `WornHandleLeadsAstray`).
- The clock is read once for the sweep of the quarantine and again for the question, so an address can
  be refused although a full hour has passed (`RefusedExactlyInQuarantine`, `RefusedAfterAnHour`).
- The disconnect callback clears the discovery mark and the busy flag in two critical sections before a
  third one writes the connection state.  A discovery or a request in between leaves a disconnected
  client with the flag set (`MarkCanOutliveDisconnect`, `BusyCanOutliveDisconnect`), and this is the
  only way (`FlagsWhileDisconnected`).
- A discovery fails and leaves its mark behind exactly when the client is not registered or has no proxy
  (`FailureLeavesMarkIff`, `MarkIsLeftBehind`); then no discovery starts until a completion or
  disconnect callback arrives (`MarkLeftBehindBlocks`).
- A request that the stack loses leaves the client busy until the link goes down
  (`LossBlocksUntilDisconnect`, `LostRequestBlocks`).
- A registered function misses a start if and only if no lookup for it found a remote object
  (`MissedExactly`).  That cannot happen while the service is there and answers
  (`AvailableServiceIsNotMissed`), but it can when an earlier lookup has shut the gate
  (`ShutGateStaysShut`).  The function does not run at all if moreover the listener began its iteration
  without it (`UncalledExactly`, `NullLookupMissesStart`).
- Advertising handles are 32-bit in the table but 8-bit in the lookups: a callback is reachable
  through its handle, and can be closed, if and only if the handle is between 0 and 254
  (`HandleRoundTripIff`, `CloseRemovesIff`).  Closing one above that can remove another callback
  (`WideHandleClosesAnother`).
- `AddObject` silently keeps the old object when its number is still in use after the counter has
  gone round, or was given out by `AddLimitedObject` (`AddYieldsObjectIff`, `LapKeepsTheOldObject`,
  `LimitedTakesTheNumber`).

## Model

| member | source | states |
|---|---|---|
| `Quarantine.EquivalentIffSameUpToCase` | frameworks/inner/c_adapter/ohos_bt_gatt_utils.cpp:40-46 | the map's comparator makes two addresses one entry exactly when they have the same length and at every position the same character or the two cases of one letter |
| `Quarantine.SameKeyIff` | frameworks/inner/c_adapter/ohos_bt_gatt_utils.cpp:40-46 | so do the keys that stand for addresses in the model |
| `Quarantine.LessIsTransitive` | frameworks/inner/c_adapter/ohos_bt_gatt_utils.cpp:40-46 | the comparator is transitive and asymmetric, as an ordered map needs |
| `Quarantine.SweepRemovesExactlyExpired` | frameworks/inner/c_adapter/ohos_bt_gatt_utils.cpp:63-71 | on a time-sorted queue, popping expired entries at the front removes every entry aged one hour or more and no other |
| `Quarantine.SweepIsSuffix` | frameworks/inner/c_adapter/ohos_bt_gatt_utils.cpp:63-71 | the sweep leaves a suffix of the queue, and an entry is in it exactly when it is not expired |
| `Quarantine.PushKeepsInStep` | frameworks/inner/c_adapter/ohos_bt_gatt_utils.cpp:97-98 | entering a new address in both tables keeps map and queue holding the same pairs |
| `Quarantine.PopKeepsInStep` | frameworks/inner/c_adapter/ohos_bt_gatt_utils.cpp:67-70 | removing the oldest entry from both tables keeps map and queue holding the same pairs |
| `Quarantine.MapAnswersForQueue` | frameworks/inner/c_adapter/ohos_bt_gatt_utils.cpp:84-85 | the map lookup finds an address exactly when the queue holds it, with the same time |
| `Quarantine.AddressQuarantine.RemoveTimeoutAdvAddr` | frameworks/inner/c_adapter/ohos_bt_gatt_utils.cpp:63-71 | map and queue stay in step; the contents become the unexpired entries of the old contents |
| `Quarantine.AddressQuarantine.CanStartAdv` | frameworks/inner/c_adapter/ohos_bt_gatt_utils.cpp:79-100 | map and queue stay in step, time-sorted, without repetition and within 128; verdict and new contents are those of the queue specification |
| `Quarantine.AddressQuarantine.Remember` | frameworks/inner/c_adapter/ohos_bt_gatt_utils.cpp:93-98 | the oldest entry is evicted exactly when 128 are held, and the new one is entered in both tables |
| `QuarantineHistory.QueueHoldsWhatPolicyHolds` | frameworks/inner/c_adapter/ohos_bt_gatt_utils.cpp:63-100 | after every run the queue is exactly the part of the full recording history that the simple policy still holds |
| `QuarantineHistory.VerdictsRefinePolicy` | frameworks/inner/c_adapter/ohos_bt_gatt_utils.cpp:79-100 | every verdict of every run equals the one the simple policy computes from the full call history |
| `QuarantineHistory.LogIsSpaced` | frameworks/inner/c_adapter/ohos_bt_gatt_utils.cpp:79-100 | two recordings of one address are an hour apart or more than 128 recordings apart |
| `QuarantineHistory.WindowStartsAreSpaced` | frameworks/inner/c_adapter/ohos_bt_gatt.cpp:1532-1540 | two window starts of one address are at least one hour apart, unless at least 128 other distinct addresses were recorded between them |
| `QuarantineHistory.AcceptedStartsLieInWindow` | frameworks/inner/c_adapter/ohos_bt_gatt_utils.cpp:79-100 | every accepted start lies less than 15 minutes after a recording under the same key |
| `QuarantineHistory.AcceptedStartHasRecording` | frameworks/inner/c_adapter/ohos_bt_gatt_utils.cpp:79-100 | that is, after a recording of the same address up to letter case |
| `QuarantineHistory.NewAddressIsAccepted` | frameworks/inner/c_adapter/ohos_bt_gatt_utils.cpp:79-100 | in every run an address that was not asked about before, in any letter case, is accepted |
| `QuarantineHistory.RefusedExactlyInQuarantine` | frameworks/inner/c_adapter/ohos_bt_gatt.cpp:1532-1540 | with the clock read once for the sweep and again for the question, a start is refused exactly when the address was recorded at least 15 minutes before the question and less than an hour before the sweep, and not pushed out by 128 younger records |
| `QuarantineHistory.RefusedAfterAnHour` | frameworks/inner/c_adapter/ohos_bt_gatt.cpp:1532-1540 | a run in which an address is refused a full hour after it was recorded, because the sweep just missed it |
| `HandleTranslation.CharacteristicTargetIsOwn` | frameworks/inner/c_adapter/ohos_bt_gatt_server.cpp:192-203 | with distinct UUIDs the lookup of a characteristic finds its own preorder position |
| `HandleTranslation.DescriptorTargetIsOwn` | frameworks/inner/c_adapter/ohos_bt_gatt_server.cpp:205-223 | in an unambiguous list the lookup of a descriptor finds its own preorder position, even when many characteristics carry the same descriptor UUID |
| `HandleTranslation.TranslationIsExact` | frameworks/inner/c_adapter/ohos_bt_gatt_server.cpp:309-328 | with distinct UUIDs and rising handles every entry of a node that was handed to the stack receives the stack handle of its own node and nothing else changes, also when more was added since |
| `HandleTranslation.TranslationExactIff` | frameworks/inner/c_adapter/ohos_bt_gatt_server.cpp:205-223 | in one list, whatever the handle counter did and whatever was added since, all reports of the tree handed to the stack are translated exactly if and only if characteristic UUIDs are distinct and every descriptor is the first entry with its UUID whose handle is above that of its characteristic |
| `HandleTranslation.ExactMeansUnambiguous` | frameworks/inner/c_adapter/ohos_bt_gatt_server.cpp:309-328 | already the exact translation of one report with different handles implies that condition |
| `HandleTranslation.RisingUnambiguousIffDistinct` | frameworks/inner/c_adapter/ohos_bt_gatt_server.cpp:205-223 | for rising handles the condition comes down to distinct UUIDs |
| `HandleTranslation.TranslationExactIffDistinct` | frameworks/inner/c_adapter/ohos_bt_gatt_server.cpp:309-328 | without a wrap of the counter, all reports are translated exactly if and only if the UUIDs are distinct |
| `HandleTranslation.WrapBreaksTranslation` | frameworks/inner/c_adapter/ohos_bt_gatt_server.cpp:205-223 | a concrete list whose handles wrap between two characteristics and whose translation is wrong, although UUIDs are distinct and every descriptor lies above its characteristic |
| `HandleTranslation.DuplicateBreaksTranslation` | frameworks/inner/c_adapter/ohos_bt_gatt_server.cpp:192-203 | a concrete list with two characteristics of one UUID whose translation is wrong |
| `HandleTranslation.DeliverAll` | frameworks/inner/c_adapter/ohos_bt_gatt_server.cpp:309-328 | every stack handle in the list was there before or was delivered by a node of the report whose lookup finds that entry |
| `GattServerTables.NextDraw` | frameworks/inner/c_adapter/ohos_bt_gatt_server.cpp:122-129 | the counter produces 1 to 65534 over and over |
| `GattServerTables.CloseDrawsDiffer` | frameworks/inner/c_adapter/ohos_bt_gatt_server.cpp:122-129 | draws fewer than 65534 apart give different handles |
| `GattServerTables.OneLapRises` | frameworks/inner/c_adapter/ohos_bt_gatt_server.cpp:122-129 | a list whose handles were drawn in one lap of the counter has rising handles |
| `GattServerTables.HandlesDistinctIff` | frameworks/inner/c_adapter/ohos_bt_gatt_server.cpp:122-129 | the handles in use on a server are distinct if and only if no two of their draws are whole laps of 65534 apart |
| `GattServerTables.RecentHandlesDistinct` | frameworks/inner/c_adapter/ohos_bt_gatt_server.cpp:122-129 | in particular the handles from the last 65534 draws are all different |
| `GattServerTables.WrappedDrawsFail` | frameworks/inner/c_adapter/ohos_bt_gatt_server.cpp:122-129 | the draws 65532 to 65535 of the counter produce a list whose translation is wrong |
| `GattServerTables.HandleRoundTrip` | frameworks/inner/c_adapter/ohos_bt_gatt_server.cpp:178-190 | from either handle of a started attribute the lookups return that attribute |
| `GattServerTables.ActualLookupExactIff` | frameworks/inner/c_adapter/ohos_bt_gatt_server.cpp:225-238 | the stack-handle lookup returns every started attribute from its own handle if and only if the stack handles are distinct |
| `GattServerTables.HandleLookupExactIff` | frameworks/inner/c_adapter/ohos_bt_gatt_server.cpp:178-190 | the application-handle lookup returns every attribute from its own handle if and only if the application handles are distinct |
| `GattServerTables.NodeAfterReport` | frameworks/inner/c_adapter/ohos_bt_gatt_server.cpp:309-328 | after the report of an unambiguous list an entry has its application handle and the stack handle, UUID and kind of its node |
| `GattServerTables.ReportReachesIff` | frameworks/inner/c_adapter/ohos_bt_gatt_server.cpp:290-303 | a report reaches a waiting slot if and only if no lower slot of the server waits under the same service UUID |
| `GattServerTables.ReportExactIff` | frameworks/inner/c_adapter/ohos_bt_gatt_server.cpp:279-331 | through the whole callback, all reports of the tree handed to the stack give the entries of a fresh waiting slot the handles of their own nodes if and only if no lower slot waits under the same UUID and the list is unambiguous |
| `GattServerTables.RequestFindsNode` | frameworks/inner/c_adapter/ohos_bt_gatt_server.cpp:279-331 | after a report that reaches its slot, a request for the stack handle of any reported node finds the entry of that node |
| `GattServerTables.BeginsExtends` | frameworks/inner/c_adapter/ohos_bt_gatt_server.cpp:143-156 | what is added after a service was handed to the stack goes behind what was handed over |
| `GattServerTables.GattServers.WaitingSlotReportedIff` | frameworks/inner/c_adapter/ohos_bt_gatt_server.cpp:279-331 | the same if and only if in every state of every run, for the tree that was handed over at the last start |
| `GattServerTables.GattServers.RequestFindsItsDraw` | frameworks/inner/c_adapter/ohos_bt_gatt_server.cpp:279-331 | in every state, when no lower slot waits under the UUID and the list is unambiguous, a request for the stack handle of any reported node finds the entry at the place of the node, whose application handle is the draw that was made for that place |
| `GattServerTables.GattServers.OneLapRequestFindsItsDraw` | frameworks/inner/c_adapter/ohos_bt_gatt_server.cpp:279-331 | in particular when UUIDs are distinct and the slot was filled in one lap of the counter |
| `GattServerTables.GattServers.HandlesLeadBackIff` | frameworks/inner/c_adapter/ohos_bt_gatt_server.cpp:178-190 | in every state, all application-handle lookups on a server lead back if and only if no two draws in use there are whole laps apart, and all stack-handle lookups if and only if the stack handles are distinct |
| `GattServerTables.GattServers.HandlesLeadBack` | frameworks/inner/c_adapter/ohos_bt_gatt_server.cpp:178-190 | under these two conditions both lookups return a started attribute from its handles |
| `GattServerTables.AddCharacteristicAgrees` | frameworks/inner/c_adapter/ohos_bt_gatt_server.cpp:800-815 | list and tree extended by a characteristic still agree in preorder |
| `GattServerTables.AddDescriptorAgrees` | frameworks/inner/c_adapter/ohos_bt_gatt_server.cpp:856-876 | list and tree extended by a descriptor of the last characteristic still agree in preorder |
| `GattServerTables.AddedDescriptor` | frameworks/inner/c_adapter/ohos_bt_gatt_server.cpp:867-874 | only the last characteristic grows, by the descriptor; everything else of the service is kept |
| `GattServerTables.AssignAgrees` | frameworks/inner/c_adapter/ohos_bt_gatt_server.cpp:309-328 | assigning stack handles keeps list and tree in agreement |
| `GattServerTables.GattServers.GetNextAttributeHandle` | frameworks/inner/c_adapter/ohos_bt_gatt_server.cpp:122-129 | the n-th call returns the n-th handle of the cycle |
| `GattServerTables.GattServers.BleGattsRegister` | frameworks/inner/c_adapter/ohos_bt_gatt_server.cpp:593-624 | takes the lowest free server; fails exactly when all ten are taken or the application has set no callbacks |
| `GattServerTables.GattServers.BleGattsUnRegister` | frameworks/inner/c_adapter/ohos_bt_gatt_server.cpp:634-646 | frees exactly a registered server |
| `GattServerTables.GattServers.BleGattsAddService` | frameworks/inner/c_adapter/ohos_bt_gatt_server.cpp:711-748 | takes the lowest free slot with an empty list, leaves all others alone, and fails exactly when there is none |
| `GattServerTables.GattServers.BleGattsAddCharacteristic` | frameworks/inner/c_adapter/ohos_bt_gatt_server.cpp:783-825 | tree and list of the slot grow by the characteristic under the handle of a draw recorded for that place; every slot's list stays the preorder of its tree |
| `GattServerTables.GattServers.BleGattsAddDescriptor` | frameworks/inner/c_adapter/ohos_bt_gatt_server.cpp:841-885 | the same for a descriptor, which goes to the last characteristic and carries the handle in the tree |
| `GattServerTables.GattServers.BleGattsStartService` | frameworks/inner/c_adapter/ohos_bt_gatt_server.cpp:896-913 | marks the slot as being added, hands its tree over, and changes nothing else |
| `GattServerTables.GattServers.BleGattsStopService` | frameworks/inner/c_adapter/ohos_bt_gatt_server.cpp:924-949 | takes the mark back and changes nothing else |
| `GattServerTables.GattServers.BleGattsDeleteService` | frameworks/inner/c_adapter/ohos_bt_gatt_server.cpp:960-986 | the slot becomes free with an empty list; all other slots are unchanged |
| `GattServerTables.GattServers.OnServiceAdded` | frameworks/inner/c_adapter/ohos_bt_gatt_server.cpp:279-331 | the first slot that is being added and whose service has the reported UUID gets the translated list and waits no longer; nothing else changes; with a successful report and a listener it fails exactly when there is no such slot |
| `GattServerTables.GattServers.GetAttributeWithHandle` | frameworks/inner/c_adapter/ohos_bt_gatt_server.cpp:178-190 | returns the first attribute with the application handle, slot by slot |
| `GattServerTables.GattServers.GetAttributeWithActualHandle` | frameworks/inner/c_adapter/ohos_bt_gatt_server.cpp:225-238 | returns the first attribute with the stack handle, slot by slot |
| `GattServerTables.GattServers.LiveHandlesDistinct` | frameworks/inner/c_adapter/ohos_bt_gatt_server.cpp:122-129 | the first condition holds in every state whose draws in use are fewer than 65534 draws old |
| `GattServerTables.GetAttribute` | frameworks/inner/c_adapter/ohos_bt_gatt_server.cpp:158-176 | returns the first entry that satisfies the predicate |
| `GattServerTables.AssignReported` | frameworks/inner/c_adapter/ohos_bt_gatt_server.cpp:309-328 | the loops over the report compute the specified assignment |
| `GattServerRuns.ReportsReachTheirOwn` | frameworks/inner/c_adapter/ohos_bt_gatt_server.cpp:290-303 | a run in which two services of different UUIDs wait and each gets its own report, the higher slot first |
| `GattServerRuns.TwinTakesTheReport` | frameworks/inner/c_adapter/ohos_bt_gatt_server.cpp:290-303 | a run in which the report of a started service goes to another of the same UUID in a lower slot |
| `GattServerRuns.FailedStartTakesTheReport` | frameworks/inner/c_adapter/ohos_bt_gatt_server.cpp:285-303 | a run in which a slot whose start failed takes the report of the next service of its UUID |
| `GattServerRuns.WornHandleLeadsAstray` | frameworks/inner/c_adapter/ohos_bt_gatt_server.cpp:122-129 | a run of adds and deletes after which the application handle of an attribute leads to an older one |
| `ConnectionTable.AlwaysBijective` | frameworks/inner/c_adapter/ohos_bt_gatt_server.cpp:535-580 | after every run live ids and devices are in bijection and all ids are below the counter |
| `ConnectionTable.LookupsAreInverse` | frameworks/inner/c_adapter/ohos_bt_gatt_server.cpp:560-580 | id-to-device and device-to-id lookups are inverse |
| `ConnectionTable.IdLife` | frameworks/inner/c_adapter/ohos_bt_gatt_server.cpp:535-558 | an id keeps its device until a disconnection of that device is heard of and is never used again |
| `ConnectionTable.RecordedIff` | frameworks/inner/c_adapter/ohos_bt_gatt_server.cpp:248-277 | after every run a device is recorded exactly when a connection of it was heard of and no disconnection since |
| `ConnectionTable.SameIdIffSameSession` | frameworks/inner/c_adapter/ohos_bt_gatt_server.cpp:535-558 | two connections are reported under one id exactly when they are the same device and no disconnection of it was heard of in between |
| `ConnectionTable.Connections.GetConnIdByDeviceInfo` | frameworks/inner/c_adapter/ohos_bt_gatt_server.cpp:570-580 | returns the lowest id under which the device is recorded, or nothing |
| `ConnectionTable.Connections.AddDeviceRecord` | frameworks/inner/c_adapter/ohos_bt_gatt_server.cpp:535-552 | returns the known id of a recorded device, or records it under the counter |
| `ConnectionTable.Connections.OnConnectionStateUpdate` | frameworks/inner/c_adapter/ohos_bt_gatt_server.cpp:248-277 | records, reports and removes as the run specification says, and nothing while the application has set no callback |
| `GattClientRequests.ReachesStackIff` | frameworks/inner/src/bluetooth_gatt_client.cpp:811-910 | a call reaches the stack exactly when the adapter is on, the client connected and idle, the proxy there, and, where the call needs it, the client registered, the value present and the notification registered |
| `GattClientRequests.CodesMean` | frameworks/inner/src/bluetooth_gatt_client.cpp:1032-1126 | what each return code says about the state the call met |
| `GattClientRequests.AcceptedIsDelivered` | frameworks/inner/src/bluetooth_gatt_client.cpp:194-319 | the type recorded for an accepted request makes the callback by which the stack completes it deliver the result the application wants: both reads, descriptor read and write, default write, notification |
| `GattClientRequests.OtherCallbacksDeliverNothing` | frameworks/inner/src/bluetooth_gatt_client.cpp:194-319 | any other callback delivers nothing for it |
| `GattClientRequests.OtherCallsKeepType` | frameworks/inner/src/bluetooth_gatt_client.cpp:1032-1084 | a call that leaves the stack nothing to complete keeps the recorded type, unless it is an unsigned write |
| `GattClientRequests.CallbackEffects` | frameworks/inner/src/bluetooth_gatt_client.cpp:146-171 | completions clear the busy flag only, connection changes the two flags only on disconnection |
| `GattClientRequests.IssuedWhenIdle` | frameworks/inner/src/bluetooth_gatt_client.cpp:811-910 | only an idle, connected client hands a request to the stack, and a busy one is left unchanged by calls |
| `GattClientRequests.StepKeepsInv` | frameworks/inner/src/bluetooth_gatt_client.cpp:194-319 | every call, completion, loss and connection change keeps the flags in agreement with the stack and the books balanced |
| `GattClientRequests.OneRequestInFlight` | frameworks/inner/src/bluetooth_gatt_client.cpp:811-910 | in every run at most one request is in flight with the flag set meanwhile, every accepted request has ended or is the one in flight, and whichever ended with an answer gave the application the result it wanted |
| `GattClientRequests.CompletionReachesItsCallback` | frameworks/inner/src/bluetooth_gatt_client.cpp:194-319 | in every run a completion of a request delivers the result of that very request to the application, and the client is idle afterwards |
| `GattClientRequests.BusyExactly` | frameworks/inner/src/bluetooth_gatt_client.cpp:1032-1126 | the busy flag is set exactly while a request is in flight or one was lost since the last disconnection; without losses the two agree |
| `GattClientRequests.LostFlagIsExact` | frameworks/inner/src/bluetooth_gatt_client.cpp:578-583 | a loss has effect exactly until the next disconnection |
| `GattClientRequests.LossBlocksUntilDisconnect` | frameworks/inner/src/bluetooth_gatt_client.cpp:829-833 | after a loss no request is accepted until the link goes down |
| `GattClientRequests.LostRequestBlocks` | frameworks/inner/src/bluetooth_gatt_client.cpp:829-833 | a run in which a lost read makes the next request fail as busy with nothing in flight |
| `GattClientRequests.DisconnectedIsIdle` | frameworks/inner/src/bluetooth_gatt_client.cpp:146-171 | with one callback as one step, neither flag is set in any disconnected state of any run |
| `GattClientRequests.FailureLeavesMarkIff` | frameworks/inner/src/bluetooth_gatt_client.cpp:433-466 | a failing DiscoverServices leaves a new mark behind exactly when Bluetooth is on, the client connected, no mark stands, and it is not registered or has no proxy |
| `GattClientRequests.DiscoveryCodesMean` | frameworks/inner/src/bluetooth_gatt_client.cpp:433-466 | what each return code says about the state the call met, and that a refusal changes nothing |
| `GattClientRequests.GattClient.SimpleRequest` | frameworks/inner/src/bluetooth_gatt_client.cpp:811-910 | read and descriptor-write requests: same checks in the same order, same new state and code as the specification |
| `GattClientRequests.GattClient.WriteCharacteristic` | frameworks/inner/src/bluetooth_gatt_client.cpp:1032-1084 | the flag raised before the call and taken back on refusal amounts to raising it on acceptance |
| `GattClientRequests.GattClient.SetNotifyCharacteristicInner` | frameworks/inner/src/bluetooth_gatt_client.cpp:939-983 | waits for a completion only when there is a configuration descriptor to write |
| `GattClientRequests.GattClient.OnCompletion` | frameworks/inner/src/bluetooth_gatt_client.cpp:194-319 | clears the flag and delivers exactly when the recorded type belongs to the callback |
| `GattClientRequests.GattClient.OnConnectionStateChanged` | frameworks/inner/src/bluetooth_gatt_client.cpp:146-171 | a disconnection clears both flags |
| `GattClientRequests.GattClient.DiscoverServices` | frameworks/inner/src/bluetooth_gatt_client.cpp:748-767 | when the discovery flag is set, left set or taken back, and every return code |
| `Discovery.StepKeepsInv` | frameworks/inner/src/bluetooth_gatt_client.cpp:433-487 | every step of every thread keeps counts and alternation of both flags, reports, mutual exclusion and the disconnect windows |
| `Discovery.DiscoveryConservation` | frameworks/inner/src/bluetooth_gatt_client.cpp:433-487 | in every interleaving the mark was set as often as it was effectively cleared plus once if it stands, and each effective completion is reported once |
| `Discovery.DiscoveriesDoNotOverlap` | frameworks/inner/src/bluetooth_gatt_client.cpp:440-450 | between two settings of the mark lies an effective completion |
| `Discovery.CompletionsNeedADiscovery` | frameworks/inner/src/bluetooth_gatt_client.cpp:468-487 | an effective completion is preceded by a setting with only surplus completions in between |
| `Discovery.RequestsDoNotOverlap` | frameworks/inner/src/bluetooth_gatt_client.cpp:829-844 | in every interleaving an answer or a disconnect callback lowers the busy flag between two accepted requests |
| `Discovery.FlagsFollow` | frameworks/inner/src/bluetooth_gatt_client.cpp:146-171 | in every interleaving completions and the disconnect callback lower their flags, requests and discoveries raise them under the free connection lock while connected, and nothing else changes them |
| `Discovery.RefusedClears` | frameworks/inner/src/bluetooth_gatt_client.cpp:460-463 | a refused discovery clears its mark before it does anything else |
| `Discovery.FlagsWhileDisconnected` | frameworks/inner/src/bluetooth_gatt_client.cpp:146-171 | in a disconnected state the mark, and likewise the busy flag, stands exactly when it was set after the disconnect callback cleared it and before that callback wrote the state, and was not cleared since |
| `Discovery.MarkCanOutliveDisconnect` | frameworks/inner/src/bluetooth_gatt_client.cpp:156-164 | a run that ends disconnected with the mark standing |
| `Discovery.BusyCanOutliveDisconnect` | frameworks/inner/src/bluetooth_gatt_client.cpp:156-164 | a run that ends disconnected with the busy flag standing |
| `Discovery.MarkLeftBehindBlocks` | frameworks/inner/src/bluetooth_gatt_client.cpp:440-459 | after a discovery that could not ask the stack left its mark, no discovery starts until a completion or disconnect callback arrives |
| `Discovery.MarkIsLeftBehind` | frameworks/inner/src/bluetooth_gatt_client.cpp:452-459 | a run that ends connected, with no call in progress and the mark standing |
| `ServiceStart.StepKeepsInv` | frameworks/inner/src/bluetooth_profile_manager.cpp:98-284 | every step of registrations, listener and lookups, a missing ability manager included, keeps the map, the gate and, for every function, its calls and lookups in order |
| `ServiceStart.AvailableServiceIsNotMissed` | frameworks/inner/src/bluetooth_profile_manager.cpp:173-204 | in every interleaving, if the service is there from the last opening of the gate on and the ability manager and the host answer every lookup made for a function since then, that function ran once or twice for the start with a remote object |
| `ServiceStart.FoundStaysFound` | frameworks/inner/src/bluetooth_profile_manager.cpp:121-150 | an object once found is found by every lookup until the cache is cleared, whatever is answered |
| `ServiceStart.GateShutsIff` | frameworks/inner/src/bluetooth_profile_manager.cpp:104-116 | a step shuts the gate exactly when it is a lookup, with nothing cached, to which the manager answers that the service is missing |
| `ServiceStart.ShutGateStaysShut` | frameworks/inner/src/bluetooth_profile_manager.cpp:104-108 | behind a shut gate with nothing cached every lookup is turned away until the listener opens the gate, even when the service is back |
| `ServiceStart.UncachedLookupNeedsAll` | frameworks/inner/src/bluetooth_profile_manager.cpp:98-150 | with the gate open and nothing cached a lookup succeeds exactly when manager, service and, for a profile, the host answer |
| `ServiceStart.ListenerEffects` | frameworks/inner/src/bluetooth_profile_manager.cpp:183-229 | what each step of the listener does to flag, gate, cache and iteration |
| `ServiceStart.RegistrationEffects` | frameworks/inner/src/bluetooth_profile_manager.cpp:238-284 | what each step of registering and deregistering does: a function is looked up only if the service is on, and called only with the object found |
| `ServiceStart.DeregisteredIsNotCalled` | frameworks/inner/src/bluetooth_profile_manager.cpp:278-284 | a deregistered function is not called for a later start |
| `ServiceStart.NoMissedStart` | frameworks/inner/src/bluetooth_profile_manager.cpp:173-204 | in every interleaving a registered function ran once or twice with a remote object for a start once the listener is through, unless a lookup for this very function since the gate was opened was turned away |
| `ServiceStart.MissedExactly` | frameworks/inner/src/bluetooth_profile_manager.cpp:238-254 | it never ran with an object if and only if no lookup for it found one and one was turned away |
| `ServiceStart.UncalledExactly` | frameworks/inner/src/bluetooth_profile_manager.cpp:238-254 | it did not run at all if and only if the iteration had begun without it and no lookup for it found an object |
| `ServiceStart.ShutGateMeansMissingService` | frameworks/inner/src/bluetooth_profile_manager.cpp:104-116 | a function meets a shut gate only if some lookup found the service itself missing |
| `ServiceStart.NeverMoreThanTwice` | frameworks/inner/src/bluetooth_profile_manager.cpp:173-181 | no function runs more than twice for one start, runs with a null remote included, whatever the lookups do, and ids are never shared |
| `ServiceStart.NullLookupMissesStart` | frameworks/inner/src/bluetooth_profile_manager.cpp:248-252 | a run in which a lookup that finds no object leaves a registered function uncalled |
| `AdvertisingSlots.ReclaimMakesRoom` | frameworks/inner/c_adapter/ohos_bt_gatt.cpp:1637-1683 | when all slots are taken and the application claims fewer than seven ids, of whatever values, exactly the slots not among the claimed ids are freed and there is at least one |
| `AdvertisingSlots.UsableIff` | frameworks/inner/c_adapter/ohos_bt_gatt.cpp:1646-1653 | an answer is acted upon exactly when it claims 0 to 6 ids |
| `AdvertisingSlots.IsRpaIff` | frameworks/inner/c_adapter/ohos_bt_gatt.cpp:658-665 | a private address has 01 as the highest bits of its first byte and the random type |
| `AdvertisingSlots.SameAddrKeyIff` | frameworks/inner/c_adapter/ohos_bt_gatt.cpp:1535-1537 | different addresses have different keys in the quarantine |
| `AdvertisingSlots.UnheldAddressIsAccepted` | frameworks/inner/c_adapter/ohos_bt_gatt.cpp:1532-1540 | an address that none of the held records was made for is accepted and recorded |
| `AdvertisingSlots.AdvSlots.AllocateAdvHandle` | frameworks/inner/c_adapter/ohos_bt_gatt.cpp:1625-1635 | takes the lowest free slot with a callback of its own id and never touches an occupied one |
| `AdvertisingSlots.AdvSlots.CheckAdvIdInUse` | frameworks/inner/c_adapter/ohos_bt_gatt.cpp:1637-1672 | occupancy becomes the specified reclaim; kept slots keep their callback |
| `AdvertisingSlots.AdvSlots.CheckAndAllocateAdvHandle` | frameworks/inner/c_adapter/ohos_bt_gatt.cpp:1674-1683 | succeeds exactly when a slot was free or the answer claims fewer than seven ids |
| `AdvertisingSlots.AdvSlots.BleStartAdvWithAddr` | frameworks/inner/c_adapter/ohos_bt_gatt.cpp:681-739 | the slot invariant holds at release of the lock; status, slot, advertiser and quarantine follow address type, switch, room and quarantine verdict; a call that gets no slot leaves slots and quarantine alone |
| `AdvertisingSlots.AdvSlots.StartAdvAddrTimer` | frameworks/inner/c_adapter/ohos_bt_gatt.cpp:1532-1540 | sweeps the quarantine and asks about the printed address |
| `AdvertisingSlots.AdvSlots.BleStartAdvEx` | frameworks/inner/c_adapter/ohos_bt_gatt.cpp:775-821 | the slot invariant holds at release of the lock; status, slot and advertiser follow switch and room; if there was room no other slot changes |
| `AdvertisingSlots.AdvSlots.RunStartTask` | frameworks/inner/c_adapter/ohos_bt_gatt.cpp:808-817 | a failed start frees its slot and no other |
| `AdvertisingSlots.AdvSlots.ClearAdvertisingResource` | frameworks/inner/c_adapter/ohos_bt_gatt.cpp:1499-1518 | the slot is freed, and the advertiser goes exactly with the last slot |
| `AdvertisingSlots.AdvSlots.ClearGlobalResource` | frameworks/inner/c_adapter/ohos_bt_gatt.cpp:1520-1530 | all slots are free and the slot invariant holds |
| `AdvertisingSlots.AdvSlots.DifferentSlotsDiffer` | frameworks/inner/c_adapter/ohos_bt_gatt.cpp:1625-1635 | in every state different slots hold different callbacks |
| `AdvertiserCallbacks.AlwaysBijective` | frameworks/inner/src/bluetooth_ble_advertiser.cpp:59-124 | over every run the table is ordered, no callback sits under two handles, and 255 is not in use |
| `AdvertiserCallbacks.StepKeepsInv` | frameworks/inner/src/bluetooth_ble_advertiser.cpp:59-124 | every call and callback keeps this |
| `AdvertiserCallbacks.StartEffect` | frameworks/inner/src/bluetooth_ble_advertiser.cpp:419-440 | entry by entry, a start enters a new callback under a valid granted handle and leaves the others |
| `AdvertiserCallbacks.StopEffect` | frameworks/inner/src/bluetooth_ble_advertiser.cpp:59-112 | entry by entry, a failed start and a stop remove what is under the handle cut to 8 bits and nothing else |
| `AdvertiserCallbacks.AutoStopEffect` | frameworks/inner/src/bluetooth_ble_advertiser.cpp:114-124 | so does an automatic stop; the death of the service empties the table |
| `AdvertiserCallbacks.CloseEffect` | frameworks/inner/src/bluetooth_ble_advertiser.cpp:659-682 | entry by entry, closing removes what is under the handle of the callback cut to 8 bits; an unknown callback removes nothing |
| `AdvertiserCallbacks.PutKeepsInv` | frameworks/inner/include/bluetooth_observer_map.h:63-82 | registering a callback that is not in the table keeps this, also when its handle is taken |
| `AdvertiserCallbacks.HandleRoundTripIff` | frameworks/inner/include/bluetooth_observer_map.h:112-160 | the handle of a registered callback leads back to it if and only if it is between 0 and 254 |
| `AdvertiserCallbacks.DeregisterRemovesEveryTrace` | frameworks/inner/include/bluetooth_observer_map.h:84-99 | deregistering removes every entry of the callback and nothing else |
| `AdvertiserCallbacks.CloseRemovesIff` | frameworks/inner/src/bluetooth_ble_advertiser.cpp:659-682 | closing a callback removes it if and only if its handle is between 0 and 254 |
| `AdvertiserCallbacks.WideHandleClosesAnother` | frameworks/inner/src/bluetooth_ble_advertiser.cpp:672-680 | a run in which closing a callback under a handle above 255 removes another callback instead |
| `AdvertiserCallbacks.RegisteredIsReachable` | frameworks/inner/src/bluetooth_ble_advertiser.cpp:659-682 | over every run with granted handles in range a registered callback is found through its handle and removed by closing it |
| `AdvertiserCallbacks.ObserverMap.Register` | frameworks/inner/include/bluetooth_observer_map.h:63-82 | the callback is under the handle, replacing one that was there, and the order is kept |
| `AdvertiserCallbacks.ObserverMap.Deregister` | frameworks/inner/include/bluetooth_observer_map.h:84-99 | the first entry of the callback is removed; true exactly when there was one |
| `AdvertiserCallbacks.ObserverMap.PopAdvertiserObserver` | frameworks/inner/include/bluetooth_observer_map.h:132-146 | returns and removes the entry of the handle |
| `AdvertiserCallbacks.ObserverMap.GetAdvertiserHandle` | frameworks/inner/include/bluetooth_observer_map.h:112-130 | the 8-bit handle of the first entry of the callback, or 255 |
| `AdvertiserCallbacks.ObserverMap.GetAdvertiserObserver` | frameworks/inner/include/bluetooth_observer_map.h:148-160 | the callback under the handle, or nothing |
| `AdvertiserCallbacks.ObserverMap.IsExistAdvertiserCallback` | frameworks/inner/include/bluetooth_observer_map.h:174-193 | whether the callback is in the table, and its full handle |
| `AdvertiserCallbacks.BleAdvertiser.StartAdvertising` | frameworks/inner/src/bluetooth_ble_advertiser.cpp:419-440 | a callback that is not in the table is registered under the granted handle; one that is stays where it is |
| `AdvertiserCallbacks.BleAdvertiser.OnStartResultEvent` | frameworks/inner/src/bluetooth_ble_advertiser.cpp:59-75 | the result goes to the callback of the handle, which a failed start removes |
| `AdvertiserCallbacks.BleAdvertiser.OnAutoStopAdvEvent` | frameworks/inner/src/bluetooth_ble_advertiser.cpp:114-124 | the callback of the handle is deregistered |
| `AdvertiserCallbacks.BleAdvertiser.CloseCallback` | frameworks/inner/src/bluetooth_ble_advertiser.cpp:659-682 | the callback found through the 8-bit handle is deregistered |
| `GattTree.GattDescriptor.Copy` | frameworks/inner/src/bluetooth_gatt_descriptor.cpp:38-53 | equal contents in a buffer of its own |
| `GattTree.GattDescriptor.SetValue` | frameworks/inner/src/bluetooth_gatt_descriptor.cpp:96-105 | a non-empty value is copied into a new buffer, an empty one is ignored |
| `GattTree.GattCharacteristic.AddDescriptor` | frameworks/inner/src/bluetooth_gatt_characteristic.cpp:122-125 | every stored descriptor points to the characteristic, also after the vector grew; old contents are kept, the new descriptor is a copy with its own buffer |
| `GattTree.GattCharacteristic.Copy` | frameworks/inner/src/bluetooth_gatt_characteristic.cpp:56-78 | equal contents, descriptors pointing to the copy, all cells and buffers new |
| `GattTree.GattCharacteristic.Move` | frameworks/inner/src/bluetooth_gatt_characteristic.cpp:104-120 | old contents and buffers in new cells pointing to the new characteristic |
| `GattTree.OwnersSeparate` | frameworks/inner/src/bluetooth_gatt_characteristic.cpp:122-125 | back-pointers keep the descriptors of different characteristics apart |
| `GattTree.GattService.AddCharacteristic` | frameworks/inner/src/bluetooth_gatt_service.cpp:29-32 | every stored characteristic points to the service and its descriptors to it, also after the vector grew by copying; old contents are kept |
| `GattTree.GattService.AddDescriptorToLast` | frameworks/inner/c_adapter/ohos_bt_gatt_server.cpp:867-874 | a descriptor added through the last characteristic keeps the whole tree well formed and all other contents |
| `GattTree.GattService.AddService` | frameworks/inner/src/bluetooth_gatt_service.cpp:70-73 | the reference goes to the end of the included services |
| `GattTree.GattService.Copy` | frameworks/inner/src/bluetooth_gatt_service.cpp:42-54 | equal contents; all characteristics, descriptors and buffers are the copy's own and point into it |
| `GattTree.GattService.Move` | frameworks/inner/src/bluetooth_gatt_service.cpp:56-68 | old contents in new cells that point to the new service; a buffer is the old one or, after growth, a new one |
| `MacAddress.ParsePrint` | frameworks/inner/c_adapter/ohos_bt_adapter_utils.cpp:41-62 | parsing printed bytes gives them back, and exactly as many |
| `MacAddress.PrintAt` | frameworks/inner/c_adapter/ohos_bt_adapter_utils.cpp:41-50 | byte k is printed at position 3k as its two upper-case digits, the high one first, with a colon behind it |
| `MacAddress.DigitsAreUsual` | frameworks/inner/c_adapter/ohos_bt_adapter_utils.cpp:52-62 | the parser reads the sixteen digits in either case, the printer writes them in upper case |
| `MacAddress.SeparatorIsSkipped` | frameworks/inner/c_adapter/ohos_bt_adapter_utils.cpp:52-62 | the character behind a field is skipped, whatever it is |
| `MacAddress.Edges` | frameworks/inner/c_adapter/ohos_bt_adapter_utils.cpp:52-62 | colons before a field are skipped, and a text may end within a field or behind it |
| `MacAddress.OddFields` | frameworks/inner/c_adapter/ohos_bt_adapter_utils.cpp:57-57 | what fields with spaces, signs or other characters mean |
| `MacAddress.PrintParse` | frameworks/inner/c_adapter/ohos_bt_adapter_utils.cpp:41-62 | printing the parse of a well-formed upper-case text gives it back |
| `MacAddress.ValidIffPrinted` | frameworks/inner/src/bluetooth_host.cpp:872-894 | the validator accepts exactly the strings the printer produces for six bytes |
| `MacAddress.GetAddrFromString` | frameworks/inner/c_adapter/ohos_bt_adapter_utils.cpp:52-62 | the loop writes exactly the parsed bytes and leaves the rest of the buffer alone |
| `MacAddress.FieldsFit` | frameworks/inner/c_adapter/ohos_bt_adapter_utils.cpp:52-62 | a text of n characters has at most (n + 2) / 3 fields, so up to 18 characters fit the buffer of six |
| `MacAddress.IsValidBluetoothAddr` | frameworks/inner/src/bluetooth_host.cpp:872-894 | true exactly for 17 characters with colons in every third place and upper-case digits elsewhere |
| `LocalNameAd.ParseAppended` | frameworks/inner/c_adapter/ohos_bt_gatt.cpp:758-760 | an element appended to a well-formed payload is parsed as its last element |
| `LocalNameAd.NameIsAppended` | frameworks/inner/c_adapter/ohos_bt_gatt.cpp:748-761 | a well-formed payload gains exactly one name element or is unchanged, and never grows past the legacy limit |
| `LocalNameAd.AppendLocalName` | frameworks/inner/c_adapter/ohos_bt_gatt.cpp:748-761 | the name element is appended exactly when the result fits |
| `ObjectMap.AddYieldsObjectIff` | frameworks/inner/include/bluetooth_object_map.h:35-43 | in every run of both kinds of addition and of removals, the number returned leads to the object exactly when it was free or stood for an equal object, in particular for the first maxSize additions whose number AddLimitedObject did not give out |
| `ObjectMap.LapKeepsTheOldObject` | frameworks/inner/include/bluetooth_object_map.h:35-43 | a run in which the third of three additions is given the number of the first, whose object stays |
| `ObjectMap.FirstLap` | frameworks/inner/include/bluetooth_object_map.h:35-43 | before the counter has gone round all numbers in use are below the next one or were given out by AddLimitedObject |
| `ObjectMap.StepEffects` | frameworks/inner/include/bluetooth_object_map.h:35-93 | number by number, removals free exactly theirs, additions free none and overwrite none |
| `ObjectMap.LimitedTakesTheNumber` | frameworks/inner/include/bluetooth_object_map.h:35-43 | a run in which AddObject meets a number that AddLimitedObject gave out |
| `ObjectMap.BluetoothObjectMap.AddObject` | frameworks/inner/include/bluetooth_object_map.h:35-43 | the number comes from the counter; an object already under it stays |
| `ObjectMap.BluetoothObjectMap.AddLimitedObject` | frameworks/inner/include/bluetooth_object_map.h:79-93 | -1 exactly when the numbers 1 to maxSize - 1 are taken, otherwise the lowest free one, which then holds the object |

## Left out

- The profile wrappers (A2DP, AVRCP, HFP, HID, PAN, PBAP, MAP, OPP, BAS, audio, remote device): checks
  followed by one call into the service.
- The pending-request set of the GATT server (`frameworks/inner/src/bluetooth_gatt_server.cpp`): its
  ordering is not a strict weak order, so the behaviour of the set is not defined by the code.
- Copy and move assignment of GATT objects: they keep the source's back-pointers, so there is no
  invariant to state.
- The lookups by UUID in the GATT tree: easy members.
- Stack handles that stay in the list after `BleGattsStopService`: the code keeps no invariant there, so
  exact translation is stated for lists without stack handles.
- The application-type map, timer ids, `BleStopAdv` and the enable and disable calls of advertising sets.
- Queued start tasks after the advertiser was cleared: only their effect on the slots is modelled.
- `GetAdvertiserTotalBytes`, the Bluetooth switch, scanning, sockets, IPC, logging and UUID parsing: a
  UUID is a number, or nothing when its text is malformed.
- The functions registered for switching Bluetooth Low Energy on and off in the profile manager.
- ConnectionTable.Connections.AddDeviceRecord: the counter is unbounded, so 32-bit overflow of the
  connection ids is not modelled.
- GattServerTables.GattServers.BleGattsAddCharacteristic: the tree and the list are extended in one
  step, while the code takes the lock twice; interleaved adds and deletes on one slot are not covered.
- GattServerTables.GattServers.BleGattsAddDescriptor: one step, as for characteristics.
- GattServerTables.GattServers.OnServiceAdded: one step, while the code takes the lock once for each lookup.
- AdvertiserCallbacks.BleAdvertiser.StartAdvertising: one step, so two concurrent starts of one callback
  are not covered.
- GattClientRequests.GattClient.DiscoverServices: a call that finds a discovery under way gives up at
  once instead of waiting for up to ten seconds; a wait that succeeds is a completion followed by the
  call, and interleavings of waiting threads are covered in `Discovery.dfy`.
- GattClientRequests.DisconnectedIsIdle: takes the disconnect callback as one step;
  `Discovery.FlagsWhileDisconnected` states what holds with its critical sections apart.
- GattTree.GattService.Move: says nothing about what the moved-from service still holds.
- MacAddress.GetAddrFromString: asks that the buffer has a place for every field of the text; the code
  relies on its callers for this, and `FieldsFit` bounds the fields by the length of the text.
