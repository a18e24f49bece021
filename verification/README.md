# Verified models of the GPS stack and the recovery updater

Dafny models of the parts of this device tree that carry real algorithms: the pattern search of the
recovery updater and the state machines, codecs and data structures of the GPS HAL. Each part is a
specification on values, the source's own loops and field updates proved to follow it, and theorems
about every input or every run. `dafny verify dfyconfig.toml` checks everything.

| file | models |
|---|---|
| `BoyerMoore.dfy` | `recovery/recovery_updater.cpp`: both skip tables and the search |
| `LocHeap.dfy` | `gps/utils/LocHeap.cpp`: the pointer heap, and what it is as a priority multiset |
| `Agps.dfy`, `AgpsRuns.dfy`, `AgpsTable.dfy`, `AgpsManager.dfy` | `gps/gnss/Agps.cpp`: the data-connection state machine, its runs, its transition table, and the manager over two machines |
| `LocIpc.dfy`, `LocIpcDelivery.dfy`, `LocIpcExact.dfy` | `gps/utils/LocIpc.cpp`: message fragmentation and reassembly, and exactly which messages survive it |
| `Tracking.dfy`, `TrackingRuns.dfy`, `TrackingSessions.dfy`, `TrackingEngine.dfy` | `gps/gnss/GnssAdapter.cpp`: the time-based tracking multiplexer, the sessions it holds and what it asks of the engine |
| `SvBlacklist.dfy` | `gps/gnss/GnssAdapter.cpp`: satellite blacklists as masks and as lists |
| `Odcpi.dfy` | `gps/gnss/GnssAdapter.cpp`: the on-demand position timer |
| `Geofence.dfy`, `GeofenceRuns.dfy`, `GeofenceEffects.dfy` | `gps/geofence/GeofenceAdapter.cpp`: the double index, its asynchronous engine, and what commands come to |
| `Trips.dfy`, `TripRuns.dfy`, `TripTargets.dfy`, `TripIntervals.dfy`, `TripSchedule.dfy` | `gps/batching/BatchingAdapter.cpp`: trip distances over batch restarts, what a restart is for, and the runs that achieve it |
| `AdapterTable.dfy` | `gps/core/LocApiBase.cpp`: the adapter table |
| `SortedMaps.dfy`, `Wrappers.dfy` | maps in key order, optional values, sequence facts |

Messages are handled one at a time. The engine, the framework, timers and sockets are an environment
that may act at any moment within the assumptions stated with each theorem; callbacks and engine
requests are recorded in the order they are made.

## What turned out false of the code

Each of these is kept as the code has it, with a concrete input and the exact condition for success.

- The search skips occurrences of patterns with a proper border: line 82 of the updater tests the
  suffix at `p` and line 83 records `p + 1`. It is correct for every text exactly for patterns without
  a proper border and for repetitions of one character (`CorrectIffUnborderedOrConstant`). The one
  pattern the updater searches for has no border.
- A short IPC message that begins with the header text or reads as the abort string, and a long one
  whose header does not fit a datagram, does not arrive as itself; a sequence arrives as sent exactly
  when it has no such message (`DeliversExactlyIff`).
- Where distance-based tracking is unsupported, giving a time-based session a distance can leave it
  without an engine fast enough for it (`UnsupportedStepIff`). Where it is supported, an update may
  leave the engine faster than any session asks for (`UpdateStaysMinimalIff`, `SlowedUnnoticed`).
- A faster session leaves the engine above the lowest power mode asked for, unless it is below the others
  itself or the lead session has their lowest (`PowerIff`, `PowerIsMissed`). The scan for that mode takes an
  unset one for "none yet" (`PowerScanIff`).
- A blacklist mask with a bit above 30 that is not all ones depends on a shift the language leaves
  undefined (`RoundTripIff`).
- A hardware id that is given out again while an earlier removal of it is still unanswered makes a
  client's geofence entry dangle (`GrantIsSafeIff`, `ReuseBreaksIndex`).
- A trip that joins and restarts the batch makes other trips forget what they travelled since their
  distance was last computed (`JoinKeepsIff`, `StaleJoinLoses`); so does one whose distance query fails
  (`FailedJoinKeepsIff`, `FailedJoinLoses`).
- A restarted batch can run past the end of a trip, for three reasons: a restart for the interval alone
  keeps the whole old distance (`OverrunHappens`), a restart when a trip leaves takes its new distance
  from what the others had left at the latest report (`OutdatedHappens`), and a restart for a trip whose
  distance query failed takes the whole old distance or the whole new one (`UnansweredOverruns`). In the
  runs described by `RunOnTimeIff` there is no fourth one (see also `DepartureInTimeIff`).
- The scan for the shortest interval takes 0 for "none yet" and so can miss a trip that asked for 0
  (`IntervalScanIff`, `ZeroIsMissed`).

Where comments and code disagree the model follows the code: `mSize` of a heap node counts the node
itself (`LocHeap.cpp` 34 says it does not); heap removal looks for the same object, not for an equal
rank (`LocHeap.h` 84-85); an AGPS subscriber that waits for the close is not notified when it goes
inactive (`Agps.cpp` 120-122), and one told of an open success stays listed (`Agps.h` 128-130).

## Model

| member | source | states |
|---|---|---|
| BoyerMoore.MaxSuffixLen | recovery/recovery_updater.cpp:51-59 | the number of characters, short of `p`, for which the text ending at `p` agrees with the end of the string, and why it stopped there |
| BoyerMoore.MakeDelta1 | recovery/recovery_updater.cpp:64-73 | every entry is the distance from the last character to the closest earlier occurrence of that character |
| BoyerMoore.LastIndexBelowIsLast | recovery/recovery_updater.cpp:69-72 | no later occurrence exists than the one the bad-character entry is measured from |
| BoyerMoore.MakeDelta2 | recovery/recovery_updater.cpp:76-95 | every entry is the good-suffix distance of its mismatch position |
| BoyerMoore.FillPrefixRule | recovery/recovery_updater.cpp:77-86 | the first loop leaves every entry at the prefix rule |
| BoyerMoore.FillGoodSuffix | recovery/recovery_updater.cpp:88-94 | the second loop turns that into the good-suffix distance, farthest re-occurrences first |
| BoyerMoore.GoodSuffixShiftMeaning | recovery/recovery_updater.cpp:88-94 | that distance is the closest earlier re-occurrence of the matched suffix behind a different character, or the prefix rule when there is none |
| BoyerMoore.PrefixShiftMeaning | recovery/recovery_updater.cpp:80-86 | the prefix rule is one more than the closest `strncmp` hit at or after the mismatch, or the pattern length less one |
| BoyerMoore.PrefixHitIsBorder | recovery/recovery_updater.cpp:82 | for a NUL-free pattern `strncmp` finds exactly the suffixes that are prefixes |
| BoyerMoore.ReoccursIsMaxSuffix | recovery/recovery_updater.cpp:90-93 | the suffix after `j` re-occurs behind a different character exactly where `max_suffix_len` stops at it, so each step of the loop accounts for one distance completely |
| BoyerMoore.BadCharacterSafe | recovery/recovery_updater.cpp:69-72 | no occurrence starts at an alignment the bad-character distance passes, for every pattern |
| BoyerMoore.GoodSuffixSkip | recovery/recovery_updater.cpp:80-94 | an occurrence the good-suffix distance passes starts beyond the mismatch and is a border of the pattern, for every pattern |
| BoyerMoore.AdvanceSafe | recovery/recovery_updater.cpp:112-120 | for an unbordered or constant pattern, NULs or not, no occurrence starts strictly between an alignment and the one the larger table entry leads to |
| BoyerMoore.Search | recovery/recovery_updater.cpp:97-124 | for every non-empty pattern all reads are in bounds, `i` stays a 32-bit int, the loop ends and a result is an occurrence; for unbordered or constant ones it is the leftmost, and none means there is none |
| BoyerMoore.SearchLoop | recovery/recovery_updater.cpp:110-123 | the loop over both tables visits exactly the alignments of the specification |
| BoyerMoore.CompareBack | recovery/recovery_updater.cpp:112-116 | the right-to-left comparison stops at the last mismatch of the alignment, or before it when all agrees |
| BoyerMoore.SearchSound | recovery/recovery_updater.cpp:117-119 | a reported position is an occurrence, for every non-empty pattern |
| BoyerMoore.SearchComplete | recovery/recovery_updater.cpp:97-124 | the search from any alignment finds the first occurrence from there on, for unbordered or constant patterns |
| BoyerMoore.SkippedTextMissed | recovery/recovery_updater.cpp:82-85 | every other bordered pattern occurs in a text in which the search does not find it |
| BoyerMoore.CorrectIffUnborderedOrConstant | recovery/recovery_updater.cpp:97-124 | a non-empty NUL-free pattern is searched correctly in all texts if and only if it has no proper border or repeats one character |
| BoyerMoore.ModemSearchIsExact | recovery/recovery_updater.cpp:44-45 | the version marker is found at its first occurrence in any data, or reported missing exactly when it is |
| BoyerMoore.ModemPatternIsSpelled | recovery/recovery_updater.cpp:44-45 | the bytes of the version marker, as text |
| HeapTree.CheckedIffHeapOrdered | gps/utils/LocHeap.cpp:197-220 | the neighbour-by-neighbour check accepts exactly the trees in which every node ranks highest in its subtree and stores its true size |
| HeapTree.PushContents | gps/utils/LocHeap.cpp:107-124 | a push adds exactly the pushed element |
| HeapTree.PushChecked | gps/utils/LocHeap.cpp:107-124 | a push keeps heap order and every stored size |
| HeapTree.PopTakesHighest | gps/utils/LocHeap.cpp:134-164 | a pop removes exactly the top, which nothing in the heap outranks, and keeps order and sizes |
| HeapTree.RemoveIsComplete | gps/utils/LocHeap.cpp:170-193 | the pruned search deletes one node holding the object if and only if there is one, and keeps order and sizes |
| HeapTree.DrainSorts | gps/utils/LocHeap.cpp:245-254 | popping until empty lists the contents with their multiplicities, highest rank first |
| HeapTree.PushesKeepBalance | gps/utils/LocHeap.cpp:107-124 | in a heap built by pushes every left subtree is as large as the right one or larger by one |
| HeapTree.PushedHeightIsLogarithm | gps/utils/LocHeap.cpp:107-124 | a heap of n pushed elements has height floor(log2 n) + 1 |
| HeapTree.StepRefines | gps/utils/LocHeap.cpp:228-267 | each operation answers and changes the contents as a priority multiset does |
| HeapTree.RunRefines | gps/utils/LocHeap.cpp:228-267 | every sequence of push, pop, peek and remove answers as a priority multiset and keeps the check true |
| LocHeap.LocHeapNode.Swap | gps/utils/LocHeap.cpp:88-92 | only the data of the two nodes is exchanged |
| LocHeap.LocHeapNode.Push | gps/utils/LocHeap.cpp:107-124 | the node joins the tree, whose new shape is the push of the specification |
| LocHeap.LocHeapNode.PopNode | gps/utils/LocHeap.cpp:134-164 | a leaf node carrying the top's data leaves the tree; the caller's reference becomes null exactly when the tree is empty |
| LocHeap.LocHeapNode.RemoveNode | gps/utils/LocHeap.cpp:170-193 | the node found leaves the tree with the object, or null is returned and no node has changed |
| LocHeap.LocHeapNode.CheckNodes | gps/utils/LocHeap.cpp:197-220 | the answer is the local check of the whole subtree |
| LocHeap.LocHeap.Push | gps/utils/LocHeap.cpp:228-235 | the contents grow by the object and the heap stays valid |
| LocHeap.LocHeap.Peek | gps/utils/LocHeap.cpp:237-243 | an object nothing outranks, or null exactly when the heap is empty |
| LocHeap.LocHeap.Pop | gps/utils/LocHeap.cpp:245-254 | an object nothing outranks is taken out, or null exactly when the heap is empty |
| LocHeap.LocHeap.Remove | gps/utils/LocHeap.cpp:256-267 | the object is returned and one entry of it deleted if there is one; otherwise null and nothing has changed |
| LocHeap.LocHeap.CheckTree | gps/utils/LocHeap.cpp:270-272 | the test holds in every heap its operations can produce |
| AgpsMachine.AgpsStateMachine.constructor | gps/gnss/Agps.h:157-162 | a new machine is released and lists nobody |
| AgpsMachine.AgpsStateMachine.ProcessAgpsEvent | gps/gnss/Agps.cpp:41-71 | each event changes state and list, and makes the calls, of its own transition |
| AgpsMachine.AgpsStateMachine.ProcessSubscribe | gps/gnss/Agps.cpp:73-107 | new state, list and calls of a subscription in each state |
| AgpsMachine.AgpsStateMachine.ProcessUnsubscribe | gps/gnss/Agps.cpp:109-171 | new state, list and calls when a subscriber leaves, waiting for the close or not |
| AgpsMachine.AgpsStateMachine.ProcessGranted | gps/gnss/Agps.cpp:173-194 | a grant counts in PENDING only and reaches the active subscribers |
| AgpsMachine.AgpsStateMachine.ProcessReleased | gps/gnss/Agps.cpp:196-241 | a release ends ACQUIRED for all, and RELEASING for the inactive ones |
| AgpsMachine.AgpsStateMachine.ProcessDenied | gps/gnss/Agps.cpp:243-283 | a denial ends PENDING for all, and RELEASING for the inactive ones |
| AgpsMachine.AgpsStateMachine.NotifyAllSubscribers | gps/gnss/Agps.cpp:310-343 | calls to the matching subscribers in list order; erasing under the iterator leaves exactly the others, in order |
| AgpsRuns.NotifiedMeaning | gps/gnss/Agps.cpp:310-343 | a notification reaches each matching subscriber exactly once and nobody else |
| AgpsMachine.AgpsStateMachine.NotifyEventToSubscriber | gps/gnss/Agps.cpp:345-380 | one callback by kind of event, and the subscriber's removal on request |
| AgpsMachine.AgpsStateMachine.AddSubscriber | gps/gnss/Agps.cpp:392-411 | a handle already listed is not listed twice |
| AgpsMachine.AgpsStateMachine.DeleteSubscriber | gps/gnss/Agps.cpp:413-430 | every entry with the handle goes, the others keep their order |
| AgpsMachine.AgpsStateMachine.AnyActiveSubscribers | gps/gnss/Agps.cpp:432-442 | true exactly when an active subscriber is listed |
| AgpsMachine.AgpsStateMachine.GetSubscriber | gps/gnss/Agps.cpp:465-478 | the first entry with the handle, or null when there is none |
| AgpsMachine.AgpsStateMachine.DropAllSubscribers | gps/gnss/Agps.cpp:495-506 | the list is emptied and the state kept |
| AgpsRuns.CallbacksAreWellFormed | gps/gnss/Agps.cpp:73-380 | in every run a client hears a prefix of open-success then close, or one open-failure, or one close |
| AgpsRuns.StepKeeps | gps/gnss/Agps.cpp:73-283 | every step keeps the invariant over list, state and what each client was told, and tells each removed subscriber its one terminal callback |
| AgpsRuns.RemovalsAreTold | gps/gnss/Agps.cpp:73-283 | in every run a removal other than by a modem restart comes with exactly one callback: open-failure when a denial meets PENDING, close otherwise |
| AgpsRuns.ListMatchesState | gps/gnss/Agps.cpp:73-283 | in every run handles are distinct, RELEASED lists nobody, active subscribers were granted in ACQUIRED and not in PENDING or RELEASING |
| AgpsRuns.PopulatedWithoutRestart | gps/gnss/Agps.cpp:73-283 | without modem restarts PENDING and ACQUIRED have an active subscriber and RELEASING an inactive one |
| AgpsRuns.PopulatedStepIff | gps/gnss/Agps.cpp:73-283 | a step takes away the subscriber a state needs if and only if it is a modem restart outside RELEASED |
| AgpsRuns.RestartUnpopulates | gps/gnss/Agps.cpp:664-675 | a run in which a restart leaves PENDING without any subscriber |
| AgpsRuns.OutstandingIffWanted | gps/gnss/Agps.cpp:73-308 | in every run a data-connection request is outstanding exactly in PENDING and ACQUIRED |
| AgpsRuns.ConnCallsAlternate | gps/gnss/Agps.cpp:73-308 | requests are sent only while none is outstanding, releases only while one is |
| AgpsRuns.RequestsAreSeparated | gps/gnss/Agps.cpp:73-308 | between two requests lies a release, a denial taken in PENDING or a forced release taken in ACQUIRED |
| AgpsTable.TransitionTable | gps/gnss/Agps.cpp:73-380 | in every state, what each event tells each handle, how it leaves that handle listed, and the state it goes to |
| AgpsTable.ConnExactly | gps/gnss/Agps.cpp:73-308 | the connection is requested once when a step begins to want it, released once when a client's release ends that, and nothing else is asked of the framework |
| AgpsTable.RunsAreProper | gps/gnss/Agps.cpp:73-283 | every run reaches only machines the table speaks of |
| AgpsOrder.ListedInOrder | gps/gnss/Agps.cpp:392-430 | in every run the subscribers are listed in the order in which they asked |
| AgpsOrder.ToldInOrder | gps/gnss/Agps.cpp:310-343 | in every run each event tells its clients in the order in which they asked |
| AgpsManager.AgpsManager.constructor | gps/gnss/Agps.h:242-244 | a new manager has no machine |
| AgpsManager.AgpsManager.CreateAgpsStateMachines | gps/gnss/Agps.cpp:514-535 | the machines asked for that do not exist yet are added, released and empty; the others are as they were |
| AgpsManager.AgpsManager.GetAgpsStateMachine | gps/gnss/Agps.cpp:537-561 | SUPL, emergency SUPL and unknown types share one machine, all others the other |
| AgpsManager.AgpsManager.RequestATL | gps/gnss/Agps.cpp:563-597 | the request reaches the machine of its effective type, or is refused with an open-failure |
| AgpsManager.AgpsManager.ReleaseATL | gps/gnss/Agps.cpp:599-625 | the machine that lists the handle, AGNSS first, handles the release; an unknown handle changes nothing |
| AgpsManager.AgpsManager.Report | gps/gnss/Agps.cpp:627-662 | a framework report steps exactly the machine of its type |
| AgpsManager.AgpsManager.HandleModemSSR | gps/gnss/Agps.cpp:664-675 | both lists are dropped silently, both states kept |
| AgpsManagerModel.MStepKeeps | gps/gnss/Agps.cpp:563-675 | every manager step keeps both machines' invariants over their one shared history, no handle listed by both |
| AgpsManagerModel.ManagerCallbacksAreWellFormed | gps/gnss/Agps.cpp:563-675 | in every manager run each client hears a well-formed sequence across both machines |
| ManagerTable.ClientTable | gps/gnss/Agps.cpp:563-675 | what each manager step tells each client, by kind of connection; a request no machine serves is refused, a handle no machine lists hears nothing |
| ManagerTable.MachinesGo | gps/gnss/Agps.cpp:514-675 | each step leaves either machine alone or takes it through the transition table with the event meant for its kind, and creates only what is missing |
| ManagerTable.WhoIsServed | gps/gnss/Agps.cpp:514-597 | which kinds are served once the machines are created |
| ManagerTable.ManagersAreProper | gps/gnss/Agps.cpp:563-675 | a manager that keeps its invariant, as every manager run does, is one these tables speak of |
| LocIpc.Sock.Send | gps/utils/LocIpc.cpp:63-68 | an empty buffer is refused, any other is put on the wire as its fragments |
| LocIpc.Sock.SendTo | gps/utils/LocIpc.cpp:79-96 | a short message is one datagram, a longer one a length header and chunks that make it up; the count returned |
| LocIpc.Sock.RecvFrom | gps/utils/LocIpc.cpp:97-127 | what one receive takes off the wire, hands to the listener and returns, for any datagrams |
| LocIpc.Sock.ListenAll | gps/utils/LocIpc.cpp:334-344 | receiving goes on while calls return a positive count |
| LocIpcDelivery.ScanSizeToString | gps/utils/LocIpc.cpp:85-112 | `sscanf` reads back the length `to_string` wrote, behind it the NUL padding of the buffer |
| LocIpcDelivery.ScanForms | gps/utils/LocIpc.cpp:111-112 | what else `sscanf` takes for a length: signs, with wrap-around and saturation, and leading blanks |
| LocIpcDelivery.CollectChunks | gps/utils/LocIpc.cpp:88-121 | the chunks of a message put it together again, leaving what follows |
| LocIpcDelivery.ChunksFit | gps/utils/LocIpc.cpp:88-91 | every chunk fits a datagram and each but the last fills it |
| LocIpcDelivery.MarkersAreSpelled | gps/utils/LocIpc.cpp:61-62 | the bytes of the header and abort markers, as text |
| LocIpcDelivery.ReceiveFragments | gps/utils/LocIpc.cpp:79-127 | one receive call consumes exactly the datagrams of one message and delivers it |
| LocIpcDelivery.DeliversExactly | gps/utils/LocIpc.cpp:79-127 | any sequence of deliverable messages arrives, whole and in order |
| LocIpcDelivery.DeliveredIsPrefix | gps/utils/LocIpc.cpp:79-127 | whatever part of the datagrams has been sent so far, a prefix of the messages has arrived |
| LocIpcDelivery.AbortStops | gps/utils/LocIpc.cpp:128-130 | an abort stops listening after everything sent before it and before anything after it |
| LocIpcDelivery.EmptyStops | gps/utils/LocIpc.cpp:100-126 | an empty datagram, between messages or in the middle of one, stops listening after the whole messages before it |
| LocIpcDelivery.DeliveredAloneIff | gps/utils/LocIpc.cpp:79-127 | a message arrives as itself if and only if it is short and no header or abort look-alike, or long with a header that fits |
| LocIpcExact.ScanNeeds | gps/utils/LocIpc.cpp:111-112 | a text the receiver scans as a 32-bit number, with whatever blanks, sign or leading zeros, is no shorter than the number written by `to_string` |
| LocIpcExact.ListenIsPaid | gps/utils/LocIpc.cpp:97-127 | whatever a receiver delivers from any datagrams has used up its own bytes, and a header more unless it passed as it was |
| LocIpcExact.DeliversExactlyIff | gps/utils/LocIpc.cpp:79-127 | any sequence of non-empty messages of 32-bit length arrives as sent if and only if each of them is deliverable |
| Tracking.GnssAdapter.ScanSessions | gps/gnss/GnssAdapter.cpp:2697-2712 | the options with the smallest interval and the lowest power mode of the other sessions |
| TrackingRuns.SmallestIsMin | gps/gnss/GnssAdapter.cpp:2697-2704 | the scan's interval is the minimum of the sessions scanned |
| Tracking.GnssAdapter.StartTimeBasedTrackingMultiplex | gps/gnss/GnssAdapter.cpp:2455-2505 | when a new session changes the engine, and to what |
| Tracking.GnssAdapter.UpdateTrackingMultiplex | gps/gnss/GnssAdapter.cpp:2676-2738 | when an updated session changes the engine, and to what |
| Tracking.GnssAdapter.StopTimeBasedTrackingMultiplex | gps/gnss/GnssAdapter.cpp:2793-2842 | when a leaving session stops or changes the engine, and to what |
| Tracking.GnssAdapter.SaveTrackingSession | gps/gnss/GnssAdapter.cpp:2285-2297 | a session with a distance is distance-based only where that is supported |
| Tracking.GnssAdapter.EraseTrackingSession | gps/gnss/GnssAdapter.cpp:2299-2313 | the session leaves the map it is in, the time-based one first |
| Tracking.GnssAdapter.StartTracking | gps/gnss/GnssAdapter.cpp:2401-2447 | validation, interval clamp, power fallback and the path taken |
| Tracking.GnssAdapter.UpdateTracking | gps/gnss/GnssAdapter.cpp:2580-2670 | the four kinds of update and the refusals |
| Tracking.GnssAdapter.StopTracking | gps/gnss/GnssAdapter.cpp:2759-2787 | the session leaves and the engine follows |
| Tracking.GnssAdapter.RestartSessions | gps/gnss/GnssAdapter.cpp:2145-2184 | the engine restarts at the smallest interval of all time-based sessions, and every distance-based one is requested again |
| TrackingRuns.EngineServesEverySession | gps/gnss/GnssAdapter.cpp:2401-2842 | with distance tracking supported, in every run the engine runs if and only if a time-based session exists, at 100 ms or more and no slower than any session asked |
| TrackingRuns.ServedIffSupported | gps/gnss/GnssAdapter.cpp:2607-2621 | this holds of all runs if and only if distance tracking is supported |
| TrackingRuns.UnsupportedStepIff | gps/gnss/GnssAdapter.cpp:2607-2621 | without support a step fails a session exactly when it gives a time-based one a distance and that one is alone, or wants fixes more often than the best other if it led, or than the engine if it did not |
| TrackingRuns.UnsupportedRunsServe | gps/gnss/GnssAdapter.cpp:2401-2842 | without support, runs that avoid such updates serve every session |
| TrackingRuns.IntervalIsMinimal | gps/gnss/GnssAdapter.cpp:2455-2505 | in runs without updates the interval is exactly the minimum |
| TrackingRuns.UpdateStaysMinimalIff | gps/gnss/GnssAdapter.cpp:2676-2738 | an update keeps the interval at the minimum if and only if it is not one that slows down the lone fastest session unnoticed |
| TrackingRuns.TwoSessionsAreReached | gps/gnss/GnssAdapter.cpp:2401-2505 | two starts lead to the state the next row starts from |
| TrackingRuns.SlowedUnnoticed | gps/gnss/GnssAdapter.cpp:2713-2733 | an update after which the engine goes on at 1000 although the shortest interval asked for is 2000 |
| TrackingSessions.StopErases | gps/gnss/GnssAdapter.cpp:2759-2787 | a stop takes the session out of both maps and leaves every other as it is |
| TrackingSessions.SessionsAreHeld | gps/gnss/GnssAdapter.cpp:2401-2787 | in every run both maps hold exactly the sessions started and not stopped since, each in the map of its kind with the adjusted options of its last start or update |
| TrackingEngine.ScansFind | gps/gnss/GnssAdapter.cpp:2697-2712 | the scans find the first of the fastest other sessions, and their smallest power mode |
| TrackingEngine.PowerScanIff | gps/gnss/GnssAdapter.cpp:2705-2711 | for any power modes, the scan finds the smallest of the others if and only if none of them is unset or the last one is |
| TrackingEngine.StartAsks | gps/gnss/GnssAdapter.cpp:2455-2505 | a start beside others is answered at once exactly when they cover it; otherwise the engine gets the lead session's options adjusted to it |
| TrackingEngine.UpdateAsks | gps/gnss/GnssAdapter.cpp:2676-2738 | likewise for an update of one of several sessions, answered at once also when interval and power stay |
| TrackingEngine.StopAsks | gps/gnss/GnssAdapter.cpp:2793-2842 | a stop is answered at once exactly when the others cover the session; otherwise the engine gets the lead of the others at their smallest power mode |
| TrackingEngine.LoneAsks | gps/gnss/GnssAdapter.cpp:2455-2842 | a lone session has the engine to itself, and its stop stops the engine |
| TrackingEngine.PowerIff | gps/gnss/GnssAdapter.cpp:2483-2497 | what a start or update asks for is at the smallest power mode of all if and only if the newcomer is below the others or the lead session has their lowest |
| TrackingEngine.PowerIsMissed | gps/gnss/GnssAdapter.cpp:2483-2497 | a start after which the engine runs at power mode 3 although a session asked for 1 |
| TrackingEngine.RestartAsks | gps/gnss/GnssAdapter.cpp:2153-2176 | after an engine restart the location options are the lead session's and the power mode the smallest asked for |
| SvBlacklist.ConvertToGnssSvIdConfig | gps/gnss/GnssAdapter.cpp:1441-1506 | the masks and the validity flag of a list; an empty list clears all masks |
| SvBlacklist.ConvertGnssSvIdMaskToList | gps/gnss/GnssAdapter.cpp:1538-1563 | one entry per set bit in order, or id 0 for all |
| SvBlacklist.ConvertFromGnssSvIdConfig | gps/gnss/GnssAdapter.cpp:1508-1536 | the four constellations' entries are appended in turn |
| SvBlacklist.AddSourcesBits | gps/gnss/GnssAdapter.cpp:1457-1494 | a mask bit ends up set exactly when it was set or some entry sets it |
| SvBlacklist.OrderIrrelevant | gps/gnss/GnssAdapter.cpp:1457-1494 | lists with the same entries, in any order and repetition, give the same masks |
| SvBlacklist.PortableRoundTrips | gps/gnss/GnssAdapter.cpp:1441-1563 | masks that are all ones or use bits 0 to 30 survive the round trip, whatever wider shifts do |
| SvBlacklist.RoundTripIff | gps/gnss/GnssAdapter.cpp:1491 | the round trip is the identity whatever wider shifts do if and only if each mask is of that kind |
| SvBlacklist.DocumentedBits | gps/location/LocationDataTypes.h:1170-1184 | satellites 65, 201, 193 and 301 are bit 0 of their masks, and up to bit 30 one entry sets exactly its own bit |
| SvBlacklist.DocumentedWholes | gps/location/LocationDataTypes.h:1166-1184 | id 0 sets every bit of its constellation's mask and no other |
| SvBlacklist.ListMeaning | gps/gnss/GnssAdapter.cpp:1508-1563 | for any masks, the list names exactly the satellites whose bits are set, or 0 for a mask that is all ones |
| SvBlacklist.ListInOrder | gps/gnss/GnssAdapter.cpp:1508-1563 | the list goes through BeiDou, Galileo, GLONASS and QZSS in turn, ids ascending, and names nothing twice |
| Odcpi.OdcpiTimer.Restart | gps/gnss/GnssAdapter.h:68-71 | the timer is active afterwards |
| Odcpi.GnssAdapter.RequestOdcpi | gps/gnss/GnssAdapter.cpp:3968-4011 | new flags, stored request and what is passed to the framework, for every request |
| Odcpi.GnssAdapter.OdcpiTimerExpire | gps/gnss/GnssAdapter.cpp:4111-4124 | an active request is repeated, an inactive one lets the timer stop |
| Odcpi.GnssAdapter.RestartSessions | gps/gnss/GnssAdapter.cpp:2150-2151 | a restart ends the request and leaves the timer |
| OdcpiRuns.ActiveHasTimer | gps/gnss/GnssAdapter.cpp:3968-4124 | in every run an active request has an active timer |
| OdcpiRuns.RequestsAreSpaced | gps/gnss/GnssAdapter.cpp:3975-4000 | between two framework requests an expiry is handled, or causes the second, unless that is an emergency replacing a stored non-emergency request |
| OdcpiRuns.RequestsAreBounded | gps/gnss/GnssAdapter.cpp:3975-4000 | the framework sees at most one request more than expiries and emergency replacements together |
| OdcpiRuns.StateIsHistory | gps/gnss/GnssAdapter.cpp:3968-4124 | in every run the flags and the stored request are what the history says: who asked last, whether the modem still asks, whether the timer runs |
| OdcpiRuns.PassedOnExactly | gps/gnss/GnssAdapter.cpp:3968-4124 | in every run a start request reaches the framework exactly when no timer runs or when it is the first emergency after another kind, an expiry repeats the latest start request exactly while the modem asks, and nothing else does |
| Geofence.GeofenceAdapter.GetHwIdFromClient | gps/geofence/GeofenceAdapter.cpp:96-106 | the id a key maps to, or that the key is unknown |
| Geofence.GeofenceAdapter.GetGeofenceKeyFromHwId | gps/geofence/GeofenceAdapter.cpp:108-117 | the key of the object with an id, or that it is unknown |
| Geofence.GeofenceAdapter.SaveGeofenceItem | gps/geofence/GeofenceAdapter.cpp:644-661 | both maps gain the geofence, not paused |
| Geofence.GeofenceAdapter.RemoveGeofenceItem | gps/geofence/GeofenceAdapter.cpp:663-686 | object and entry go together, or neither goes |
| Geofence.GeofenceAdapter.HandleResponse | gps/geofence/GeofenceAdapter.cpp:644-724 | what each kind of successful answer does to the two maps, and the pause it asks for when a paused fence was added again |
| Geofence.GeofenceAdapter.StopClientSessions | gps/geofence/GeofenceAdapter.cpp:50-78 | exactly the client's entries go at once and one removal is requested for each; objects stay until the answers |
| Geofence.GeofenceAdapter.RestartGeofences | gps/geofence/GeofenceAdapter.cpp:141-176 | both maps are emptied and every object is requested anew under its key, to be paused again if it was |
| Geofence.GeofenceAdapter.GeofenceBreach | gps/geofence/GeofenceAdapter.cpp:786-818 | the notifications sent, in client order, each with the ids of its client |
| GeofenceRuns.StepKeeps | gps/geofence/GeofenceAdapter.cpp:50-176 | every client, engine or restart step keeps the index invariant, with ids kept back while a removal is unanswered |
| GeofenceRuns.IndexStaysConsistent | gps/geofence/GeofenceAdapter.cpp:644-686 | in every such run each key leads to an object with that key and no two objects share a key |
| GeofenceRuns.GrantIsSafeIff | gps/geofence/GeofenceAdapter.cpp:50-78 | from any such state, giving out an id is safe for all that follows if and only if no removal of it is unanswered |
| GeofenceRuns.ReuseBreaksIndex | gps/geofence/GeofenceAdapter.cpp:50-78 | a run from the start in which an id reused too early leaves a key without its object |
| GeofenceRuns.ConsistentIffIdsKeptBack | gps/geofence/GeofenceAdapter.cpp:50-78 | all runs keep the index consistent if and only if the engine keeps such ids back |
| GeofenceRuns.BreachReachesOwner | gps/geofence/GeofenceAdapter.cpp:797-805 | in a consistent index the owner hears of a fence as often as it was reported |
| GeofenceRuns.BreachTellsOwnOnly | gps/geofence/GeofenceAdapter.cpp:797-805 | a client hears of nothing but its own reported fences |
| GeofenceRuns.BreachConcat | gps/geofence/GeofenceAdapter.cpp:797-805 | a client's ids come in report order |
| GeofenceRuns.BreachSends | gps/geofence/GeofenceAdapter.cpp:786-818 | each listening client is notified once, of exactly its own reported ids, or not at all when there are none; nobody else is |
| GeofenceRuns.EveryBreachArrives | gps/geofence/GeofenceAdapter.cpp:786-818 | after every run a reported fence the adapter knows is in its listening owner's one notification, as often as it was reported |
| GeofenceRuns.NoBreachStrays | gps/geofence/GeofenceAdapter.cpp:786-818 | no notification names anything but a reported fence of the client it goes to |
| GeofenceEffects.AddTakesEffect | gps/geofence/GeofenceAdapter.cpp:644-661 | an addition that succeeds is known under both names with its options, and nothing else changes |
| GeofenceEffects.CommandTakesEffect | gps/geofence/GeofenceAdapter.cpp:663-724 | a removal, pause, resumption or modification that succeeds does just that to its own fence, in both maps, and nothing to any other |
| GeofenceEffects.RefusedHasNoEffect | gps/geofence/GeofenceAdapter.cpp:96-106 | a command on an unknown key, or one the engine refuses, changes nothing |
| GeofenceEffects.StopsOwnOnly | gps/geofence/GeofenceAdapter.cpp:50-78 | a leaving client's keys go, all others stay, and exactly its own fences are to be removed |
| GeofenceEffects.RestartAsksForAll | gps/geofence/GeofenceAdapter.cpp:141-176 | after an engine restart every known object, and nothing else, is requested once, with its key, options and pause |
| GeofenceEffects.PausesAgain | gps/geofence/GeofenceAdapter.cpp:141-176 | the answer to the re-addition of a paused fence pauses it again, and no other answer asks for anything |
| GeofenceEffects.RemovalForgets | gps/geofence/GeofenceAdapter.cpp:663-686 | a removed fence is in neither map and in no unanswered addition |
| GeofenceEffects.StaysForgotten | gps/geofence/GeofenceAdapter.cpp:50-176 | a fence once forgotten stays so over every run |
| GeofenceEffects.RemovedForGood | gps/geofence/GeofenceAdapter.cpp:141-176 | whatever happens after its removal, no restart requests a fence and no breach names it |
| Trips.BatchingAdapter.ReportCompletedTrips | gps/batching/BatchingAdapter.cpp:661-700 | which trips a report names, what is left, and whether the batch restarts |
| Trips.BatchingAdapter.SweepCompleted | gps/batching/BatchingAdapter.cpp:663-691 | erasing under the iterator leaves exactly the unfinished trips, measured, and records whether the running interval or distance went |
| Trips.BatchingAdapter.RestartTripBatching | gps/batching/BatchingAdapter.cpp:923-1028 | when the batch restarts, with what, and every trip's new base |
| Trips.BatchingAdapter.StopTrip | gps/batching/BatchingAdapter.cpp:885-908 | the trip leaves and the batch restarts as need be |
| Trips.BatchingAdapter.StartTrip | gps/batching/BatchingAdapter.cpp:748-857 | the trip joins at the queried distance, quietly or with a restart that uses last computed distances; when the query fails it is not saved, though the batch may restart |
| TripRuns.RestartKeepsFor | gps/batching/BatchingAdapter.cpp:1003-1025 | a restart of the batch neither gains nor loses distance for any trip |
| TripRuns.ReportKeepsFor | gps/batching/BatchingAdapter.cpp:661-700 | a report keeps every trip's accounting, makes it current, and names exactly the trips that go |
| TripRuns.LeaveKeepsFor | gps/batching/BatchingAdapter.cpp:885-908 | a departure keeps the accounting of all others |
| TripRuns.JoinKeepsIff | gps/batching/BatchingAdapter.cpp:832-843 | a joining trip keeps the accounting if and only if it does not restart the batch while another trip's distance is out of date |
| TripRuns.UnderwayIsReached | gps/batching/BatchingAdapter.cpp:748-784 | a join and a distance lead to the state the next row starts from |
| TripRuns.StaleJoinLoses | gps/batching/BatchingAdapter.cpp:836-843 | a join after which a trip of 300 counts as one of 0 |
| TripRuns.FailedJoinKeepsIff | gps/batching/BatchingAdapter.cpp:807-843 | a join whose distance query fails keeps the accounting if and only if it does not start the batch over while a trip's distance is out of date |
| TripRuns.FailedJoinLoses | gps/batching/BatchingAdapter.cpp:807-843 | a join whose query fails, after which a trip of 300 counts as one of 0 |
| TripRuns.OrderlyKeeps | gps/batching/BatchingAdapter.cpp:661-1028 | in every run without such joins each trip's computed distance is the distance since it joined, modulo 2^32 |
| TripRuns.CompletesAtFirstReach | gps/batching/BatchingAdapter.cpp:671-676 | a trip is named complete at the first report at which that distance has reached its own, and not before, below 2^32 |
| TripRuns.CompletedInOrder | gps/batching/BatchingAdapter.cpp:667-690 | a report names the completed trips in session order, each once |
| TripRuns.OnlyReportsName | gps/batching/BatchingAdapter.cpp:661-908 | no other event names a trip complete |
| TripTargets.IntervalScanIff | gps/batching/BatchingAdapter.cpp:946-962 | the interval scan finds a lower bound of all trips' intervals if and only if none is 0 or the last one is |
| TripTargets.RestartIntervalIff | gps/batching/BatchingAdapter.cpp:996-1001 | after a restart decision the batch's interval serves every trip if and only if no interval is 0, or the last one is, or the batch's own was and stays |
| TripTargets.ScanInTimeIff | gps/batching/BatchingAdapter.cpp:946-962 | what the scan finds is no more than any trip has left if and only if a trip with the least left has a current distance |
| TripTargets.RestartInTimeIff | gps/batching/BatchingAdapter.cpp:980-1001 | with no trip past its end, the batch then ends no later than any trip if and only if it does not start over for the interval alone while a trip has less left than the whole old distance, nor take a new distance while the trips with the least left are out of date, and was in time if it is left as it is |
| TripTargets.DepartureInTimeIff | gps/batching/BatchingAdapter.cpp:885-1001 | a departure keeps a batch in time if and only if neither of the two happens |
| TripTargets.ReportInTimeIff | gps/batching/BatchingAdapter.cpp:661-1001 | a report that completes some trips and leaves others puts the batch in time if and only if it does not overrun them, with no assumption on what went before |
| TripTargets.DepartureTarget | gps/batching/BatchingAdapter.cpp:885-1001 | after a departure the batch runs for the least the others had left exactly when the trip it ran for has gone, it has ended, or that is less than it has to go; it starts over for that or for another interval |
| TripTargets.ReportTarget | gps/batching/BatchingAdapter.cpp:661-1001 | likewise after a report that completes trips |
| TripTargets.DropsMeaning | gps/batching/BatchingAdapter.cpp:674-687 | a report remembers that the running interval, or distance, belonged to a trip that is now complete |
| TripIntervals.RestartInterval | gps/batching/BatchingAdapter.cpp:996-1001 | after a restart decision the interval is the least of the trips', unless the old one is smaller and nobody who had it has gone |
| TripIntervals.JoinInterval | gps/batching/BatchingAdapter.cpp:797-834 | a join leaves the batch at the smaller of its interval and the joiner's, restarted or not |
| TripIntervals.FailedJoinServes | gps/batching/BatchingAdapter.cpp:797-834 | so does a join whose distance query fails, and the batch goes on serving every trip |
| TripIntervals.StepServes | gps/batching/BatchingAdapter.cpp:661-1028 | every join, failed join, departure and report keeps the batch fixing often enough for every trip |
| TripIntervals.RunServes | gps/batching/BatchingAdapter.cpp:661-1028 | in every run of trips with intervals above 0 the batch fixes often enough for every trip |
| TripIntervals.RunFits | gps/batching/BatchingAdapter.cpp:661-1028 | and, when every distance query is answered, exactly as often as the most demanding trip asks for |
| TripIntervals.RunIdles | gps/batching/BatchingAdapter.cpp:885-940 | in every run, when no trip is left the batch is set to no distance and no interval |
| TripLapses.SharedIsReached | gps/batching/BatchingAdapter.cpp:748-857 | two joins, a distance and a report lead to the state the next row starts from |
| TripLapses.OverrunHappens | gps/batching/BatchingAdapter.cpp:996-1006 | a departure after which the batch covers another 1000 though a trip has 600 left |
| TripLapses.UnansweredOverruns | gps/batching/BatchingAdapter.cpp:807-834 | a join whose query fails, after which the batch covers another 1000 though a trip has 600 left |
| TripLapses.UnreportedIsReached | gps/batching/BatchingAdapter.cpp:748-857 | two joins and a distance lead to the state the next row starts from |
| TripLapses.OutdatedHappens | gps/batching/BatchingAdapter.cpp:951-956 | a departure after which the batch covers another 1500 though a trip has 1200 left |
| TripLapses.EagerIsReached | gps/batching/BatchingAdapter.cpp:748-857 | three joins lead to the state the next row starts from |
| TripLapses.ZeroIsMissed | gps/batching/BatchingAdapter.cpp:958-1001 | a departure after which the batch fixes every 5 though a trip asked for 0 |
| TripSchedule.InTimeOnOdometer | gps/batching/BatchingAdapter.cpp:980-986 | in time by the 32-bit counters is in time on the odometer |
| TripSchedule.JoinEnds | gps/batching/BatchingAdapter.cpp:748-834 | a join leaves the batch to end where it did or where the joiner does, whichever comes first; one whose query fails makes it run from here for the shorter distance when either demand is not met |
| TripSchedule.StepOnTimeIff | gps/batching/BatchingAdapter.cpp:661-1028 | a join, failed join, departure, report or distance keeps every computed distance the one travelled, and the batch ending no later than any trip, if and only if it is no join that loses distance, no restart for a failed join that runs longer than a trip has left, and no overrun or outdated restart after a departure or report |
| TripSchedule.RunOnTimeIff | gps/batching/BatchingAdapter.cpp:661-1028 | throughout a run whose joins ask for a distance and whose reports come when the batch ends and are handled before a client leaves, both hold if and only if no step is one of these |
| AdapterTable.LocApiBase.constructor | gps/core/LocApiBase.cpp:154-159 | the table starts empty |
| AdapterTable.LocApiBase.AddAdapter | gps/core/LocApiBase.cpp:230-239 | an adapter goes to the first free slot with an open message; nothing happens when it is listed, null, or the table is full |
| AdapterTable.LocApiBase.RemoveAdapter | gps/core/LocApiBase.cpp:241-275 | the last adapter takes the removed one's slot, without a hole; a close message when none is left, an open message otherwise |
| AdapterTable.LocApiBase.ToAllAdapters | gps/core/LocApiBase.h:54-57 | a walk that ends at the first null slot reaches every adapter once |
| AdapterTableRuns.RemovesExactly | gps/core/LocApiBase.cpp:241-275 | removal takes out exactly the given adapter and leaves no duplicate |
| AdapterTableRuns.RemovalKeepsPlaces | gps/core/LocApiBase.cpp:246-264 | every adapter but the removed one and the last keeps its slot, and the last takes the freed one |
| AdapterTableRuns.RunIsASet | gps/core/LocApiBase.cpp:230-275 | every run leaves, free of duplicates, what the same operations leave in a set of at most ten |
| AdapterTableRuns.SendsWhatHappened | gps/core/LocApiBase.cpp:230-275 | one message exactly when the table changes: an open that carries the adapter just added, a close when the table becomes empty, a plain open otherwise |
| AdapterTableRuns.OpenIffRegistered | gps/core/LocApiBase.cpp:230-275 | over every run the engine is open exactly while an adapter is registered and never closed twice |

## Left out

- BoyerMoore.Search: asks for a non-empty pattern, because the tables of an empty one are built with a length of -1 before the empty case is tested, and for text and pattern of at most 2^31 - 1 bytes together.
- BoyerMoore.CorrectIffUnborderedOrConstant: speaks of NUL-free patterns, because `strncmp` stops at a common NUL and so shortens some distances of a bordered pattern that has one; unbordered and constant patterns are searched correctly with NULs too.
- Mapping the modem partition, parsing its date and the updater functions around the search.
- Heap: destruction, and draining as a loop of its own (it is a sequence of pops).
- AGPS: APN, bearer and type arguments of the callbacks, and message posting. Subscribers are values found by their handle, so the lifetime of freed ones and of the current subscriber is not modelled.
- AgpsManager.AgpsManager.Report: the framework reports only on machines that exist; the source dereferences a null machine otherwise.
- LocIpc.Sock.RecvFrom: a foreign header whose number is too large to allocate makes the source's `resize` throw; here the call goes on waiting for that many bytes.
- IPC: stream sockets, closed sockets, addresses, send failures and a second sender on the same queue.
- Tracking.GnssAdapter.StartTracking: engine calls succeed, responses to clients are not recorded, and a request with a distance is assumed to come once the capabilities are known (the source queues it until then).
- Tracking.GnssAdapter.UpdateTracking: as for a start; the engine's answer to a stopped distance-based session is handled before the next command, and distance-based engine sessions are not recorded.
- TrackingEngine.StartAsks: speaks of power modes that are set, as do the rows for updates, stops and restarts; which one the scan finds otherwise is `PowerScanIff`.
- Tracking: stopping all sessions of a client, which calls the stop multiplexer without erasing.
- Blacklists: the size and flag fields around the masks, and what a compiler makes of shifts by 31 or more, which is a parameter.
- On-demand positions: an absent framework callback, and injecting the answer.
- Geofences: aggregation of responses per command, and debug dumps. A fence paused anew after a restart is saved as not paused, as in the source.
- Trips.BatchingAdapter.StartTrip: engine starts and restarts succeed.
- Trips: the batch-full event mask, position counts, the sessions' client bookkeeping, and engine restarts.
- Trips.BatchingAdapter.StopTrip: asks for a known session, as its callers do.
- Adapter table: what the adapters do with events, and stopping at the first one that handles an event.
- The rest of the repository: system status caches, network observers, NMEA, configuration, lights, scripts and API forwarding would add easy members only.
