# Verified model of the SWTbahn server

Dafny models of the parts of the SWTbahn model-railway server (swtbahn-cli) that its safety and its data rest on,
with proofs of what they keep. `dafny verify dfyconfig.toml` checks the whole project.

Code that changes things step by step is modelled as classes and methods with loops, each proved against a
specification function; what the source promises is then proved about that function, mostly over all runs.

| Files | What they model |
|---|---|
| `RouteTable`, `SectionalCheck`, `RouteController` | the interlocking table and track, the sectional conflict check, granting and releasing routes by id |
| `InterlockingRuns` | the interlocking as a transition system: grants and releases one bidib command at a time, any number of drives stopping signals, trains moving; invariants over every run |
| `RouteMonitor`, `DriveInTraffic` | following a train along its route and stopping the signals behind it, and why that is a run of the interlocking |
| `TrainGrabs` | grab-ids handed out round robin and their engine instances in the container |
| `LockOrder` | the five locks, the lock scripts of the operations, and freedom from deadlock |
| `InterlockingParser`, `RouteIndex` | the event-driven parser of the interlocking table with a canonical printer, and the source/destination index |
| `PromiseMutex` | the promise-queue mutex of the game client |
| `Bytes`, `IoBuffer`, `WsFrame`, `WsStream`, `WsConnection` | websocket framing, unmasking and reassembly in place (RFC 6455) |
| `Sha1`, `Base64` | streaming SHA-1 around an arbitrary block transform (FIPS 180-4), incremental base64 (RFC 4648) |

Assumptions about the interlocking table are stated as predicates and required where they are used: conflicts are
symmetric (`Symmetric`), routes sharing a segment conflict (`SharedSegmentsConflict`), routes needing a point in
different positions conflict (`OpposedPointsConflict`), and every route has a signal (`WellFormed`). Route tables, path
lengths, numbers of trains, grab-ids, threads and clients are arbitrary.

Where code and documentation disagree the model follows the code:

- `get_granted_route_conflicts` enlarges its buffer for the train's name exactly when the name is not printed, so the
  name is always cut off, although the documentation says it can be included (`ConflictEntryIsId`).
- `monitor_train_on_route` is documented to succeed only if all passed signals were stopped. A stop command that fails
  is not repeated until the train reports another position, and the loop's result does not tell: `PassedAreStoppedIff`
  is the exact condition, `RefusedStopIsLost` the failing family with an example.
- `release_route` frees the route even when a stop command failed. Permissive signals then keep an owner exactly under
  the condition of `ReleaseKeepsOwnersIff`, over whole runs that of `RunsKeepSignalsOwnedIff`; `FailedStopOrphansSignal`
  shows that it breaks.
- The table parser takes a scalar value that is itself a key name for the key of the next scalar. `ReadsBackIff` gives the
  exact condition on the values under which a table is read back. An alias ends the parse and the routes read so far are
  returned. A list that does not follow a key makes it compare a null scalar, exactly as `CrashesIff` says.
- `mg_iobuf_resize` to a smaller size other than 0 keeps the old length, which then exceeds the buffer (`Resize`).

## Model

| member | source | states |
|---|---|---|
| InterlockingRuns.RunsAreSafe | server/src/handler_controller.c:351-471 | In every state of every run of grants, releases, monitor stops and train moves without sectional grants: no two granted routes conflict, the commanded points of every granted route are in position, no segment holds two trains, and a granted route's segments hold no other train |
| InterlockingRuns.StartIsSafe | server/src/handler_controller.c:351-471 | With no route granted and no segment holding two trains the invariant holds, so it holds ever after |
| InterlockingRuns.NothingCollides | server/src/handler_controller.c:351-471 | The same from the start and written out: after any such run granted routes are known and free of conflicts, no segment holds two trains, a granted route's segments hold no train but its own, and unless a grant is in progress the points of all granted routes are in position |
| InterlockingRuns.TrainsMove | server/src/handler_controller.c:251-281 | In any state a train may enter exactly the segments of routes granted to it and leave any; only the occupied segments change |
| InterlockingRuns.GrantKeepsConflictFree | server/src/handler_controller.c:169-195 | Granting a route that passed the conflict check keeps granted routes free of conflicts in both directions |
| InterlockingRuns.CommandKeepsPoint | server/src/handler_controller.c:400-406 | Switching one point of the route being granted leaves every point of every granted route in its required position |
| InterlockingRuns.StepKeepsPointsLocked | server/src/handler_controller.c:400-406 | No step of anyone moves a point of a granted route until its release |
| InterlockingRuns.GrantKeepsReserved | server/src/handler_controller.c:251-281 | After the clearance check a newly granted route's segments hold no other train |
| InterlockingRuns.EnterKeepsReserved | server/src/handler_controller.c:351-429 | A train entering a segment of its own granted route meets no train there and enters no other granted route |
| InterlockingRuns.RunsKeepSignalsOwnedIff | server/src/handler_controller.c:408-463 | Under any interleaving, in either mode and whichever stop commands fail, every permissive signal is a non-final signal of a granted route in all states of a run if and only if, whenever a route is freed, each signal it leaves permissive also belongs to another granted route |
| InterlockingRuns.RunsKeepSignalsOwned | server/src/handler_controller.c:408-463 | From all signals at Stop, as long as stop commands succeed, no permissive signal is ever without an owner |
| InterlockingRuns.PermissiveMeansGranted | server/src/handler_controller.c:408-463 | Written out: as long as stop commands succeed, a signal that does not show Stop is a signal, not the last, of some granted route |
| InterlockingRuns.SucceedingCommandsLeaveOwners | server/src/handler_controller.c:447-463 | When stop commands succeed, a route is only freed with its signals at Stop, whatever other drives do meanwhile |
| InterlockingRuns.SetSignalKeepsOwned | server/src/handler_controller.c:408-416 | A grant only makes signals permissive that its own granted route accounts for |
| InterlockingRuns.FreeingKeepsOwnersIff | server/src/handler_controller.c:460-463 | Freeing a route keeps every permissive signal owned exactly when others own what it leaves permissive |
| InterlockingRuns.ReleaseKeepsOwnersIff | server/src/handler_controller.c:447-463 | With failing stop commands the owner property survives a release if and only if each permissive signal whose command fails also belongs to another granted route |
| InterlockingRuns.FailedStopOrphansSignal | server/src/handler_controller.c:447-463 | The owner property does break: any route granted while all signals show Stop and nothing else is granted, then released while one stop command fails, leaves that signal permissive and unowned |
| InterlockingRuns.GrantIsRun | server/src/handler_controller.c:356-423 | What a successful grant does under the mutex is exactly a run of the single steps, ending in the state of the grant |
| InterlockingRuns.ReleaseIsRun | server/src/handler_controller.c:438-469 | What a release does is exactly a run of the single steps, including the failed commands |
| RouteController.GrantMeaning | server/src/handler_controller.c:383-416 | After a grant the route belongs to the train, each of its signals but the last shows shunt if it is a shunting signal and go otherwise, its points are in position, and no other signal, point or train assignment changed |
| RouteController.GrantReplies | server/src/handler_controller.c:351-429 | Exactly when each of the five replies is given, in terms of routes, trains, conflicts, aspects and occupancy, in the order of the checks; without a grant the track is unchanged |
| RouteController.ReleaseMeaning | server/src/handler_controller.c:433-471 | A release succeeds exactly for a granted route; then only that assignment ends, its signals whose commands go through show Stop, and all else stays |
| RouteController.PointsMeaning | server/src/handler_controller.c:400-406 | After the point loop the last entry for each point decides, and points not in the list keep their position |
| RouteController.BlockingOfMeaning | server/src/handler_controller.c:169-195 | The blocking conflicts are the existing, granted ones and, in sectional mode, only those not already safe, in list order |
| RouteController.PointIsSet | server/src/handler_controller.c:400-406 | After the point loop each point that the route requires consistently stands in its required position |
| RouteController.SignalsStoppedMeaning | server/src/handler_controller.c:447-458 | After the stop loop exactly the signals whose command went through show Stop, all others their old aspect |
| RouteController.SignalsSetMeaning | server/src/handler_controller.c:408-416 | After the signal loop exactly the commanded signals have changed, shunting signals to shunt and all others to go |
| RouteController.ConflictEntryIsId | server/src/handler_controller.c:223-245 | Whether or not train information is asked for, the printed entry is the bare route id, because of the truncation |
| RouteController.BlockingOfEmpty | server/src/handler_controller.c:197-249 | The list of blocking conflicts is empty exactly when no conflict blocks |
| RouteController.Controller.RouteHasGrantedConflicts | server/src/handler_controller.c:169-195 | True exactly when some conflict is granted and, in sectional mode, not already safe |
| RouteController.Controller.GrantedRouteConflicts | server/src/handler_controller.c:197-249 | Lists exactly the blocking conflicts in table order, and is empty exactly when the grant check finds none |
| RouteController.Controller.RouteIsClear | server/src/handler_controller.c:251-281 | True exactly when all signals of the route show Stop and no segment of its path is occupied |
| RouteController.Controller.GrantRouteId | server/src/handler_controller.c:351-429 | Replies and changes the track as the grant specification says; when each of its five replies is given is `GrantReplies`, what the track is then `GrantMeaning` |
| RouteController.Controller.ReleaseRoute | server/src/handler_controller.c:433-471 | Stops the route's signals as far as commands succeed and frees the route; refuses unknown and ungranted routes |
| SectionalCheck.IsRouteConflictSafe | server/src/check_route_sectional/check_route_sectional_direct.c:104-147 | The backward search with its once-per-section shortcut is true exactly when no shared segment has a permissive entry signal or an occupied segment between its preceding signal and it |
| SectionalCheck.ConflictSafeMeaning | server/src/check_route_sectional/check_route_sectional_direct.c:104-209 | The whole check in terms of aspects and occupied segments: for each shared segment all signals guarding entry to it show Stop, and every occupied segment of the granted route at or before it is followed by a signal up to it |
| SectionalCheck.IsSectionOccupied | server/src/check_route_sectional/check_route_sectional_direct.c:150-171 | True exactly when an occupied segment lies at or before the index with no signal in between |
| SectionalCheck.IsAnyEntrySignalPermissive | server/src/check_route_sectional/check_route_sectional_direct.c:173-209 | True exactly when some signal guarding entry to the segment shows a permissive aspect |
| SectionalCheck.EarlierScanIsCovered | server/src/check_route_sectional/check_route_sectional_direct.c:135-140 | Within one section the scan from the segment nearest the next signal makes the scans from earlier segments unnecessary |
| RouteMonitor.LocateIsLeast | server/src/handler_driver.c:340-366 | If the signals occur along the path in order, the single forward scan finds all of them, each as early as any placement in order could |
| RouteMonitor.InfosAreOrdered | server/src/handler_driver.c:340-366 | Located signals have non-decreasing path indices |
| RouteMonitor.GetSignalInfos | server/src/handler_driver.c:308-368 | The array built for any list of signals describes each with its located index, 0 for source, destination and signals not found |
| RouteMonitor.LocateSignals | server/src/handler_driver.c:340-366 | The second loop, one scan over the path for all signals together, finds each intermediate signal behind the one before |
| RouteMonitor.RepeatedSegmentFlags | server/src/handler_driver.c:378-416 | Although each segment looks only for its next occurrence, the flags mark exactly the path indices whose segment occurs elsewhere on the path |
| RouteMonitor.TrainPosition | server/src/handler_driver.c:425-462 | For any reported items, each is searched only behind the position already found, skipping flagged indices; not-on-tracks exactly when nothing is reported |
| RouteMonitor.PositionIsFurthest | server/src/handler_driver.c:425-462 | When the reported items are segments, or occur at most once on the path, the search returns the greatest unflagged index of at least 1 whose item is occupied, or not-on-route exactly when there is none |
| RouteMonitor.PositionIgnoresOrder | server/src/handler_driver.c:425-462 | The reported position does not depend on the order of the occupied segments |
| RouteMonitor.UpdateSignals | server/src/handler_driver.c:467-504 | Marks exactly the passed signals whose command succeeds, and returns by how many the marks grew |
| RouteMonitor.Pass | server/src/handler_driver.c:571-595 | One iteration of the monitoring loop does what the observation step says to counter, previous position and marks |
| RouteMonitor.MonitorTrain | server/src/handler_driver.c:538-604 | Over any sequence of observations the loop ends after the passes before the first observation at which the server is not running, the route is not granted or every signal before the destination is stopped; a signal is stopped by then exactly if it is not the destination and some pass saw the train first at, or moved to, a place at or behind it while its command went through; routes with fewer than two signals are refused |
| RouteMonitor.EndsExactly | server/src/handler_driver.c:564-596 | When the loop ends, in terms of observations and stop commands only: no earlier observation ends it, and the one it stops at does |
| RouteMonitor.PositionMeaning | server/src/handler_driver.c:425-462 | For reported segments: on the route at index k exactly if k is the greatest index of at least 1 whose segment is reported and occurs nowhere else on the path |
| RouteMonitor.LocateExactly | server/src/handler_driver.c:340-366 | For any signals and path: as long as the signals up to i can be placed in order, signal i gets the least index any placement gives it; from the first that cannot, the index is 0 |
| RouteMonitor.InfosMeaning | server/src/handler_driver.c:308-368 | Which signals are source and destination, and which get a located index |
| RouteMonitor.MonitoringIsSound | server/src/handler_driver.c:564-596 | However the train moves and whichever commands fail: the counter equals the number of stopped signals, only passed signals are stopped, never the destination, and leaving by the count means all but the destination are stopped |
| RouteMonitor.SignalsStopBehindTheTrain | server/src/handler_driver.c:467-596 | If commands succeed, the stopped signals are exactly the non-destination signals at or before the furthest reported position; if the signals lie on the path in order, they are a prefix of the route's signals |
| RouteMonitor.MonitorKeepsValid | server/src/handler_driver.c:569-596 | Every pass keeps counter, marks and furthest position consistent |
| RouteMonitor.MonitoredExactly | server/src/handler_driver.c:564-596 | For all movements and failing commands: at the end a signal is stopped if and only if it is not the destination and some pass saw the train first appear at, or move to, a place at or behind the signal while its stop command went through |
| RouteMonitor.PassedAreStoppedIff | server/src/handler_driver.c:527-536 | The documented promise that all passed signals were stopped holds exactly when each passed signal has such a pass |
| RouteMonitor.RefusedStopIsLost | server/src/handler_driver.c:577-594 | The promise does fail: if the first stop command is refused once and the train stays where it is, the loop goes on until the release and ends successfully with that passed signal not stopped, whether or not later commands would succeed |
| RouteMonitor.RefusedStopExample | server/src/handler_driver.c:577-594 | A concrete route, train and sequence of observations for which this happens |
| DriveInTraffic.PassIsRun | server/src/handler_driver.c:467-504 | In any state of the interlocking, the commands of one monitoring pass are enabled steps, after which exactly the newly marked signals show Stop and nothing else on the track differs |
| TrainGrabs.RunsStayBound | server/src/handler_driver.c:707-775 | Over any run of grabs and releases, used grab-ids and in-use engine instances stay in bijection, no train is held twice, and no request to the container is left pending |
| TrainGrabs.FreeIdMeansFreeInstance | server/src/dyn_containers_interface.c:398-423 | While a grab-id is free an engine instance is free, so a grab never ends for want of an instance |
| TrainGrabs.Pigeonhole | server/src/dyn_containers_interface.c:398-423 | Holding n different instances takes n grab-ids |
| TrainGrabs.GrabOutcomes | server/src/handler_driver.c:707-758 | Exactly when a grab finds the train already held, all ids in use, or the engine unknown; otherwise a previously free id and the first free instance of the first engine of that name are bound to the train and to each other, and no other slot or instance changes |
| TrainGrabs.GrabTakesNextFree | server/src/handler_driver.c:722-740 | The id handed out is the first free one, counted in cyclic order from where the last grab left off, and the next search starts right behind it; likewise when the engine cannot be set |
| TrainGrabs.OffsetIsModulo | server/src/handler_driver.c:89-95 | Counting in cyclic order is addition modulo the number of ids |
| TrainGrabs.GrabKeepsBound | server/src/handler_driver.c:707-758 | A grab keeps the bijection whatever its outcome |
| TrainGrabs.ReleaseOutcomes | server/src/handler_driver.c:760-775 | A release of a used id frees the id, its instance and its train, and no other; of an unused id it changes nothing |
| TrainGrabs.ReleaseKeepsBound | server/src/handler_driver.c:760-775 | A release keeps the bijection |
| TrainGrabs.SearchFindsFree | server/src/handler_driver.c:722-737 | The search looks at ids in cyclic order, all but the last in use, and fails exactly when all are taken, being back at its start then |
| TrainGrabs.EveryIdGetsItsTurn | server/src/handler_driver.c:89-95 | Over any run after the selection of an id, whenever that id is looked at again, every other id has been selected or found in use before |
| TrainGrabs.NoIdIsPassedOver | server/src/handler_driver.c:707-758 | In terms of replies alone: before an id is handed out a second time, each other id has been handed out or was in use at some grab in between |
| TrainGrabs.TrailWalks | server/src/handler_driver.c:722-740 | The ids looked at in a whole run form one walk along the cycle |
| TrainGrabs.Driver.constructor | server/src/handler_driver.c:68-70 | The initial grab table and container satisfy the bijection |
| TrainGrabs.Driver.GetGrabId | server/src/handler_driver.c:97-112 | Returns an id holding the train exactly when there is one |
| TrainGrabs.Driver.TakeGrabId | server/src/handler_driver.c:722-740 | Takes the first free id in cyclic order and moves on behind it, or leaves the next id unchanged when all are taken |
| TrainGrabs.Driver.GrabTrain | server/src/handler_driver.c:707-758 | Replies and changes grab table and container as the grab specification says, keeps the bijection, and hands out ids round robin as `GrabTakesNextFree` says |
| TrainGrabs.Driver.ReleaseTrain | server/src/handler_driver.c:760-775 | Frees id and instance as the release specification says, and keeps the bijection |
| TrainGrabs.Driver.SetTrainEngineInstance | server/src/dyn_containers_interface.c:372-424 | Fails exactly when no engine has the name or no instance is free; otherwise, however long the container takes to answer, the first free instance is in use and its request withdrawn |
| TrainGrabs.Driver.FreeTrainEngineInstance | server/src/dyn_containers_interface.c:426-447 | However long the container takes to answer, the instance is no longer in use and its request withdrawn |
| TrainGrabs.Driver.LetPeriod | server/src/dyn_containers_interface.c:407-442 | The assumed container: within finitely many periods it answers grab with in-use and release with not-in-use |
| LockOrder.NoDeadlock | server/src/dyn_containers_interface.c:166-192 | With any number of threads performing any operations, in every reachable state each lock has one holder, chains of waiting threads are bounded and never close to a cycle, and while a thread is unfinished some thread can go on |
| LockOrder.OperationsObey | server/src/handler_driver.c:611-797 | Every operation acquires locks only upwards in start-stop, actuate thread, interlocker or grabbed trains, containers, releases only what it holds and gives everything back |
| LockOrder.DriveObeys | server/src/handler_driver.c:626-703 | Driving a route, through all its branches, obeys the order |
| LockOrder.GrantRouteObeys | server/src/handler_controller.c:283-325 | Granting through the external interlocker, for any number of polls, obeys the order |
| LockOrder.ShutdownObeys | server/src/handler_admin.c:158-174 | Shutdown, including the join of the actuate thread, obeys the order |
| LockOrder.StartupObeys | server/src/handler_admin.c:177-187 | Startup, including the default interlocker, obeys the order |
| LockOrder.ChangeObeys | server/src/handler_upload.c:229-245 | Giving the container lock back in the middle of an upload or removal obeys the order |
| LockOrder.TrainTranscripts | server/src/handler_driver.c:707-797 | The lock calls of grabbing, releasing, looking up and driving a train, one by one, in each branch |
| LockOrder.DriveTranscripts | server/src/handler_driver.c:611-703 | The lock calls of one round of the actuate thread and of driving a route with all and with few branches taken |
| LockOrder.GrantTranscripts | server/src/handler_controller.c:283-325 | The lock calls of granting through the external interlocker |
| LockOrder.InterlockerTranscripts | server/src/handler_controller.c:64-155 | The lock calls of setting and unsetting an interlocker, of using the interlocking and of changing a container |
| LockOrder.AdminTranscripts | server/src/handler_admin.c:177-187 | The lock calls of starting up |
| LockOrder.ShutdownTranscript | server/src/handler_admin.c:158-174 | The lock calls of shutting down with one grabbed train and one interlocker |
| LockOrder.SomeoneCanStep | server/src/dyn_containers_interface.c:166-192 | From any unfinished thread, following who waits for whom leads to a thread that can go on |
| LockOrder.ChainsClimb | server/src/dyn_containers_interface.c:166-192 | Along a chain of waiting threads the wanted locks rise strictly |
| InterlockingParser.RoundTrip | server/src/parsers/interlocking_parser.c:199-416 | Routes with distinct ids that are all kept: parsing the printed table gives exactly the map from ids to routes, with path, sections, points, signals and conflicts in order, and nothing is freed |
| InterlockingParser.ReadsBackIff | server/src/parsers/interlocking_parser.c:199-416 | Parsing a printed table never crashes and reads back every route, in order, if and only if each route is kept, a condition on its values alone |
| InterlockingParser.KeptIff | server/src/parsers/interlocking_parser.c:330-388 | A printed route is read back unchanged exactly when, for each scalar member, the last value at or after it whose text is that member's name is followed by a key equal to the member's own value, if there is such a value, and no point is named "id" |
| InterlockingParser.SettledByLast | server/src/parsers/interlocking_parser.c:330-349 | Each scalar member ends up with the key that follows the last value naming it, or with its own value if no value from it on names it |
| InterlockingParser.PlainRoutesAreKept | server/src/parsers/interlocking_parser.c:330-388 | In particular when no scalar value is the name of a scalar member and no point is named "id" |
| InterlockingParser.SourceNamedIdMisfiles | server/src/parsers/interlocking_parser.c:333-344 | A route whose source is named "id" is filed under the key that follows |
| InterlockingParser.PrintedIsRead | server/src/parsers/interlocking_parser.c:199-416 | The parser's final state on any printed table |
| InterlockingParser.RouteRead | server/src/parsers/interlocking_parser.c:278-349 | Reading one printed route adds one draft to the routes and files it under the id it ended up with |
| InterlockingParser.RoutesAdded | server/src/parsers/interlocking_parser.c:316-325 | Of routes read with the same id the last is in the table and exactly the earlier ones are freed |
| InterlockingParser.ListRead | server/src/parsers/interlocking_parser.c:252-276 | A printed list of ids is read into its member in order |
| InterlockingParser.PointsRead | server/src/parsers/interlocking_parser.c:362-370 | A printed list of points is read in order with positions; a point named "id" gets the name of the next key |
| InterlockingParser.PointersAreNeverNull | server/src/parsers/interlocking_parser.c:199-416 | No sequence of events, however malformed, makes the parser append to a list never allocated or insert into a missing table |
| InterlockingParser.NamedSequencesNeverCrash | server/src/parsers/interlocking_parser.c:240-272 | If every sequence directly follows a scalar, no null scalar is compared |
| InterlockingParser.CrashesIff | server/src/parsers/interlocking_parser.c:199-272 | Reading any events the parser compares a null scalar if and only if, before the stream stops, a list opens at table or route level without directly following a scalar |
| InterlockingParser.TracksLevels | server/src/parsers/interlocking_parser.c:89-117 | Until it stops, the parser's two levels and its look-back are a function of the events read, independent of the routes built |
| InterlockingParser.LevelsStepUp | server/src/parsers/interlocking_parser.c:89-117 | Closing a level leads from any list item to the route and from there to the table |
| InterlockingParser.TextsSetMembers | server/src/parsers/interlocking_parser.c:333-349 | The scalar after the text "id", "source", "destination", "orientation" or "length" becomes that member, and no other changes |
| InterlockingParser.TextsOpenLists | server/src/parsers/interlocking_parser.c:252-272 | A list after "path", "sections", "points", "signals" or "conflicts" opens that list, empty |
| InterlockingParser.TextsSetPoints | server/src/parsers/interlocking_parser.c:362-370 | In a point "id" sets the id and "position" the position, reverse for the text "reverse" only |
| InterlockingParser.PrintedTexts | server/src/parsers/interlocking_parser.c:199-416 | The printed form of a route, text by text |
| InterlockingParser.PrintedItems | server/src/parsers/interlocking_parser.c:199-416 | The printed form of a list item and of a point, text by text |
| InterlockingParser.PrintedTable | server/src/parsers/interlocking_parser.c:199-416 | The printed form of a table: its key, the routes one after the other, and the closing events |
| InterlockingParser.TopLevelListCrashes | server/src/parsers/interlocking_parser.c:240-243 | A document that is itself a list crashes the parser, whatever follows |
| InterlockingParser.NestedListCrashes | server/src/parsers/interlocking_parser.c:240-251 | So does a list directly inside the list of routes |
| InterlockingParser.Parse | server/src/parsers/interlocking_parser.c:199-416 | The loop with its levels and its look-back of one scalar ends in the state of the event-by-event run |
| RouteIndex.LookupFindsConnections | server/src/interlocking.c:156-171 | If all signal ids are "signal" and a suffix not containing "signal", a lookup returns exactly the routes with that source and that destination, each once |
| RouteIndex.LookupIsScan | server/src/interlocking.c:156-171 | For any ids a lookup returns exactly the ids whose source and destination run together give the key, each once, and no empty list |
| RouteIndex.SplitsAreUnique | server/src/interlocking.c:65-75 | Two such signal names run together can be taken apart in one way only |
| RouteIndex.NamesCanRunTogether | server/src/interlocking.c:65-75 | Without that restriction one lookup returns a route between other signals |
| RouteIndex.ScanIsExact | server/src/interlocking.c:62-91 | The scan finds each matching id exactly once |
| RouteIndex.FoundInOrder | server/src/interlocking.c:62-91 | Of two routes with the same names run together the one met first in the walk comes first in the list |
| RouteIndex.Interlocking.CreateIndex | server/src/interlocking.c:56-94 | Walking the table in any order builds an index that holds, for each key, the scan in that order, and no other key |
| RouteIndex.Interlocking.GetRouteIds | server/src/interlocking.c:156-171 | Looks the two names up; none for a null argument or a missing key |
| RouteIndex.Interlocking.GetRoute | server/src/interlocking.c:173-182 | Returns the route with that id exactly when there is one |
| PromiseMutex.MutualExclusionInOrder | server/src/assets/game/script-game-mutex.js:50-92 | In every run of clients that unlock only after their grant: one client holds the lock, it heads the queue, all earlier callers are done and all later ones wait, nobody is thrown out, and a waiting head can go on |
| PromiseMutex.OnlyTheHeadGoesOn | server/src/assets/game/script-game-mutex.js:63-91 | Only the head of the queue is ever granted, and a further unlock by a former holder changes nothing |
| PromiseMutex.UnlockKeepsValid | server/src/assets/game/script-game-mutex.js:78-91 | An unlock serves exactly one request if the client held the lock, none otherwise |
| PromiseMutex.UnlockKeepsValidIff | server/src/assets/game/script-game-mutex.js:78-91 | The discipline is needed: an unlock keeps the queue in order if and only if the client has been granted the lock |
| PromiseMutex.EarlyUnlockThrowsTheNext | server/src/assets/game/script-game-mutex.js:78-91 | An unlock by a client waiting behind the head leaves the queue alone and makes the next client's lock call fail |
| PromiseMutex.EarlyUnlockOfTheHeadLetsTwoIn | server/src/assets/game/script-game-mutex.js:78-91 | An unlock by a head that still waits lets the next client in beside it, so that two hold the lock |
| PromiseMutex.TwoHoldersExample | server/src/assets/game/script-game-mutex.js:63-91 | Two lock calls and one early unlock suffice for two holders |
| PromiseMutex.Mutex.LockCall | server/src/assets/game/script-game-mutex.js:63-67 | Queues a new pending request that waits for the last one queued |
| PromiseMutex.Mutex.ResumeCall | server/src/assets/game/script-game-mutex.js:69-73 | After the awaited promise settled the client holds the lock, or is thrown out if it was rejected |
| PromiseMutex.Mutex.UnlockCall | server/src/assets/game/script-game-mutex.js:78-91 | Resolves and dequeues the head; any other request is rejected, which a settled promise ignores |
| WsStream.StreamDeliversMessages | server/src/websocket_uploader/mongoose.c:4795-4881 | For any messages, fragmented and masked in any way, with control frames anywhere in between and the bytes in any chunks, the delivered messages are exactly the messages in order, and nothing is left over (RFC 6455 sections 5.2 to 5.4) |
| WsStream.ChunkingIsInvisible | server/src/websocket_uploader/mongoose.c:4823-4877 | For any bytes at all, two ways of cutting them into chunks give the same events and the same remainder |
| WsStream.AbsorbMeaning | server/src/websocket_uploader/mongoose.c:4830-4876 | For every opcode, final bit and held part: the events a frame causes and what is held afterwards, including continuations that continue nothing |
| WsStream.DecodeAppend | server/src/websocket_uploader/mongoose.c:4823-4877 | Decoding a part and later the rest is decoding the whole |
| WsStream.DecodeWire | server/src/websocket_uploader/mongoose.c:4823-4877 | Decoding encoded frames absorbs exactly those frames, one after the other |
| WsStream.StreamReportsControls | server/src/websocket_uploader/mongoose.c:4830-4855 | For any frames cut into any chunks, the control events are exactly the frames with a control opcode, in order with their payloads, and the pings to answer are exactly the frames with opcode 9 |
| WsStream.FramesReported | server/src/websocket_uploader/mongoose.c:4830-4855 | Frame by frame, what is reported by opcode |
| WsStream.PongsOnTheWire | server/src/websocket_uploader/mongoose.c:4836-4839 | The queued answers are exactly one frame with first byte 8a per ping, with its payload, in order |
| WsStream.MessagesArrive | server/src/websocket_uploader/mongoose.c:4857-4876 | Absorbing the frames of fragmented messages gives the messages and leaves nothing held |
| WsStream.RestIsIncomplete | server/src/websocket_uploader/mongoose.c:4823 | What waits in the buffer is never a complete frame |
| WsConnection.Connection.OnRead | server/src/websocket_uploader/mongoose.c:4823-4877 | The loop that unmasks, strips and joins frames in the receive buffer produces the events, the held fragments and the remainder of the decoder, and queues the pong of every ping in order; the connection is closing afterwards if and only if it was before or the new events hold a close frame or an unknown opcode |
| WsConnection.Connection.ReceiveMessages | server/src/websocket_uploader/mongoose.c:4795-4881 | The buffer code itself: a fresh connection that receives any messages, fragmented and masked in any way, with control frames in between and in any chunks, hands over exactly the messages in order, keeps nothing, has queued exactly its pongs, and is closing if and only if a close frame or an unknown opcode was among the events |
| WsConnection.Connection.ReceiveAll | server/src/websocket_uploader/mongoose.c:4795-4881 | Receiving chunk by chunk is decoding all bytes at once, in events, held fragments, remainder, queued pongs and closing |
| WsConnection.Connection.Receive | server/src/websocket_uploader/mongoose.c:4795-4881 | Appending a chunk and reading is decoding the old remainder followed by the chunk; each ping is answered with its own payload; the connection closes exactly on a close frame or an unknown opcode |
| WsConnection.CloseFrameEnds | server/src/websocket_uploader/mongoose.c:4845-4850 | The bytes 88 00 are such a close frame |
| WsConnection.Connection.Dispatch | server/src/websocket_uploader/mongoose.c:4830-4855 | Reports a frame by its opcode and closes on a close frame or an unknown opcode; for a ping, one pong frame with the same payload is appended to the bytes to be sent |
| WsConnection.Connection.NextFrame | server/src/websocket_uploader/mongoose.c:4823 | Finds and unmasks the next frame, touching neither the held fragments nor what follows; changes nothing if the frame is incomplete |
| WsConnection.Connection.TakeFrame | server/src/websocket_uploader/mongoose.c:4824-4876 | Handles one unmasked frame in place: events, held fragments and remaining bytes are those of the specification |
| WsConnection.Connection.JoinFragment | server/src/websocket_uploader/mongoose.c:4857-4865 | Strips the header of a fragment, keeping the flags byte of the first, so that the payloads join up before the remaining bytes |
| WsConnection.Connection.FinishMessage | server/src/websocket_uploader/mongoose.c:4868-4876 | Delivers the joined payload with the first fragment's flags and removes it from the buffer |
| WsFrame.FrameRoundTrip | server/src/websocket_uploader/mongoose.c:4717-4793 | For any flags, mask and payload up to 1 GB, an encoded frame followed by any bytes is read as exactly that frame, with its full length, flags and payload |
| WsFrame.StrictPrefixIsIncomplete | server/src/websocket_uploader/mongoose.c:4717-4746 | On every strict prefix of an encoded frame the reader finds no frame |
| WsFrame.HeaderIsReadBack | server/src/websocket_uploader/mongoose.c:4748-4774 | The header of any length, masked or not, is read back whatever follows |
| WsFrame.CompleteFrameIsStable | server/src/websocket_uploader/mongoose.c:4717-4746 | More bytes behind a complete frame do not change how it is read |
| WsFrame.MaskTwice | server/src/websocket_uploader/mongoose.c:4776-4782 | Masking twice with one key restores the payload |
| WsFrame.MaskInverts | server/src/websocket_uploader/mongoose.c:4776-4782 | Masking inverts in byte i exactly the bits set in key byte i % 4, bit by bit |
| Bytes.XorIff | server/src/websocket_uploader/mongoose.c:4743 | The exclusive or of two bytes is the one byte whose bit k is, for each k below 8, the sum of their bits k modulo 2 |
| WsFrame.FrameSizeMeaning | server/src/websocket_uploader/mongoose.c:4717-4736 | Byte by byte: which first bytes make a complete frame, in the 7-, 16- and 64-bit length forms with and without a key, up to 1 GB, and its flags, header length and size (RFC 6455 section 5.2) |
| WsFrame.HelloFrames | server/src/websocket_uploader/mongoose.c:4748-4793 | The text "Hello", unmasked and masked, is encoded as in the examples of RFC 6455 section 5.7 |
| WsFrame.MaskedHelloIsRead | server/src/websocket_uploader/mongoose.c:4717-4746 | The masked example of that section is read as "Hello" |
| WsFrame.MediumFrame | server/src/websocket_uploader/mongoose.c:4748-4774 | 256 bytes go out behind the header 82 7e 01 00 |
| WsFrame.LongFrame | server/src/websocket_uploader/mongoose.c:4748-4774 | 65536 bytes go out behind the header 82 7f and the length in eight bytes |
| WsFrame.Process | server/src/websocket_uploader/mongoose.c:4717-4746 | Reads the header and unmasks the payload where it stands: each payload byte of a complete masked frame afterwards differs from the received byte in exactly the bits set in key byte i % 4. All other bytes of the buffer stay, and nothing changes when it returns 0 |
| WsFrame.MaskInPlace | server/src/websocket_uploader/mongoose.c:4741-4744 | Inverts, in each of the given bytes, exactly the bits set in the byte i % 4 of the four key bytes before them |
| WsFrame.ScanHeader | server/src/websocket_uploader/mongoose.c:4717-4736 | Reads flags, header length and payload length as specified, in all three length forms and for short buffers |
| WsFrame.MakeHeader | server/src/websocket_uploader/mongoose.c:4748-4774 | Writes the header of the specified encoding |
| WsFrame.Send | server/src/websocket_uploader/mongoose.c:4784-4793 | Appends exactly one encoded frame to the bytes waiting to be sent and returns its length; a client's payload goes out behind its key with exactly the bits of key byte i % 4 inverted, a server's as it is |
| IoBuffer.IoBuf.Add | server/src/websocket_uploader/mongoose.c:1968-1982 | Inserts the bytes at any offset in the contents, growing the buffer if needed; behind the contents it appends them after a gap as the allocation has it |
| IoBuffer.IoBuf.Del | server/src/websocket_uploader/mongoose.c:1984-1991 | Removes the bytes at the offset, as many as there are |
| IoBuffer.IoBuf.Resize | server/src/websocket_uploader/mongoose.c:1937-1962 | Keeps as much of the contents as fits; the buffer stays valid if and only if they fit or the new size is 0, since a smaller size keeps the old length |
| IoBuffer.GrownMeaning | server/src/websocket_uploader/mongoose.c:1968-1976 | A buffer that must grow gets the next multiple of the chunk size above what is needed |
| IoBuffer.Move | server/src/websocket_uploader/mongoose.c:1976-1988 | Moves a range within the buffer correctly for overlapping ranges in both directions |
| IoBuffer.Insertion | server/src/websocket_uploader/mongoose.c:1976-1977 | Moving the tail up and copying into the gap is insertion |
| IoBuffer.Deletion | server/src/websocket_uploader/mongoose.c:1984-1991 | Moving the tail down and wiping the end is deletion |
| Sha1.Hash | server/src/websocket_uploader/mongoose.c:4695-4698 | For any way of cutting a message into updates the digest is that of the whole message |
| Sha1.Context.Update | server/src/websocket_uploader/mongoose.c:2908-2926 | After any update state, counters and buffered bytes are those of everything fed so far |
| Sha1.Context.TransformBlocks | server/src/websocket_uploader/mongoose.c:2916-2922 | Transforms the full buffer and then exactly the whole blocks of the data |
| Sha1.Context.AddCount | server/src/websocket_uploader/mongoose.c:2912-2914 | The 32-bit additions with their carry keep the 64-bit bit length |
| Sha1.Context.AddPadding | server/src/websocket_uploader/mongoose.c:2938-2944 | The padding loop ends, having fed a one bit and the least number of zeros that leaves eight bytes of a block |
| Sha1.Context.Final | server/src/websocket_uploader/mongoose.c:2928-2952 | The digest is the transform folded over the blocks of the padded message, and the context is wiped |
| Sha1.CountAdds | server/src/websocket_uploader/mongoose.c:2912-2914 | Adding with explicit wrap-around and one carry maps the counters of n bytes to those of n + len bytes |
| Sha1.FoldAppend | server/src/websocket_uploader/mongoose.c:2915-2925 | Transforming a message and then its tail with more data is transforming the whole |
| Sha1.PaddingIsMinimal | server/src/websocket_uploader/mongoose.c:2933-2945 | The padded message is whole blocks, the shortest possible: the message, a one bit, zeros only, and at the end its bit length modulo 2^64 big-endian (FIPS 180-4 section 5.1.1) |
| Sha1.DigestMeaning | server/src/websocket_uploader/mongoose.c:2899-2952 | There is a chain of states that starts with the five initial words and goes on by transforming 64 bytes of the padded message each; the digest is the words of the last one, most significant byte first |
| Sha1.Context.Init | server/src/websocket_uploader/mongoose.c:2899-2906 | Starts with the five initial words, no bits counted and nothing fed |
| Base64.DecodeEncode | server/src/websocket_uploader/mongoose.c:83-106 | Decoding the encoding of any bytes returns them |
| Base64.CanonicalText | server/src/websocket_uploader/mongoose.c:90-106 | A text is the encoding of what it decodes to if and only if it is canonical: equals signs only at the end of the last group and no bits beyond the last byte |
| Base64.CharsGrow | server/src/websocket_uploader/mongoose.c:56-70 | One more byte completes the partial sextet kept from before and leaves the next one |
| Base64.EncodingEnds | server/src/websocket_uploader/mongoose.c:72-81 | The encoding is the finished characters, the partial sextet completed with zero bits, and equals signs up to a multiple of four |
| Base64.SextetBits | server/src/websocket_uploader/mongoose.c:56-70 | The shifts and masks on single bytes give the four sextets of the 24-bit group (RFC 4648 section 4) |
| Base64.ByteBits | server/src/websocket_uploader/mongoose.c:96-101 | The shifts on sextets give the three bytes of the 24-bit group |
| Base64.RevIdx | server/src/websocket_uploader/mongoose.c:26-54 | The reverse table undoes the alphabet on every sextet |
| Base64.Alphabet | server/src/websocket_uploader/mongoose.c:26-36 | The characters of the 64 sextets, one by one, as in table 1 of RFC 4648 |
| Base64.TestVectors | server/src/websocket_uploader/mongoose.c:56-88 | The test vectors of RFC 4648 section 10, from the empty text to "foobar" |
| Base64.DecodingFailsIff | server/src/websocket_uploader/mongoose.c:90-106 | Decoding fails exactly if some whole group has a character outside the alphabet, where an equals sign may stand for the third and the fourth |
| Base64.GroupOfThree | server/src/websocket_uploader/mongoose.c:96-101 | A group without equals signs adds three bytes |
| Base64.GroupOfTwo | server/src/websocket_uploader/mongoose.c:96-101 | A group with an equals sign as its last character adds two bytes |
| Base64.GroupOfOne | server/src/websocket_uploader/mongoose.c:96-101 | A group with a third equals sign adds one byte whatever its fourth character |
| Base64.LengthFacts | server/src/websocket_uploader/mongoose.c:56-70 | The output position modulo four is the input length modulo three |
| Base64.Update | server/src/websocket_uploader/mongoose.c:56-70 | From an output representing the bytes so far to one representing one byte more |
| Base64.Final | server/src/websocket_uploader/mongoose.c:72-81 | Turns an output representing the bytes into their encoding, with a terminator |
| Base64.Encode | server/src/websocket_uploader/mongoose.c:83-88 | Writes the encoding of RFC 4648, of length 4 times ceil(n/3) |
| Base64.Decode | server/src/websocket_uploader/mongoose.c:90-106 | Writes the decoded bytes of all whole groups, or returns 0, exactly when a group is malformed or there is no whole group |

## Left out

- InterlockingRuns.RunsAreSafe: does not cover grants in sectional mode, where conflicting routes may be granted together by design; `IsRouteConflictSafe` says what that mode checks instead.
- TrainGrabs.RunsStayBound: takes the container's answers for granted; engine upload and removal while a grab is pending are not modelled, nor is any claim that an engine in use is never unloaded.
- LockOrder.NoDeadlock: a thread that waits for the container holds no lock the container needs; the container's answer itself is not a lock and is left out, as are the locks inside foreign libraries and the join of the container thread and the message poll thread, which take none of these locks.
- WsConnection.Connection.Receive: a final continuation frame without content that continues nothing is one event with the length the C code computes, which wraps around; the flags and bytes it would read there are not modelled.
- IoBuffer.IoBuf.Add: an offset behind the contents must leave room in the allocation, since the C code counts only the length of the data when growing and would write outside otherwise; a null data pointer and a failing allocation are left out.
- Sha1.Hash: the block transform is an arbitrary function; its 80 rounds are not modelled.
- InterlockingParser.RoundTrip: route lengths stay texts; their conversion to a floating-point number is not modelled. What the C code does with a route that was freed because a later one took its id is not modelled.
- Websocket handshake, HTTP parsing, the receive limit of `read_conn`, allocation failure, and the rest of mongoose.c.
- `drive_route` as a whole checks the grant and releases the route without holding the lock in between; nothing here depends on that pair being atomic, since in `InterlockingRuns` any granted route may be released at any time, also by a drive it no longer belongs to. Its stop and release commands are steps of `InterlockingRuns`, its locks a script of `LockOrder`.
- The external interlocker behind `grant_route`, compiled train engines, and the container itself.
- Manual overrides of points, signals and train speed, which bypass the interlocking by design.
- The hard-coded entry-signal table, abstracted to an arbitrary map from segments to signals; null path items and null arguments of the controller; a route without signals, for which the C loop bound wraps around; the fixed sizes of the temporary id arrays.
- libbidib, onion, glib memory management, syslog, shared memory, clocks. A bidib command is a write to the track state; the track state is a snapshot within one check.
- HTTP handlers, parameter checks, JSON text, the web client's user interface, the table generator scripts, and the parsers of the other configuration files, which would add easy members only.
