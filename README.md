# Queue presence tracker: a Dafny model

The system estimates how long people wait at a service counter. It reads the
Wi-Fi stations an access point sees (MAC address and RSSI). Each station is
treated as a person in the queue. Each person's RSSI is smoothed through a
small buffer and turned into a distance in metres using a calibration sheet
(RSSI measured at known distances). A per-person state machine moves each
person from `waiting` (far from the counter) to `service` (closer than 1 m)
to `leaving` (farther than the leaving distance). From the people who have
already left, the access point derives an average service time and an
average waiting time. A person's expected wait is the number of people
ahead of them, read off their distance, times the average service time.

Three generations of the code are modelled:

- **backend.py** is the current tracker. It has a single-server occupancy
  flag, a leaving distance of 2 m, a departure pass that also retires
  clients in `leaving`, and averages over the latest three past clients
  (or the latest active ones while nobody has left).
- **ClientApp.py** is the earlier tracker. It has no occupancy flag, a
  leaving distance of 3 m and a recursive `add_rssi`. Its calibration
  averages the rows measured exactly at the signal, and its averagers
  hand `statistics.mean` a single sum, which raises.
- **test.py** holds the bounded-deque buffer of three slots and its
  worked trace.

Module layout:

- `Wrappers`: `Option`/`Result` and the exceptions the code raises.
- `Stats`: `statistics.median`, `mean` and `round`.
- `Deque`: the bounded `collections.deque`.
- `Tracking`: MACs, states, station snapshots and the departure loop,
  which is shared by both trackers.
- `CalibrationSheet`: the calibration rows and their grouping by RSSI.
- `Backend*`, `ClientApp*` and `TestBuffer`: one module per source class.

The classes that the source updates in place are Dafny classes: the
buffers, the clients, the occupancy flag and the access points. Each
method is proved against a function on values. For backend.py those are
`BackendQueue.Arrivals`, `BackendQueue.Steady` and `BackendQueue.WindowAverage`.

Two behaviours of the code are easy to misread, and the model follows the
code in both:

- **backend.py's `rssi_to_dist`.** The comments at backend.py:98-100 promise
  the exact RSSI or the closest lower one. The loop at backend.py:101-109
  instead returns the strongest bucket when the signal reaches it, or the
  signal's own bucket when that key exists. In every other case it falls
  back to the weakest bucket. `BackendCalibration.BetweenKeysFallsToWeakest`
  states this.
- **The backend departure pass** also retires clients in `leaving`
  (backend.py:353). Because it removes from the list it iterates over, the
  client behind each removed one is never examined
  (`Tracking.SuccessorOfRemovedIsSkipped`).

## Model

| member | source | states |
|---|---|---|
| Stats.Sort | backend.py:147 | the result is sorted and is a permutation of the samples, as `statistics.median` orders them |
| Stats.MedianBetween | backend.py:147 | the median of samples within [lo, hi] lies within [lo, hi] |
| Stats.MedianOfConstant | backend.py:132-134 | a buffer filled with one reading has that reading as its median |
| Stats.IntMedianOfConstant | test.py:23-25 | the same for a buffer of integer readings |
| Stats.MeanBetween | ClientApp.py:87 | the mean of samples within [lo, hi] lies within [lo, hi] |
| Stats.RoundHalfEven | backend.py:415 | `round` gives an integer within 0.5 of its argument, and ties go to the even neighbour |
| Deque.Bounded | backend.py:320 | a `deque(maxlen=n)` keeps the last n elements: at most n, a suffix of what was appended, and all of it while it fits |
| Deque.BoundedAppend | test.py:27 | appending readings one by one to a bounded deque equals bounding the whole concatenation |
| Deque.LastReversed | backend.py:382 | the slice `[-1:-AVG_NUMBER-1:-1]` is the last n elements, newest first, and all of them when fewer |
| Tracking.FirstIndex | backend.py:438-440 | the first position holding a value: it holds it and no earlier position does |
| Tracking.DepartureConserves | backend.py:350-357 | the departure loop neither loses nor duplicates a client: kept plus removed is the original list as a multiset |
| Tracking.DepartureShape | backend.py:350-357 | removed clients are exactly those due to leave, in visit order; examined-and-kept clients ("regulars") should stay and remain active; clients before the current index are untouched |
| Tracking.SuccessorOfRemovedIsSkipped | backend.py:350-355 | removing a client while iterating skips the one behind it, which stays active whether or not it should leave |
| Tracking.DepartureExample | backend.py:350-355 | of [1, 2, 3] with 1 and 2 due to leave, only 1 goes, and only 3 is examined and kept |
| CalibrationSheet.BucketMembers | backend.py:96 | a grouped bucket holds a distance exactly when some sheet row measured it at that RSSI |
| CalibrationSheet.GroupedBucketsNonEmpty | backend.py:96 | grouping has one key per RSSI in the sheet, and no bucket is empty |
| BackendCalibration.SetMax | backend.py:99 | the strongest calibrated RSSI is a key and bounds every key from above |
| BackendCalibration.SetMin | backend.py:107 | `min(sorted_rssi)` is a key and bounds every key from below |
| BackendCalibration.SortedDesc | backend.py:99 | `sorted(keys, reverse=True)` lists exactly the keys, each once, strictly descending |
| BackendCalibration.SeqMin | backend.py:107 | the minimum of the sorted keys is one of them and no key is smaller |
| BackendCalibration.LookupKey | backend.py:101-109 | the bucket chosen is always a calibrated key |
| BackendCalibration.RssiToDist | backend.py:81-112 | the loop over the descending keys returns exactly `Lookup`: the median of the bucket chosen, or `None` for an empty table |
| BackendCalibration.ReachedKey | backend.py:103-105 | when the loop stops at a key the signal reaches, that key is the strongest one or the signal itself |
| BackendCalibration.FallsBack | backend.py:106-109 | a signal below the current key that is no key takes the weakest bucket |
| BackendCalibration.StillAhead | backend.py:101-106 | a calibrated signal below the current key is reached later in the loop |
| BackendCalibration.LookupFailsOnlyWhenEmpty | backend.py:112 | the lookup yields `None` exactly when the calibration sheet is empty |
| BackendCalibration.LookupIsBucketMedian | backend.py:105-109 | with calibration data, the estimate is the median of some bucket |
| BackendCalibration.LookupWithinMeasured | backend.py:101-109 | the estimate never leaves the range of measured distances |
| BackendCalibration.BetweenKeysFallsToWeakest | backend.py:106-109 | a signal strictly between two calibrated RSSIs, matching neither, gets the weakest bucket's median rather than a neighbour's |
| BackendCalibration.LookupExample | backend.py:101-109 | {-40: [1.0, 1.2], -30: [3.0]} at -35 gives 1.1 |
| BackendBuffer.RSSIBuffer.constructor | backend.py:120-122 | a new buffer is empty and remembers its size |
| BackendBuffer.RSSIBuffer.AddRssi | backend.py:125-136 | the buffer becomes `Added`: size copies of the first reading, then plain appends |
| BackendBuffer.RSSIBuffer.CalculateMedian | backend.py:139-149 | an empty buffer raises ValueError; otherwise the result is the floored median |
| BackendBuffer.FirstAddFills | backend.py:132-134 | the first reading leaves exactly `size` copies, whose smoothed value is that reading |
| BackendBuffer.AddedAllAppends | backend.py:135-136 | once the buffer holds something, readings are only appended and nothing is evicted |
| BackendBuffer.GrowsWithoutEviction | backend.py:132-136 | from empty, n readings leave size copies of the first followed by the other n-1, so the buffer grows without bound |
| BackendBuffer.ZeroSizeStaysEmpty | backend.py:132-134 | with size 0 nothing is ever stored |
| BackendClient.ServiceDesk.constructor | backend.py:23 | the occupancy flag starts clear |
| BackendClient.Client.constructor | backend.py:157-165 | a new client is waiting, with an empty buffer of 10 and every distance and time at 0 |
| BackendClient.Client.UpdateRssi | backend.py:168-175 | the reading is buffered and the distance becomes the lookup of the floored median; no counter or state changes |
| BackendClient.Client.UpdateState | backend.py:178-209 | the state, counters and occupancy flag become one `Step` of the state machine |
| BackendClient.Client.UpdateClient | backend.py:212-219 | the client and the flag become `Updated`: new distance, then one state-machine step |
| BackendClient.Client.SetExpectedTime | backend.py:222-228 | only the expected wait changes |
| BackendClient.EnterService | backend.py:190-195 | a waiting client enters service iff it is closer than 1 m and the desk is free, and then occupies the desk |
| BackendClient.LeaveService | backend.py:196-201 | a client in service leaves iff it is farther than 2 m, and then frees the desk |
| BackendClient.NeverBackwards | backend.py:178-209 | one update moves the state at most one step forward and never out of `leaving` |
| BackendClient.FlagFollowsTransitions | backend.py:190-201 | the flag changes only on entering service or on leaving it while set |
| BackendClient.TimeAccounting | backend.py:190-204 | a transition adds no time; otherwise only the current state's counter grows, by the elapsed time |
| BackendClient.SecondClientKeepsWaiting | backend.py:190-195 | of two waiting clients close to the counter in one cycle, the first takes the desk and the second keeps waiting |
| BackendClient.RunIsMonotone | backend.py:178-209 | over any run the state never moves back, `leaving` is absorbing, and with non-negative elapsed times no counter shrinks |
| BackendClient.NewClientStartsWaiting | backend.py:157-165 | a new client is waiting with all distances and times at 0 |
| BackendClient.FirstUpdate | backend.py:359-363 | a new client's first update fills its buffer with the reading, takes that reading's calibrated distance, leaves all counters at 0 and is never `leaving` |
| BackendQueue.NewMacs | backend.py:359-365 | the new MACs are exactly the snapshot's MACs that are no regular |
| BackendQueue.ArrivalsNext | backend.py:359-365 | each non-regular snapshot MAC, in order, appends a new client updated once with elapsed time 0 |
| BackendQueue.SteadyRoundFails | backend.py:369 | a round raises KeyError exactly on a client whose MAC the snapshot lacks |
| BackendQueue.SteadyNext | backend.py:367-371 | the steady pass runs front to back, one client per round |
| BackendQueue.SteadyStep | backend.py:367-371 | a round leaves a just-arrived client alone and otherwise applies `update_client` with the elapsed time |
| BackendQueue.SteadyStops | backend.py:369 | the pass stops at the first missing MAC |
| BackendQueue.SteadyFailureExtends | backend.py:369 | once a prefix has raised, the whole pass has raised |
| BackendQueue.FirstMissing | backend.py:367-369 | the first active client whose MAC the snapshot lacks: every client before it is reported, and it is not |
| BackendQueue.SteadyStopsAtFirstMissing | backend.py:367-369 | a pass that got through the first `j` clients and meets a missing MAC at `j` stopped at the first missing MAC |
| BackendQueue.SteadyStoppedAt | backend.py:367-371 | a loop that met a missing MAC at `j` with the earlier clients updated as `Steady` updates them has raised, and `j` is the first missing MAC |
| BackendQueue.CounterValues | backend.py:382-386 | one counter per windowed client, in window order |
| BackendQueue.WithExpected | backend.py:412-417 | every client gets `round(dist / 0.6) * avg_service` as its expected wait, and nothing else changes |
| BackendQueue.StepKeepsSingleServer | backend.py:190-201 | one step keeps "the flag is set iff exactly one client is in service" |
| BackendQueue.UpdatedKeepsSingleServer | backend.py:212-219 | so does a whole `update_client` |
| BackendQueue.ArrivalsShape | backend.py:359-365 | the arrivals are the new MACs, in snapshot order, each a fresh client updated once with its own reading and never `leaving` |
| BackendQueue.UnclaimedMacArrives | backend.py:359-365 | a snapshot MAC that no regular carries gets a new client, even when it just left as `leaving` |
| BackendQueue.SteadyFailsStep | backend.py:367-371 | one more client makes the pass fail iff it failed before or that client's MAC is missing |
| BackendQueue.SteadyFailsIffMissing | backend.py:367-371 | the steady pass raises KeyError iff some active client's MAC is missing from the snapshot |
| BackendQueue.SteadyShape | backend.py:367-371 | a completed pass keeps every client in place with the same MAC, leaves just-arrived clients untouched and moves no state backwards |
| BackendQueue.RoundShape | backend.py:367-371 | a round on a reported client keeps the MAC and never moves the state back |
| BackendQueue.WindowAverageBounds | backend.py:374-405 | the average raises iff there is no past and no active client, and otherwise lies within the window's counter bounds |
| BackendQueue.WindowIsLatestPast | backend.py:380-383 | once somebody has left, the window is the latest at most three past clients, newest first |
| BackendQueue.ExpectedWaitMonotone | backend.py:415-416 | the expected wait is non-negative and never shorter for a client farther away |
| BackendQueue.WindowAverageExample | backend.py:380-387 | past service times 30 and 50 give an average of 40 |
| BackendQueue.WindowIgnoresOlder | backend.py:382 | past clients older than the latest three, and active clients, never affect the averages |
| BackendQueue.WindowIgnoresExpected | backend.py:408-417 | setting the expected waits does not move either average |
| BackendAccessPoint.Macs | backend.py:355 | the MACs of a client list, position by position |
| BackendAccessPoint.Views | backend.py:157-165 | the clients of a list as values, position by position |
| BackendAccessPoint.DepartureWithin | backend.py:350-357 | the departure pass only rearranges the clients it is given |
| BackendAccessPoint.ConsistentPermutation | backend.py:350-357 | reordering the clients keeps the single-server invariant |
| BackendAccessPoint.DepartureLoop | backend.py:350-357 | the loop computes `DepartureOf`: removing the current client while iterating, with the skip that follows, and collecting the regulars |
| BackendAccessPoint.ConsistentAfterDeparture | backend.py:350-357 | moving clients from the active to the past list keeps the single-server invariant |
| BackendAccessPoint.ConsistentAfterArrival | backend.py:359-365 | appending a new client whose update kept the flag right keeps the invariant |
| BackendAccessPoint.ConsistentAfterUpdate | backend.py:367-371 | updating one active client keeps the invariant over active and past clients |
| BackendAccessPoint.NewClient | backend.py:361-362 | `Client(mac)` then `update_client(rssi, 0)` is `Updated` of a new client, and the flag stays right |
| BackendAccessPoint.Touch | backend.py:371 | `update_client` on the k-th active client changes that client and the flag only, keeping the invariant |
| BackendAccessPoint.AccessPoint.constructor | backend.py:314-321 | no clients, averages 0, an empty snapshot, the time deque holding 0, and a free desk |
| BackendAccessPoint.AccessPoint.MeasureQueue | backend.py:324-331 | the snapshot is stored and the time pushed into the two-slot deque; nothing else changes |
| BackendAccessPoint.AccessPoint.Depart | backend.py:350-357 | the active list becomes the departure's kept list, the removed clients join the past list, and the regulars are the visited MACs |
| BackendAccessPoint.AccessPoint.Arrive | backend.py:359-365 | the arrivals of `Arrivals` are appended as fresh clients, existing clients are untouched, and the new MACs are returned |
| BackendAccessPoint.AccessPoint.ArriveOne | backend.py:359-365 | one round of the arrival loop extends the arrivals by the k-th snapshot MAC |
| BackendAccessPoint.AccessPoint.Admit | backend.py:361-363 | a fresh client, updated once, is appended to the active list |
| BackendAccessPoint.AccessPoint.SteadyPass | backend.py:367-371 | `ok` iff `Steady` succeeds, and then the clients and flag are its result; on a KeyError the clients before the first missing MAC are updated as `Steady` updates them and the rest are untouched; the past clients never change |
| BackendAccessPoint.AccessPoint.SteadyOne | backend.py:367-371 | one round of the steady loop extends the prefix already matched against `Steady`, or raises on the client whose MAC is missing, leaving it and every later client untouched |
| BackendAccessPoint.AccessPoint.Advance | backend.py:371 | `update_client` on the k-th active client only |
| BackendAccessPoint.AccessPoint.UpdateClientList | backend.py:334-371 | departure, then arrivals, then the steady pass over the kept and new clients; `ok` is false exactly on a KeyError, and then the clients before the first missing MAC are updated and the rest are as the arrivals left them; every snapshot MAC ends up on the active list; the single-server invariant holds throughout |
| BackendAccessPoint.AccessPoint.Refresh | backend.py:343-365 | measurement, departure and arrivals, giving the list the steady pass starts from, which carries every snapshot MAC |
| BackendAccessPoint.AccessPoint.Settle | backend.py:343-357 | measurement and departure; every regular MAC stays on the active list |
| BackendAccessPoint.AccessPoint.CollectCounters | backend.py:380-386 | the loop collects the window's counters, newest first |
| BackendAccessPoint.AccessPoint.UpdateServiceTime | backend.py:374-387 | the average service time becomes the window's mean; with nobody to average, `mean` raises and nothing changes |
| BackendAccessPoint.AccessPoint.UpdateWaitingTime | backend.py:390-405 | the same for the average waiting time; clients and past clients are untouched |
| BackendAccessPoint.AccessPoint.UpdateClientsExpectedTime | backend.py:408-417 | every active client's expected wait is set from its distance and the average service time; nothing else changes |
| BackendAccessPoint.AccessPoint.UpdateAp | backend.py:420-429 | `ok` iff the list update succeeds and the window over its result has a mean; then the active clients are the list update's result with the expected waits of the new average service time, both averages are the window's means, and every snapshot MAC is active; when the mean raised, the state is the list update's; the departed clients join the past list either way |
| BackendAccessPoint.AccessPoint.UpdateTimes | backend.py:426-429 | `ok` iff the service-time window has a mean; then both averages are the window's means and each active client gets the expected wait of the new average, and otherwise nothing changes |
| BackendAccessPoint.AccessPoint.FindClient | backend.py:432-441 | `None` iff no active client has the MAC; otherwise the first client that has it |
| BackendAccessPoint.AccessPoint.GetApTimes | backend.py:444-450 | the average waiting time, then the average service time |
| ClientAppCalibration.RssiToDist | ClientApp.py:69-89 | the mean of the distances measured exactly at the signal; with none, `mean` raises |
| ClientAppCalibration.MatchingExactly | ClientApp.py:81-85 | a distance is averaged iff some row has exactly the signal's RSSI and that distance |
| ClientAppCalibration.FailsWithoutExactRow | ClientApp.py:84-87 | the estimate fails iff no row has the signal's RSSI |
| ClientAppCalibration.MatchingIsBucket | ClientApp.py:81-85 | for a whole-numbered signal, the rows averaged are that RSSI's bucket of the grouped sheet |
| ClientAppCalibration.FractionalSignalMatchesNothing | ClientApp.py:84 | a fractional signal, such as an unfloored median, matches no row |
| ClientAppBuffer.RSSIBuffer.constructor | ClientApp.py:97-99 | a new buffer is empty |
| ClientAppBuffer.RSSIBuffer.AddRssi | ClientApp.py:102-113 | a non-empty buffer appends within its bound; an empty one recurses into itself and raises RecursionError (unless its size is 0), staying empty |
| ClientAppBuffer.RSSIBuffer.CalculateMedian | ClientApp.py:116-126 | an empty buffer raises ValueError; otherwise the median, not floored |
| ClientAppBuffer.UnflooredMedianExample | ClientApp.py:124 | the median of -48 and -47 is -47.5 |
| ClientAppClient.Client.constructor | ClientApp.py:134-142 | a new client is waiting with an empty buffer and every distance and time at 0 |
| ClientAppClient.Client.UpdateRssi | ClientApp.py:145-152 | an empty buffer raises and changes nothing; otherwise the reading is buffered and the distance is set, unless no row matches the median |
| ClientAppClient.Client.UpdateState | ClientApp.py:155-180 | one `Step` of the flagless state machine |
| ClientAppClient.Client.UpdateClient | ClientApp.py:183-190 | the client and the exception raised are those of `Updated`; the state machine runs only if the distance update did not raise |
| ClientAppClient.EnterService | ClientApp.py:163-167 | a waiting client enters service iff it is closer than 1 m, whoever else is served |
| ClientAppClient.LeaveService | ClientApp.py:168-172 | a client in service leaves iff it is farther than 3 m |
| ClientAppClient.TimeAccounting | ClientApp.py:163-175 | one step moves at most one state forward; a transition adds no time; otherwise only the current state's counter grows |
| ClientAppClient.AllCloseClientsEnterService | ClientApp.py:163-167 | without a flag, every close waiting client enters service in the same cycle |
| ClientAppClient.NeverUpdated | ClientApp.py:109-111 | a new client's buffer is empty, and an update of a client with an empty buffer raises and leaves it unchanged |
| ClientAppClient.UpdateOutcomes | ClientApp.py:183-190 | with a non-empty buffer, an update completes iff some row matches the new median; otherwise only the buffer changes |
| ClientAppAccessPoint.Macs | ClientApp.py:317 | the MACs of a client list, position by position |
| ClientAppAccessPoint.Views | ClientApp.py:134-142 | the clients of a list as values |
| ClientAppAccessPoint.DepartureRetiresOnlyAbsent | ClientApp.py:311-317 | only unreported clients are retired, in any state; a reported client, even `leaving`, stays; nothing is lost or duplicated |
| ClientAppAccessPoint.ArrivalErrorIff | ClientApp.py:319-325 | the arrival pass completes iff every reported MAC is a regular, and otherwise raises RecursionError |
| ClientAppAccessPoint.SteadyErrorIff | ClientApp.py:327-331 | the steady pass completes iff every active client is reported and has just arrived |
| ClientAppAccessPoint.ListErrorIff | ClientApp.py:297-331 | the list update completes iff no client is left active and the snapshot is empty |
| ClientAppAccessPoint.RegularsAreKept | ClientApp.py:311-317 | every regular's MAC belongs to a kept client |
| ClientAppAccessPoint.CounterValues | ClientApp.py:341-342 | one counter per client, in order |
| ClientAppAccessPoint.WindowGrows | ClientApp.py:341-342 | each round of the summing loop adds the next older past client's counter |
| ClientAppAccessPoint.AccessPoint.constructor | ClientApp.py:277-284 | no clients, averages 0, an empty snapshot, the time deque holding 0 |
| ClientAppAccessPoint.AccessPoint.MeasureQueue | ClientApp.py:287-294 | the snapshot is stored and the time pushed into the two-slot deque |
| ClientAppAccessPoint.AccessPoint.Depart | ClientApp.py:311-317 | the active list becomes the kept list (with the skip after each removal), the removed clients join the past list, and the regulars are returned |
| ClientAppAccessPoint.AccessPoint.Arrive | ClientApp.py:319-325 | no client is ever appended; the pass raises RecursionError at the first non-regular MAC |
| ClientAppAccessPoint.AccessPoint.SteadyPass | ClientApp.py:327-331 | KeyError at the first unreported client, else RecursionError at the first one that did not just arrive; no client changes |
| ClientAppAccessPoint.AccessPoint.UpdateClientList | ClientApp.py:297-331 | after the departure pass, the update raises unless nobody is active and the snapshot is empty |
| ClientAppAccessPoint.AccessPoint.ArriveAndUpdate | ClientApp.py:319-331 | the arrival pass, then the steady pass, raising as `ListError` says |
| ClientAppAccessPoint.AccessPoint.CollectSum | ClientApp.py:340-342 | the loop sums the counter over the latest three past clients, newest first |
| ClientAppAccessPoint.AccessPoint.UpdateServiceTime | ClientApp.py:334-344 | the window's service times are summed, and the `mean` of that single number raises TypeError |
| ClientAppAccessPoint.AccessPoint.UpdateWaitingTime | ClientApp.py:347-357 | the same for the waiting times |
| ClientAppAccessPoint.AccessPoint.UpdateAp | ClientApp.py:372-381 | always raises: the list update's exception, or else the TypeError of the first averager; the departure pass has taken effect |
| ClientAppAccessPoint.AccessPoint.FindClient | ClientApp.py:384-393 | `None` iff no active client has the MAC; otherwise the first client that has it |
| ClientAppAccessPoint.AccessPoint.GetApTimes | ClientApp.py:396-402 | the two averages, which are always 0 because no method ever stores one |
| TestBuffer.RSSIBuffer.constructor | test.py:12-14 | a new deque buffer is empty, with its maximum length |
| TestBuffer.RSSIBuffer.AddRssi | test.py:16-27 | the buffer becomes `Added` and never exceeds its maximum length |
| TestBuffer.RSSIBuffer.CalculateMedian | test.py:29-38 | an empty buffer raises ValueError; otherwise the floored median |
| TestBuffer.FirstAddFills | test.py:23-25 | the first reading fills the deque with size copies, whose floored median is the reading |
| TestBuffer.AppendEvictsOldest | test.py:26-27 | into a full deque, a reading goes in on the right and the oldest falls out |
| TestBuffer.LengthStaysAtSize | test.py:16-27 | the buffer holds at most size readings, and exactly size once anything was added |
| TestBuffer.SameReadingsShiftIn | test.py:26-27 | k equal readings push out the k oldest |
| TestBuffer.FlushedBySameReadings | test.py:48-51 | size equal readings flush every earlier reading, and the median becomes that reading |
| TestBuffer.TraceWithThreeSlots | test.py:42-46 | -48, -48, -6, -6 into three slots gives the buffers in the comments, ending at [-48, -6, -6] |

## Left out

- Reading the stations over SSH (`get_station_info_direct`, backend.py:36-77 and the ClientApp counterpart) and the clock (`get_time`) are not modelled. The caller passes the snapshot (MACs in dictionary order plus their RSSIs) and the time in.
- Reading the Excel sheet (`pd.read_excel`) is not modelled. The grouped table, or the rows, are parameters.
- The Flask routes, `get_stations`, the `main` loops, `print`, app.js and connection.py are I/O around the core and are not modelled.
- The client getters (backend.py:231-290) are field reads in the model.
- Floating-point numbers are modelled as exact reals, so rounding error is not modelled.
- Python's recursion limit is a `depth` parameter of ClientApp's `add_rssi`. The model proves the failure for every depth.
- BackendClient.Client.UpdateRssi: requires a non-empty calibration table (`Calibrated`). With an empty sheet, `rssi_to_dist` returns `None`, and the later comparison with a float raises TypeError; that path is not modelled.
- ClientApp's `update_clients_expected_time` and `set_expected_time` (ClientApp.py:193-199, 360-369) are not modelled. They repeat the backend's code, and `update_ap` never reaches them because the first averager always raises.
- In ClientApp, a new client's first update always raises (the recursive `add_rssi`), so the `append` after it (ClientApp.py:324) is never reached. The model states the error and appends nothing.
