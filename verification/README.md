# Verified model of the cbd scheduler

cbd distributes compile jobs. A server keeps a table of workers and a queue of
clients that wait for one. This project models the server's scheduler, the
concurrent protocol around it, and three smaller parts of the program, and
proves what they promise. `dafny verify dfyconfig.toml` checks everything.

| file | models |
|---|---|
| `Net.dfy` | 16-byte addresses, the comparison `Less`, masked containment, the nested first-match search (net.go) |
| `NetOrder.dfy` | `Less` as a strict total order; sorting has one result |
| `NetBlocks.dfy` | containment under a prefix mask as membership in an aligned block (section 3.1 of RFC 4632) |
| `NetLists.dfy` | sorting in place, searching two lists, what the match means |
| `Queues.dfy` | queues as sequences: taking an entry out, the stable partition by a test |
| `Workers.dfy` | worker states, replies and the choice of a worker (scheduler.go) |
| `WorkerTable.dfy` | updates, reports and removals; the smoothed speed as a function of the history |
| `Scheduler.dfy` | `FifoScheduler` and `SchedulerRequest` as classes; the server's sorting update |
| `Client.dfy` | the client's loop over the server's replies (client.go) |
| `Protocol.dfy` | the server under concurrency as a step system (server.go, scheduler.go, client.go) |
| `ProtocolInvariant.dfy`, `ProtocolSafety.dfy` | what every step keeps |
| `ProtocolTheorems.dfy` | what holds in every state of every run |
| `ProtocolHistory.dfy` | what a state says about the steps before it: clients' verdicts, failed sends, the waiter's loop, what the lock protects |
| `ProtocolWorkers.dfy` | the worker table over whole runs: its speeds, and exactly when its entries have live connections |
| `ProtocolProgress.dfy` | exactly when the scheduler's lock can come free again, and how long it is held |
| `ProtocolActions.dfy` | what each actor can do in every state that occurs, and what comes of it; when a request can be cancelled |
| `ProtocolWitnesses.dfy` | three concrete runs in which the protocol falls short |
| `Observer.dfy` | the update publisher (observer.go) |
| `Core.dfy` | argument parsing and rewriting (core.go) |

The scheduler appears twice, over one vocabulary (`Servable`, `Dispatches`,
`ArrivalReply`, `Apply`). In `Scheduler.dfy` each method of the class is one
critical section, proved against its contract with the loops of the source. In
`Protocol.dfy` the same critical sections are cut into steps, so that a write to
a one-slot reply channel can block while the lock is held and any other
goroutine can act in between. A step names its nondeterministic choices (which
reply, which worker state arrives, whether a send succeeds); `Enabled` says when
it may happen and `Next` what it does. `Inv` is proved to hold in every state of
every run (`InvAlways`), and the theorems follow from it. They come in two kinds:
what every run keeps, and (`ProtocolActions.dfy`) what can happen from every state
that occurs, so that neither too many nor too few steps are enabled.

What is nondeterministic in the source is nondeterministic here: the iteration
order of a Go map is an arbitrary choice, the result of sorting equal keys is
any sorting (`IsSorting`), time is a timeout or a deadline that may strike at any
step, and a connection send may succeed or fail. A failed send delivers nothing.

Six results say where the code does less than one would expect, and exactly
when it does meet the expectation:

* A failed send can take the scheduler's lock away for good. A waiter whose
  reminder fails wants the lock to cancel; if a worker's update gets the lock
  first, the dispatch loop blocks on the Queued reply that nobody reads any
  more. `LockComesFreeIff` says precisely when the lock can come free,
  `FailedSendCanTakeTheLockAway` is a run in which it cannot. `NeverLocksUpIff` names
  the steps that take it away: the lock can always come free if and only if there
  is none of them.
* A worker can stay known without a live connection: a connection that reports a
  second ID leaves that worker in the table when it drops
  (`SecondIdOutlivesItsConnection`). Every known worker has always had a live
  connection if and only if no later message reported an ID for which no live
  connection stood (`KnownWorkersAreLiveIff`).
* A live worker can be unknown: after a reconnect, the drop of the old connection
  removes the worker although the new one lives (`OldConnectionTakesTheWorkerAway`).
  `LiveWorkersAreKnownIff` says when that never happens, `MissingIff` when a given
  worker is missing.
* The order in which a client lists its networks can show in the address it is
  handed (`ListingOrderShows`). It does not if and only if all best matches,
  which the members of the two lists decide, have one address
  (`OrderIndependentIff`).
* The order in which the map of workers is walked can show in the reply
  (`TiedWorkersDependOnTheMap`). It does not if and only if no two candidates are
  fastest (`MapOrderIrrelevantIff`); `DispatchIsUniqueIff` says when neither it nor
  the sorting shows.
* Rewriting a build's arguments can lose its type flag (`RewritingCanLoseTheFlag`);
  it keeps their parse exactly when the last `-c` does not stand in the output
  slot (`RewritingKeepsTheParse`), and the flag's presence exactly when some `-c`
  stands elsewhere (`RewritingKeepsTheFlagIff`).

Where comments and code of the source differ, the model follows the code.
net.go:13-14 says that the order does not support IPv6; the code compares IPv6
addresses by value, and the order is total on them too. net.go:156-157 speaks of
the first address of the second list; the code returns the first address inside
the first network that contains any. scheduler.go:296 speaks of the first free
worker; the code returns a fastest one.

Compile speeds are real numbers. The steps that bring a worker state or a report
admit speeds that are not negative, which is what the program's own clients and
workers send (monitor.go:35-38, worker.go:162-170), and addresses as the server
stores them, sorted. Sizes of capacity and load are 64-bit integers and their
difference wraps around.

## Model

| member | source | states |
|---|---|---|
| NetOrder.MappedInterval | net.go:33-47 | the addresses that have a 4-byte form are exactly those whose number lies in one interval |
| NetOrder.LessComparesKeys | net.go:23-95 | the branching comparison is the comparison of one number per address: the value below and above the mapped interval, rank of the first octet and then value inside it |
| NetOrder.KeyInjective | net.go:25-31 | different addresses have different keys |
| NetOrder.LessIsStrictTotalOrder | net.go:23-95 | irreflexive, asymmetric, transitive and total on all 16-byte addresses, mapped and not |
| NetOrder.PrivateFirst | net.go:13-15 | IPv4 addresses sort 192, 172, 10, others, and by value within a rank |
| NetOrder.ValuesCompareByOctet | net.go:25-31 | the big-endian numbers of two addresses compare like the first octet in which they differ |
| NetOrder.LessByOctets | net.go:23-95 | the whole order in octets, for IPv4 and other addresses: 192, 172, 10 and the rest first where that tells two IPv4 addresses apart, else the first octet in which they differ |
| NetOrder.SortingIsUnique | net.go:150-151 | with distinct addresses a list has one sorting, whatever algorithm computes it |
| NetLists.Swap | net.go:20-22 | exchanges two entries in place and touches no other |
| NetLists.Insert | net.go:15-95 | one round of insertion sort with Less and Swap sinks an entry to its place and passes no equal one |
| NetLists.SortByPrivateIP | net.go:15-95 | insertion sort leaves a sorted permutation in the same array, entries with equal keys in their old order |
| NetLists.StableSortingIsUnique | net.go:15-95 | that determines the result for every list, ties or not |
| NetLists.SortedStays | net.go:15-95 | so a sorted list is left as it is |
| NetLists.SortedList | scheduler.go:286-287 | sorting a list held in a field |
| NetLists.GetMatchingIP | net.go:156-169 | fails exactly if no network contains any address, and otherwise returns the lexicographically first matching pair's address |
| NetLists.MatchIsFirst | net.go:158-165 | the search finds a matching pair with no match before it in either loop |
| NetLists.SortedMatchIsBest | net.go:156-169 | on sorted lists the match is the least address inside the least network that contains any |
| NetLists.BestMatchIsUnique | net.go:156-169 | that network and address are determined by the members of the two lists when addresses are distinct |
| NetLists.SortingWithFirst | scheduler.go:286-287 | any entry stands first among its equals in some sorting |
| NetLists.BestMatchIsRealised | scheduler.go:286-302 | every best match is what the search finds after some sorting of both lists |
| NetLists.OrderIndependentIff | scheduler.go:286-302 | for all lists: neither side's listing order nor the sorting algorithm affects the matched address if and only if all best matches have the same one |
| NetLists.ListingOrderIrrelevant | scheduler.go:286-302 | in particular they do not when addresses are distinct |
| NetLists.SortingIrrelevantIff | scheduler.go:286-302 | with the worker's list as it is, the sorting of the client's networks does not show if and only if the least networks that contain any address agree on the first |
| NetLists.TiedNetworksCanDisagree | scheduler.go:286-302 | the condition can fail: two sortings of one list that match differently |
| NetLists.ListingOrderShows | scheduler.go:286-302 | and on short lists it shows: the insertion sort leaves either listing of two such networks as it is, and they match differently |
| NetLists.SortingExists | scheduler.go:287 | every list has a sorting |
| NetBlocks.ContainsBitByBit | net.go:161 | for every network, mask and address: containment is agreement on the bits the mask sets, octet by octet of the 16-byte addresses, the last 4 only on an IPv4 network; masks that fit neither form match nothing |
| NetBlocks.ContainsOnNumbers | net.go:161 | under a prefix mask, containment is equality of the 128-bit numbers without their free low bits |
| NetBlocks.ContainsIsBlock | net.go:161 | the same on the shortest forms: exactly the addresses of the network's length that share its prefix bits |
| NetBlocks.OtherMasks | net.go:161 | on an IPv4 network a 16-byte mask acts by its last 4 bytes; a mask that fits neither length makes the network empty |
| Workers.HasSpaceIffDifferenceFits | scheduler.go:298-300 | capacity minus load is positive exactly when load is below capacity, if and only if the difference fits 64 bits |
| Workers.WalkIsFastest | scheduler.go:297-311 | walking the map in any order chooses a fastest candidate, or nobody if there is none |
| Workers.WalkReturnsFirstFastest | scheduler.go:297-311 | of several fastest candidates it chooses the one it meets first |
| Workers.FastestIsChosen | scheduler.go:297-311 | every fastest candidate is chosen in some order |
| Workers.FindFreeWorker | scheduler.go:271-327 | the outcome is that of the walk in some order; it succeeds exactly when some candidate exists, and the reply takes all fields from one fastest candidate |
| Workers.DispatchesIffSearched | scheduler.go:271-327 | the replies a client may get are exactly those that some sorting and some map order lead to |
| Workers.ChoiceIgnoresOrder | scheduler.go:286-287 | who can be served and with which replies does not depend on how the client lists its networks |
| Workers.DispatchFacts | scheduler.go:298-321 | the worker of a reply was known and had room, the fields are its own, the address lies in a network of the client, and no worker with room that the client can reach is faster |
| Workers.MapOrderIrrelevantIff | scheduler.go:297-311 | after one sorting of the client's networks all map orders choose the same worker if and only if no two candidates are fastest |
| Workers.DispatchIsUniqueIff | scheduler.go:286-325 | all map orders and all sortings have the same outcome if and only if, besides, the client's least usable networks agree on the fastest worker's address |
| Workers.TiedWorkersDependOnTheMap | scheduler.go:297-311 | two equally fast workers and two map orders with different replies |
| Workers.DispatchIgnoresSorting | scheduler.go:286-311 | for any table, one fastest candidate and distinct network addresses suffice |
| Workers.ReplyExists | scheduler.go:314-323 | a client that can be served has a reply |
| Workers.DispatchedAddressIsBest | scheduler.go:302-319 | for workers stored through the server the reply carries the least address inside the least network containing any |
| Workers.ServableWhenStored | scheduler.go:293-307 | with speeds that are not negative a client is served exactly when a worker with room is reachable |
| WorkerTable.ApplyKeepsStored | server.go:117-128 | keys equal IDs, addresses sorted and speeds not negative: kept by every event |
| WorkerTable.OnlyUpdatesHelp | scheduler.go:141-179 | a report or removal makes no client servable |
| WorkerTable.TableFollowsHistory | scheduler.go:238-269 | for any order of events: a worker is known exactly since it joined, its speed is the fold of the reports since then over its first speed, and the rest is its latest update |
| WorkerTable.KnownIffJoined | scheduler.go:160-179 | a worker is known if and only if the history holds a joining position |
| WorkerTable.JoinIsUnique | scheduler.go:238-247 | the joining position is determined by the history |
| WorkerTable.SpeedStaysInBounds | scheduler.go:249-264 | reports and a start within [0, hi] keep the speed there |
| WorkerTable.GapShrinks | scheduler.go:260-264 | after n equal reports the distance to the reported speed is exactly 0.9 to the n of what it was |
| WorkerTable.FirstReportReplacesZero | scheduler.go:260-261 | a worker without a speed takes on its first report |
| Scheduler.SchedulerRequest.constructor | scheduler.go:25-33 | a new request is active, holds its networks and has been sent nothing |
| Scheduler.SchedulerRequest.Search | scheduler.go:93-213 | searching for a request leaves its networks sorted and finds a reply exactly if it can be served |
| Queues.WithoutMembers | scheduler.go:226-229 | slicing an entry out of the queue removes it and nothing else |
| Queues.TakeFirst | scheduler.go:212-229 | one round of the dispatch loop takes the first served request off the served part and leaves the waiting part alone |
| Queues.PartMembers | scheduler.go:205-236 | served and waiting requests split the queue |
| Queues.PartIsStable | scheduler.go:205-236 | both parts keep the queue's order |
| Scheduler.FifoScheduler.constructor | scheduler.go:72-79 | a new scheduler is empty |
| Scheduler.FifoScheduler.Schedule | scheduler.go:81-109 | NoWorkers and no queueing on an empty table; Queued and the end of the queue if there are workers but no candidate; otherwise a valid reply and no queueing |
| Scheduler.FifoScheduler.Cancel | scheduler.go:111-139 | removes and deactivates the first request with the ID, or fails and changes nothing |
| Scheduler.FifoScheduler.Completed | scheduler.go:141-146 | changes the table by one report, fails exactly for unknown workers, keeps the queue quiet |
| Scheduler.FifoScheduler.AddWorker | scheduler.go:148-158 | replaces the entry outright and drains the queue |
| Scheduler.FifoScheduler.UpdateWorker | scheduler.go:160-170 | changes the table by one update and drains the queue |
| Scheduler.FifoScheduler.RemoveWorker | scheduler.go:172-179 | removes the entry and keeps the queue quiet |
| Scheduler.FifoScheduler.ServeFirst | scheduler.go:212-224 | the inner loop sends one valid reply to the first request that can be served, and nothing if there is none |
| Scheduler.FifoScheduler.RemoveServed | scheduler.go:226-229 | takes the served request out of the slice |
| Scheduler.FifoScheduler.ScheduleRequests | scheduler.go:204-236 | the restarting loop ends, and is one stable partition: exactly the servable requests leave, in queue order, with one valid reply each; the rest are untouched |
| Scheduler.FifoScheduler.DrainedMeans | scheduler.go:204-236 | of each request the loop found: it stays, untouched, exactly if no worker is a candidate for it; otherwise it is sent one valid reply that names a fastest worker with room that it can reach |
| Scheduler.FifoScheduler.KeepsQuiet | scheduler.go:141-146 | reports make no queued request servable |
| Scheduler.ServerState.UpdateWorker | server.go:116-128 | the server stores the worker with its addresses sorted and the time of arrival |
| Client.FindWorker | client.go:133-167 | the reply loop computes Search |
| Client.FirstAnswerDecides | client.go:145-166 | the first read that is no timely Queued decides: timeout, no workers, the answer, a connection error or an unknown type |
| Client.NoAnswerIsAnError | client.go:137-143 | without such a read the search ends in a connection error |
| Client.FoundIffValidAfterQueued | client.go:133-177 | a worker is found exactly when a valid reply comes after nothing but timely Queued replies |
| ProtocolInvariant.BaseStep | server.go:220-277 | every step keeps channel contents, reply histories, waiter states, wire contents, clients' verdicts and queue order consistent |
| ProtocolSafety.LockStep | scheduler.go:81-236 | whenever the lock is let go no queued request can be served; while it is held the pending reply stays justified |
| ProtocolSafety.JustifiedStep | scheduler.go:86-106 | every reply was right for the workers known when it was written |
| ProtocolSafety.TableStep | server.go:116-134 | the table is always the replay of its history |
| ProtocolSafety.WiderIsServable | scheduler.go:297-303 | a worker that can serve a client can serve one with wider networks |
| ProtocolSafety.InclusionCovers | scheduler.go:302 | a list of networks that includes another covers it |
| ProtocolSafety.GivingIsFair | scheduler.go:92-97 | when a request is given a worker, nobody before it in the queue covers its networks |
| ProtocolSafety.FifoStep | scheduler.go:205-236 | every step keeps the queue free of overtaken requests |
| ProtocolSafety.LifeStep | server.go:188-202 | every step keeps each known worker vouched for by a connection |
| ProtocolSafety.InvStep | server.go:220-277 | every step keeps the whole invariant |
| ProtocolSafety.InvAlways | server.go:220-277 | the invariant holds in every state of every run |
| ProtocolTheorems.ArrivedOnce | server.go:220-223 | a request came with exactly one arrival, and its networks are all those it came with |
| ProtocolTheorems.AnswerOnArrival | scheduler.go:81-109 | in every run schedule writes NoWorkers exactly if nobody is known, Queued exactly if somebody is but nobody with room has an address in the networks the request came with, and else a fitting worker; queued are exactly those told so |
| ProtocolTheorems.RepliesOnTheWire | server.go:227-267 | what a client is sent is a beginning of Queued* Valid or of Queued* NoWorkers Queued* |
| ProtocolTheorems.WireIsItsSends | server.go:240-254 | each successful send puts one reply on the wire, the relayed one or a reminder, and nothing else does |
| ProtocolTheorems.RelayedInOrder | server.go:240-249 | unless a send has failed, what the waiter relayed is exactly what was written to the channel, each reply once and in order, up to the one being sent or still in the channel |
| ProtocolTheorems.RepliesAreNotLost | server.go:240-249 | unless a send has failed, a waiter leaves only after the valid reply went out last; a reply that was taken is found on the wire, possibly as a reminder, or is being sent |
| ProtocolTheorems.SentAtDelivery | scheduler.go:81-109 | only the lock holder writes to a reply channel |
| ProtocolTheorems.ClientFoundTheValidReply | client.go:133-177 | a client succeeds only with the single valid reply of its request, and nothing follows it |
| ProtocolTheorems.ClientSuccess | client.go:133-177 | when that reply was written its worker was known and had room, and none with room was faster; the address is the least one inside the least of the networks that the request came with that contains any |
| ProtocolTheorems.ClientGivesUpWithoutWorkers | client.go:155-158 | a client gives up for want of workers only if schedule found the table empty |
| ProtocolTheorems.WorkIsConserved | scheduler.go:81-179 | whenever the lock is free no worker with room has an address in any network that a queued request came with |
| ProtocolTheorems.DispatchPassPartitionsTheQueue | scheduler.go:204-236 | at every point of one pass of the dispatch loop, interleaved with anything, the requests written to so far and then the servable ones still queued are the servable ones at its start, in order; the others stay, and at the end all servable ones were served |
| ProtocolTheorems.GrantsAreDispatches | scheduler.go:212-224 | every write of the pass is one valid reply that the table at its start allows for that request |
| ProtocolTheorems.TicketsOverRun | scheduler.go:81-109 | over whole runs a request scheduled later holds a later ticket |
| ProtocolTheorems.NoOvertaking | scheduler.go:81-109 | a queued request is never overtaken by a later one whose networks it covers, on arrival or from the queue |
| ProtocolTheorems.ReplyHistories | scheduler.go:81-139 | a request's replies are [NoWorkers], [Valid], [Queued] or [Queued, Valid]; it is queued, once, exactly while they are [Queued] and it is not cancelled |
| ProtocolTheorems.CancelledIsNeverServed | scheduler.go:111-139 | a request cancelled while queued is never given a worker afterwards |
| ProtocolTheorems.RequestsAddUp | scheduler.go:81-139 | in every state, also while the lock is held: scheduled requests are those told NoWorkers, those served, those cancelled, those queued and the one being answered at once |
| ProtocolHistory.VerdictFollowsReads | client.go:133-177 | in every interleaving a client's verdict is that of its reply loop on the replies it read, in the order of the wire and each with the lateness of its read; it waits exactly while all were timely Queued replies |
| ProtocolHistory.MarksAreFailures | server.go:240-265 | a waiter gives up exactly after a reminder that failed, never because a reply could not be relayed; a request is cancelled exactly by a cancel that finds it queued |
| ProtocolHistory.WaitersFollowTheirLoop | server.go:227-267 | in every interleaving the steps of a waiter are a beginning of its loop: select, send, and a cancel only after a failed reminder, as the last |
| ProtocolHistory.HeldLockProtects | scheduler.go:81-179 | while the lock is held nobody else changes the worker table, the connections' registrations or the order of arrival, and the queue only changes with the holder's writes |
| ProtocolWorkers.LogIsHistory | server.go:139-202 | the table's history is exactly the updates, reports and drops of the run |
| ProtocolWorkers.SpeedsFollowReports | scheduler.go:238-269 | in every interleaving speeds are the fold of the reports since joining |
| ProtocolWorkers.ForeignStep | server.go:186-202 | a step leaves a known worker without a live connection exactly if it reports an ID for which none stands |
| ProtocolWorkers.KnownWorkersAreLiveIff | server.go:186-202 | over whole runs every known worker has always had a live connection if and only if there was no such report |
| ProtocolWorkers.SharedDropStep | server.go:190-195 | a step leaves a live connection's worker unknown exactly if it drops another connection with the same ID |
| ProtocolWorkers.LiveWorkersAreKnownIff | server.go:190-195 | over whole runs live connections' workers have always been known if and only if no connection dropped beside a live one with its ID |
| ProtocolWorkers.MissingIff | server.go:186-202 | a live connection's worker is missing exactly if another connection with its ID dropped and nobody reported the ID since |
| ProtocolWorkers.OneIdIsNotForeign | server.go:186-202 | connections that report one ID each send no such report |
| ProtocolWorkers.WorkersLiveWithTheirConnections | server.go:186-202 | so then every known worker has a live connection |
| ProtocolWorkers.DroppedWorkersAreNotHandedOut | server.go:186-202 | without such a report a reply being written names a worker whose connection has not dropped |
| ProtocolProgress.ScheduleNeverBlocks | scheduler.go:86-106 | the write inside schedule finds an empty channel |
| ProtocolProgress.BlockedWaiterIsInItsLoop | server.go:227-267 | a blocked write waits for an unread Queued, and unless a send failed the waiter is in select or reminding |
| ProtocolProgress.NextHelp | server.go:240-254 | unless a request is doomed there is always a step that brings the lock holder closer to letting go |
| ProtocolProgress.LockComesFreeIff | server.go:251-265 | in every state of every run the lock is free or can come free if and only if no queued, servable request has a full channel and a waiter that gave up |
| ProtocolProgress.DoomsStep | server.go:251-265 | a request gets into that state exactly if reminding its client fails while it is servable, or a worker's message makes it servable after its waiter gave up |
| ProtocolProgress.NeverLocksUpIff | server.go:251-265 | over whole runs the lock could always come free if and only if no step did that |
| ProtocolProgress.LockComesFreeWithoutFailures | server.go:227-270 | it always can while no send to a queued client has failed |
| ProtocolProgress.DoomedForever | server.go:257-265 | a doomed request holds the lock in every continuation |
| ProtocolProgress.HolderStepsAreBounded | scheduler.go:204-236 | in every interleaving the holder of the lock takes at most twice as many steps as requests were queued, and one more, before it lets go |
| ProtocolActions.RequestsCanArrive | server.go:220-223 | a request with any networks can arrive in every state, and has them all |
| ProtocolActions.RequestsCanBeAnswered | scheduler.go:81-109 | whenever the lock is free a new request can get exactly the answers that some sorting and some map order lead to, NoWorkers only from an empty table and Queued only without a worker for it; the lock is free again afterwards |
| ProtocolActions.ClientsCanRead | client.go:137-154 | a waiting client can read what is on the wire at any time, and waits on exactly after a timely Queued |
| ProtocolActions.WaitersCanRelay | server.go:238-249 | a waiter in its loop can relay the reply in its channel or fail to; a valid one ends the loop and no other |
| ProtocolActions.WaitersCanRemind | server.go:251-265 | it can time out at any moment; a reminder that fails makes it want to cancel |
| ProtocolActions.QueuedCanBeCancelled | scheduler.go:111-139 | while the lock is free such a waiter can cancel: its request leaves the queue, no other does |
| ProtocolActions.CancelIsPossibleIff | scheduler.go:111-139 | in every state that occurs such a waiter can still get its request off the queue and leave if and only if no request is doomed |
| ProtocolActions.DispatchCanEnd | scheduler.go:204-236 | the dispatch loop can let go exactly if no queued request can be served |
| ProtocolActions.DispatchCanServe | scheduler.go:212-229 | otherwise it can serve the first that can, with any reply the table allows; the write needs room in the channel |
| ProtocolActions.WorkersCanReport | server.go:116-128 | whenever the lock is free a worker can connect or report; its entry is what it reports with the known speed kept, and the dispatch loop starts |
| ProtocolActions.WorkersCanDrop | server.go:190-195 | whenever the lock is free a live connection can drop, which removes the worker it reported first and no other |
| ProtocolActions.CompletionsCanBeReported | scheduler.go:141-146 | whenever the lock is free a completion can be reported for any ID; it blends the speed of that worker, if known, and changes nothing else |
| ProtocolWitnesses.FailedSendCanTakeTheLockAway | server.go:251-265 | a run that ends with the lock taken for good |
| ProtocolWitnesses.SecondIdOutlivesItsConnection | server.go:186-202 | a run that leaves a worker without any connection |
| ProtocolWitnesses.OldConnectionTakesTheWorkerAway | server.go:186-202 | a run in which a reconnected worker is unknown |
| Observer.TableStep | observer.go:51-57 | the observer table holds exactly the registrations not touched since |
| Observer.HandlePublish | observer.go:43-71 | every message goes once, in order, to exactly the registered observers that are ready, and nothing is left out |
| Observer.SendToAll | observer.go:59-68 | one message, offered to every observer in any order |
| Observer.MonitorReceives | observer.go:47-69 | a monitor receives only what was published between its registration and its removal or replacement and while it was ready, up to the closing message |
| Observer.MonitorReceivesInOrder | observer.go:47-69 | in the order of publication and each at most once |
| Observer.MonitorMissesNothing | observer.go:59-68 | and everything published in that time while it was ready |
| Core.ParseArgs | core.go:69-102 | crashes exactly on an empty argument; otherwise the last -c, the slot after the last -o and the last argument that is no flag and no target of -o |
| Core.ParseIsUnique | core.go:69-102 | these conditions determine the result |
| Core.InputIsNotOutput | core.go:84-90 | input and output slot never coincide |
| Core.CompileArgs | core.go:163-168 | crashes exactly on an index out of range; otherwise a copy with the two slots replaced |
| Core.RewritingKeepsTheParse | core.go:163-168 | parsing the rewritten arguments finds the same slots with the new paths, and the same flag if and only if the last -c is not in the output slot |
| Core.RewritingKeepsTheFlagIff | core.go:163-168 | the rewritten arguments still have a type flag if and only if one stands outside the output slot |
| Core.RewritingCanLoseTheFlag | core.go:163-168 | the arguments -o -c a.c parse with the flag in the output slot, and no parse of the rewritten ones finds it |

## Left out

- Sockets, deadlines, message encoding, discovery, files, processes, logging and the command line: I/O, modelled where needed as steps that succeed or fail.
- Lists that mix 4-byte and 16-byte addresses: Less takes the octet index from its left operand (net.go:37-47), so such lists can crash it; addresses here are 16 bytes, as net.ParseIP makes them.
- NetLists.SortedList: sorts a copy of the list in an array, where the source sorts in place a slice that the connection's message shares with the request; here a request owns its list and nobody else sees it.
- The sort package's algorithm beyond short lists: insertion sort is modelled; with distinct addresses every algorithm gives the same list (SortingIsUnique), and the choice of a worker is stated for any sorting.
- getWorkerState, the scheduler's findWorker and sendWorkState: copies of the table that change nothing.
- getLocalIPAddrs and NetListen: searches over the operating system's interfaces and ports.
- Capacity over several dispatches: load is not raised by a dispatch, so one free slot can serve many queued requests until the next update.
- Termination of a waiter after NoWorkers: the source leaves the loop only on a valid reply or a failed reminder.
- The hand-over of the waiter's error value, after which a connection's handler returns: it touches nothing that others see.
- Read errors and unknown replies at a client inside the step system: such a client reads no more; Client.dfy has both.
- Order of readiness among monitors sharing a channel: readiness is given per host and input, which is what one inner select decides.
- Preprocess, MakeCompileJob and Validate: Preprocess overwrites slots as Compile does; Validate has no lower bounds and is not used here.
- GUIDs and machine IDs are opaque; distinct requests have distinct GUIDs.
- Floats: rounding, infinities and NaN.
