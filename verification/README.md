# A verified model of the group chat's shared state

The system is a group chat run by several Python backends behind a Go load balancer. This project models the state
those programs share and change step by step, and proves what every run of it keeps.

- `FeedCache` is the bounded, deduplicated in-memory feed: a deque of `size` messages beside an id set that is rebuilt
  when it outgrows `size + slack`. `FeedBytes` adds the pre-serialized feed with its dirty flag and one-second throttle;
  `FeedRace` splits the serialization into its separate assignments and lets puts fall in between.
- `WritePipeline` is the micro-batching writer between the handlers and the message store.
- `GossipLink`, `Cluster` and `GossipStorm` are the gossip links with their drop-oldest queues, the cluster of nodes
  that publish, lose, deliver and apply, and the cost of a publication. `FeedOrder` is the order of one node's
  publications in every node's feed, `Persistence` what becomes of them at their own node. `Backend` is one node as an
  object.
- `Names` and `Sessions` are the username search and the three indexes of the WebSocket server.
- `Health`, `Selection` and `Admission` are the decision state of the load balancer.

Operations that change state are classes. The methods of `MessageCache`, `Backend`, `RoomManager`, `WSServer` and
`Upstream` are proved equal to the step functions of their modules. `BatchWriter.Gather` and `BoundedListener.Admit` do
several steps at once, and `GatherIsSteps` and `AdmitIsSteps` say which; `PeerQueues` states its queues by the same
`Push` and prefix as the steps of a link. Runs are sequences of steps in any order, where a step that is not possible
does not happen. Concurrency is interleaving: code between two awaits, a section under a lock, or one atomic update is
one step. Sizes and settings are parameters (`Bounds`, `Thresholds`, `Config`, `maxInFlight`) where the proofs do not
depend on them. Clocks, query parameters, success or failure of a POST, of an insert, of a serialization and of a health
check are inputs of the steps.

Several promises hold only under a condition, and are stated with the exact one:

- "Never cached twice" holds for all runs over a set of ids exactly when the set has at most `size + slack` ids
  (`DedupExact`): the rebuild forgets the id it is triggered by. The code as written still keeps at most two copies of
  an id and at most ten duplicated ids, and so does every node of a cluster in every run (`NodesStayDeduplicated`). A
  node's own publications stay in order in its feed exactly within the same bound (`OwnOrderExact`); those of a node it
  has one queue from always do (`FeedKeepsOrder`), ids being published once. Keeping the new id across the rebuild
  removes every repetition (`KeepingNeverRepeats`), but evicted ids are still forgotten, so the bound stays
  (`KeepingExact`).
- "A clean flag means current bytes" holds, in that the bytes serialize the latest state of the deque, exactly when no
  put was admitted between the snapshot and the clearing of the flag (`CleanMeansCurrentExact`); `LostUpdate` is a run
  where one does.
- A writer cancelled at the queue leaves behind only what is accepted after the cancellation (`CancelAtQueueFlushes`).
  Cancelled at the bulk insert it leaves the queue behind, and the batch too when no worker thread had started on it, so
  it is complete exactly when the job had started and the queue was empty (`CancelAtInsertExact`); `CancelLoses` reaches
  both losses in four steps.
- The username index is the inverse of the joined clients' names throughout a run exactly when no connection closes
  unjoined under a name that is in the index (`IndexExactIffHarmless`), because the close handler pops the name without
  asking whose it is. `HarmfulRun` is such a run, after which two clients are joined under one name.
- An upstream's connection counter is the number of requests routed to it exactly when no handler of one of them
  panicked (`AdmissionConserves`), because the decrement is not deferred; `PanicLeaks` is a run where one does.
- Copies of one publication agree on every node exactly when it carries a non-zero timestamp (`CopiesAgreeExact`).
- "No candidate is at least as good as the load balancer's pick on all metrics and better on one" can fail, for
  non-negative metrics and positive weights, exactly when the candidate stands after the pick in the list and some
  metric of the pick, as scored, is beyond the maxima of the first loop, where normalizing clips it (`DominatedExact`);
  `RisenPickIsDominated` is a closed case.

Where `README.md` of the repository and the code differ, the code is followed: the feed keeps 20,000 messages, the write
queue 20,000 documents, and a gossip batch at most 100 packets.

## Model

| member | source | states |
|---|---|---|
| FeedCache.Compact | server/store.py:187-205 | the stored record keeps id and timestamp, clips the other fields, and leaves fields that fit unchanged |
| FeedCache.CompactFields | server/store.py:190-205 | each stored field is the first non-empty source of it, cut to its first 100, 2,000 or 24 characters, and the timestamp is the message's own or else the clock |
| FeedCache.CompactIsStable | server/store.py:190-205 | storing a stored record again, at any later time, changes none of its fields |
| FeedCache.DedupAsWritten | server/store.py:207-217 | over every sequence of puts the deque is the last messages admitted, the id set is bounded, at most one id of the deque is missing from it and that one occurs once, and no id occurs more than twice |
| FeedCache.EveryIdAdmitted | server/store.py:208-216 | every id that is put is admitted at least once |
| FeedCache.RebuildsAreRare | server/store.py:210-214 | two rebuilds are more than `slack` admissions apart, so all rebuilds together cost at most size/(slack+1) iterations per admission |
| FeedCache.FewRepeatedIds | server/store.py:207-216 | at any moment at most (size+slack)/(slack+1) ids are duplicated in the deque |
| FeedCache.TenRepeatedIds | server/store.py:98 | with 20,000 messages and slack 2,000 at most ten ids are duplicated |
| FeedCache.WithinCapacity | server/store.py:207-216 | while at most size+slack ids have been seen the cache is the tail of the first-occurrence log, without repetition |
| FeedCache.DedupExact | server/store.py:207-216 | the cache meets the first-occurrence specification on all runs over a set of ids if and only if the set has at most size+slack ids |
| FeedCache.DeployedExact | server/store.py:98-100 | as deployed the cache holds the last 20,000 messages of the first-occurrence log on all runs over a set of ids if and only if it has at most 22,000 |
| FeedCache.SecondPutExact | server/store.py:429-441 | the second put of a message changes nothing if and only if the first did not rebuild the set around an id new to the deque |
| FeedCache.KeepingNeverRepeats | server/store.py:210-216 | if the new id were kept across the rebuild no id would ever repeat, and putting anything in the deque again would change nothing |
| FeedCache.KeepingExact | server/store.py:210-216 | even then the first-occurrence specification is met on all runs over a set of ids if and only if it has at most size+slack ids |
| FeedBytes.MessageCache.constructor | server/store.py:98-112 | the feed starts empty, dirty, with the bytes of the empty list |
| FeedBytes.MessageCache.Put | server/store.py:184-217 | a put of a known or empty id changes nothing; any other is admitted, rebuilding the id set on overflow, and marks the feed dirty |
| FeedBytes.MessageCache.Get | server/store.py:220-229 | the last messages of a room, or of all rooms, in admission order, for any limit: 0 is no limit, a negative one drops that many of the oldest |
| FeedBytes.MessageCache.GetFeedBytes | server/store.py:115-137 | serves the cached bytes while clean or throttled, otherwise the deque as it stands |
| FeedBytes.FilterRoomExact | server/store.py:226 | a room's messages are exactly the deque's messages of that room, in order |
| FeedBytes.PutMessageExact | server/store.py:184-217 | a put appends the stored record to the bounded deque and marks the feed dirty exactly when its id is neither empty nor known; otherwise nothing changes |
| FeedBytes.FeedIsFresh | server/store.py:115-137 | with atomic steps a clean flag means current bytes, and a fetch serves the deque of some instant less than a second old unless serializing fails |
| FeedBytes.DueFetchSerializes | server/store.py:115-134 | a fetch serializes, and serves the latest deque, exactly when a put is waiting and a second has passed since the last serialization |
| FeedBytes.SerializesOncePerSecond | server/store.py:118 | whatever the bursts, serializations are at least a second apart |
| FeedBytes.SerializesPerPut | server/store.py:118-134 | a clean feed is never serialized again: serializations do not outnumber admitted puts, but for one |
| FeedRace.ReadingsAreRealAndOrdered | server/store.py:121-137 | under interleaving every read serves the bytes as they stand, a state the deque passed through, and without failures no later read is older |
| FeedRace.CleanMeansCurrentExact | server/store.py:129-134 | a clean feed lags by exactly as many states of the deque as puts were admitted between the snapshot and the clearing of the flag |
| FeedRace.CleanStaysUntilNextPut | server/store.py:123-128 | once clean, the bytes do not change until another put is admitted, however often they are fetched |
| FeedRace.LostUpdate | server/store.py:130-134 | a put inside the window is served by no fetch until another one follows |
| FeedRace.UninterruptedIsAtomic | server/store.py:125-137 | without interleaving the five steps are the atomic fetch |
| WritePipeline.FirstWinsSnoc | server/store.py:346-350 | inserting into a collection with unique ids keeps the first document of every id |
| WritePipeline.BulkKeepsFirstWins | server/store.py:342-350 | a successful bulk insert is the one-by-one insert: the first document of an id wins |
| WritePipeline.InsertManyExact | server/store.py:342-350 | whichever documents fail, nothing stored is replaced, and a new id is stored with the first document of it that reached the store |
| WritePipeline.PipelineConserves | server/store.py:353-385 | submitted batches, final flush, abandoned batch, current batch and queue, in this order, are always the accepted documents, and normal batches have 1 to 500 documents |
| WritePipeline.EnqueueExact | server/store.py:443-448 | in every run a document is accepted, at the end of the queue, exactly while fewer than 20,000 are queued |
| WritePipeline.WriterCanDrain | server/store.py:353-385 | from every state before a cancellation the writer can go on until everything accepted is in the store, the first of each id |
| WritePipeline.StoreIsFirstWins | server/store.py:342-385 | if all inserts succeed the store is the first-wins map of what was submitted; under failures it holds accepted documents only |
| WritePipeline.CancelAtQueueFlushes | server/store.py:371-381 | cancelled while waiting at the queue, whatever follows, the writer inserts all that was accepted before, and what stays in the queue is exactly what was accepted after |
| WritePipeline.CancelAtInsertExact | server/store.py:383-385 | cancelled at the bulk insert, nothing more is ever written and the queue is left behind, with the batch if its job was still waiting for one of the four worker threads; all was submitted if and only if the job had started and the queue was empty, and unless an insert failed the store is complete if and only if the ids left behind are in it |
| WritePipeline.CancelLoses | server/store.py:383-385 | two documents accepted and one gathered: a cancellation then loses both, or the second once the job has started |
| WritePipeline.GatherIsSteps | server/store.py:357-370 | one call of the gathering loop is the step sequence of first, further takes and close, for every batch size in bounds |
| WritePipeline.BatchBoundExact | server/store.py:362 | a batch can reach every size up to 500 if more than 50 documents stay queued behind the first, up to 100 otherwise, arrivals included, and none beyond |
| WritePipeline.BatchWriter.Append | server/store.py:443-448 | a document is queued unless the queue is full, in which case it is dropped |
| WritePipeline.BatchWriter.Gather | server/store.py:357-370 | a batch is a prefix of the queue that ends only at its bound, an empty queue or the end of the window; with the window open it takes the whole queue up to 500 |
| WritePipeline.BatchWriter.BulkInsert | server/store.py:342-350 | the loop over a batch is the bulk insert |
| WritePipeline.BatchWriter.Flush | server/store.py:372-380 | the whole queue is inserted and emptied |
| GossipLink.LinkIsSafe | server/gossip.py:54-92 | with drops and losses a queue is a bounded contiguous suffix of what was published, batches are bounded, and applied, in-flight and queued packets are an in-order subsequence of it that accounts for every packet not lost or dropped |
| GossipLink.AppliedInOrder | server/gossip.py:75-83 | what a peer has applied is an in-order subsequence of what was published |
| GossipLink.BurstKeepsLatest | server/gossip.py:131-159 | after any burst a queue holds its latest 1,000 packets, and exactly the rest is counted as dropped |
| GossipLink.TakesAnyBatch | server/gossip.py:59-73 | between two posts any batch of 1 to 100 queued packets can be taken, and no other, and a post applies or loses all of it |
| GossipLink.PeerQueues.constructor | server/gossip.py:111-128 | one empty queue for each peer |
| GossipLink.PeerQueues.Broadcast | server/gossip.py:131-159 | every peer's queue gains the packet, a full one at the price of its oldest |
| GossipLink.PeerQueues.GatherBatch | server/gossip.py:61-73 | a batch is a prefix of 1 to 100 packets of one queue, all of them up to 100 while the window is open; the other queues are untouched |
| Cluster.CopiesAgreeExact | app.py:205-215 | the local copy and the one that persistence and gossip build are stored alike, whenever they arrive, if and only if the publication carries a timestamp |
| Cluster.FeedHoldsPublications | app.py:201-301 | every entry of every feed of every run is a publication of some node, its name, text and room from their start and its timestamp |
| Cluster.LinkStepsAnyTime | server/gossip.py:54-92 | at any point of any run the events of a link do to it what they do to a link on its own, so LinkIsSafe and the burst and batch results hold of every link of the cluster |
| Cluster.OffersAnyTime | server/gossip.py:131-159 | at any point of any run a publication is offered to every link that leaves its node, and to no other |
| Cluster.NodesStayDeduplicated | app.py:201-301 | on every node of every run, with losses and drops: at most one id of the deque is missing from the id set, no id occurs more than twice, at most (size+slack)/(slack+1) ids are repeated, and none while the node knows at most size+slack ids |
| Cluster.QuietCachesExact | app.py:265-301 | in a quiet state without losses, within capacity, each cache holds exactly the ids its node published or heard, once each, whatever the topology and the server ids |
| Cluster.Convergence | app.py:201-227 | with distinct server ids and all-pairs queues, in a quiet state without losses a cache holds every published id if and only if they fit it, and consistent publications are stored alike on all nodes |
| Cluster.PersistChangesNothing | app.py:219-222 | while a node knows at most size+slack ids the second put of a publication changes nothing |
| Persistence.PersistedOnce | app.py:219-222 | on every run what a node has persisted and what still waits are, together, what it has published, each as often |
| Persistence.AnyTaskCanRun | app.py:219-222 | at any point of any run each waiting task can be the next to run, and then it and no other is done |
| Persistence.IdleMeansPersisted | app.py:219-222 | where nothing is left to do every publication has been persisted exactly as often as it was published |
| Persistence.FeedIsRunOfPuts | app.py:201-301 | the feed of a node is the feed of one cache into which its publications, the persisted ones and the packets of others are put in the order of the events |
| GossipStorm.OwnPacketsIgnored | app.py:269-271 | packets of the receiver's own origin change nothing |
| GossipStorm.NoGossipStorm | app.py:250-259 | m publications with at most p peers each cause at most m*p applications |
| GossipStorm.WorkDecreases | app.py:265-301 | every step that is not a publication leaves less to do |
| GossipStorm.WorkCanProceed | server/gossip.py:59-83 | while anything is queued, in flight or pending, a step that loses nothing is possible |
| GossipStorm.FallsQuiet | server/gossip.py:59-83 | without new publications a run is bounded by the work at its start, and where it cannot go on the cluster is quiet |
| GossipStorm.CanConverge | app.py:201-301 | every run without losses so far goes on, publishing and losing nothing, to a quiet state in which every cache holds all published ids if and only if they fit, and consistent publications are stored alike |
| GossipStorm.LossDiverges | server/gossip.py:83-92 | one lost batch leaves a quiet cluster in which the other node never holds the publication |
| FeedOrder.FeedKeepsOrder | app.py:201-301 | with one queue between two nodes and ids published once, the publications of a node stand in every other node's feed in the order they were published, with losses, drops and evictions, and in its own feed while it knows at most size+slack ids |
| FeedOrder.OwnOrderExact | server/store.py:207-216 | a node's own publications are in order in its feed on all runs over a set of ids if and only if the set has at most size+slack ids |
| Backend.Backend.constructor | app.py:54-57 | a node starts with an empty cache and empty queues |
| Backend.Backend.Publish | app.py:201-227 | a publication is the publishing step of the node and is queued for every peer |
| Backend.Backend.Persist | server/store.py:429-441 | the persistence task is the persisting step of the node, which puts the publication a second time |
| Backend.Backend.ReceiveGossip | app.py:265-301 | a received batch is the delivery step of the node: applied in order to the cache and to nothing else, own-origin packets skipped |
| Names.CandidatesDiffer | server/ws_server.py:117-119 | no two candidate names collide, even without regard to case |
| Names.LeastFree | server/ws_server.py:112-120 | the least suffix whose lower-case name is free, no larger than the number of names taken |
| Names.UniqueNameForm | server/ws_server.py:112-120 | a free name is kept, a taken one gets (k), k in decimal, where 1 to k-1 are taken too |
| Names.UniqueUsername | server/ws_server.py:112-120 | for every lower-casing that leaves a numeric suffix alone, the loop tries at most one name more than are taken and returns the requested name if free, else the least free suffix |
| Sessions.MembershipIsPartition | server/ws_server.py:156-166 | after every step a client id is in a room's members exactly when it is connected in that room, shown under its name, and rooms only grow |
| Sessions.CountsAddUp | server/rooms.py:51-56 | the member counts of all rooms add up to the number of connected clients |
| Sessions.ConnectEntersRoom | server/ws_server.py:126-166 | a connection puts the client, unjoined and under its query or guest name, into the valid room it asks for, else the first default room, and into no other |
| Sessions.JoinEntersRoom | server/ws_server.py:254-292 | a first join does the same and names the client: the requested name cut to 100 characters, or the guest name, made unique |
| Sessions.SwitchMovesExact | server/ws_server.py:407-432 | a switch ends in the room if and only if the client was there, or is named and asks for an existing room by a valid name; it adds no room and otherwise changes nothing |
| Sessions.SwitchesAtAnyTime | server/ws_server.py:407-432 | the same for a switch at any point of any run |
| Sessions.NextKeepsIndexExact | server/ws_server.py:227-233 | one step keeps the username index exact if and only if it is not an unjoined close under an indexed name |
| Sessions.IndexExactIffHarmless | server/ws_server.py:227-284 | the index is exact throughout a run if and only if no close of the run is of that kind |
| Sessions.PoliteLookups | server/ws_server.py:373-391 | if every connection that names itself in its query joins before it closes, the index is injective, every lookup reaches a live client of that name, and every joined client is found |
| Sessions.HarmfulCloseSharesName | server/ws_server.py:232-233 | after a harmful close the next client to ask for the name shares it with its live owner |
| Sessions.HarmfulRun | server/ws_server.py:232-233 | a run from the start in which a close takes the name of another client, the index is no longer exact, and two clients end up joined under one name |
| Sessions.NameKeepsOwner | server/ws_server.py:232-284 | between any two moments of any run an indexed name keeps its owner, whoever joins, if and only if no client of that name closes |
| Sessions.JoinOwnsName | server/ws_server.py:254-284 | a first join touches no other client, takes a free name, the requested one if possible, and keeps it until a client of that name closes |
| Sessions.CreatorIsInside | server/ws_server.py:454-464 | a named client that creates a room by a valid name ends up in it, and only that room is added |
| Sessions.CreatesAtAnyTime | server/ws_server.py:454-464 | at any point of any run a named client that creates a room by a valid name ends up in it alone, the room exists, and any other creation changes nothing |
| Sessions.CreateNeedsName | server/ws_server.py:454-464 | creating changes nothing if and only if the client has no name, the name is not valid, or the client is in the room already |
| Sessions.RoomNameBounds | server/ws_server.py:13 | room names have 1 to 24 letters, digits, underscores or hyphens, and the pattern lets one newline end them |
| Sessions.ConnectCloseExact | server/ws_server.py:126-166 | connecting and closing without a join leaves clients, members and names as they were, the names if and only if the query name was not indexed |
| Sessions.NamesAreUnique | server/ws_server.py:112-120 | in such polite runs two joined clients never have names that agree in lower case |
| Sessions.AdminsAreNamed | server/ws_server.py:270 | the moderators are exactly the joined clients whose lower-case name is configured |
| Sessions.ModeratorsAreBounded | server/ws_server.py:270 | in polite runs there are never more moderators than configured moderator names, whatever names are configured |
| Sessions.RoomManager.Ensure | server/rooms.py:42-46 | a room that does not exist is created empty |
| Sessions.RoomManager.Join | server/rooms.py:58-60 | the member is recorded in the room, which is created if needed |
| Sessions.RoomManager.Leave | server/rooms.py:62-65 | the member is removed from the room, an unknown room is ignored |
| Sessions.WSServer.constructor | server/ws_server.py:17-25 | no clients, no names, the configured default rooms |
| Sessions.WSServer.HandleConnection | server/ws_server.py:126-166 | the client is registered and shown in the requested or the default room |
| Sessions.WSServer.HandleJoin | server/ws_server.py:254-292 | the first join names the client, indexes it and moves it; a repeated join changes nothing |
| Sessions.WSServer.HandleSwitchRoom | server/ws_server.py:407-432 | a named client moves to an existing, valid, different room, anything else changes nothing |
| Sessions.WSServer.HandleCreateRoom | server/ws_server.py:454-464 | a valid room is created if needed and the client switched to it |
| Sessions.WSServer.HandleClose | server/ws_server.py:227-236 | the client, its name and its membership are removed |
| Health.StreaksAreTrailingRuns | load-balancer/main.go:485-494 | the streak counters are the lengths of the trailing runs of failures and successes |
| Health.HealthIsHistory | load-balancer/main.go:482-499 | healthy if and only if there was never a full run of failures, or the last one was later followed by a full run of successes |
| Health.DeployedHealth | load-balancer/main.go:482-499 | as deployed, six failures in a row take an upstream out and two successes in a row bring it back |
| Health.LatencyClosedForm | load-balancer/main.go:252-256 | for every smoothing factor the estimate is (1-alpha)^n times the initial value plus alpha times the samples weighted by (1-alpha) to the power of their age |
| Health.DeployedLatency | load-balancer/main.go:252-256 | as deployed, 0.6^n times 10 plus 0.4 times the samples weighted by 0.6 to the power of their age |
| Health.LatencyInRange | load-balancer/main.go:252-256 | the estimate stays in the range of the initial value and the samples |
| Health.LatencyConverges | load-balancer/main.go:255 | on constant samples the error is the initial error times (1-alpha)^n |
| Health.Upstream.constructor | load-balancer/main.go:355-361 | an upstream starts healthy with latency 10 |
| Health.Upstream.CheckHealth | load-balancer/main.go:482-499 | one check result updates streaks and health |
| Health.Upstream.UpdateLatency | load-balancer/main.go:252-256 | one sample is blended into the estimate |
| Selection.Normalize | load-balancer/main.go:270-282 | a normalized metric lies between 0 and 1 |
| Selection.Candidates | load-balancer/main.go:407-420 | the healthy upstreams that are not excluded, or all that are not excluded if none is healthy, in list order |
| Selection.FindMaxima | load-balancer/main.go:431-445 | the maxima over the candidates as read in the first loop, at least 1 |
| Selection.PickExcluding | load-balancer/main.go:407-457 | the first candidate of least score, maxima and scores taken from two separate readings; the first upstream if there is no candidate; none only for an empty list |
| Selection.PickAvoidsUnhealthy | load-balancer/main.go:407-420 | the pick is healthy and not excluded whenever such an upstream exists, and not excluded whenever another exists |
| Selection.PickIsDetermined | load-balancer/main.go:431-456 | what is read and the exclusion determine the pick |
| Selection.ScoreRange | load-balancer/main.go:258-268 | a score lies between 0 and the sum of the weights |
| Selection.PickIsUndominated | load-balancer/main.go:447-456 | with positive weights a candidate that dominates the pick, as scored, stands after it in the list and is better only where both are beyond the maxima |
| Selection.PickIsFirstBest | load-balancer/main.go:447-456 | given a candidate, an upstream is the pick if and only if it is the first candidate of least score under the maxima |
| Selection.PickWrittenOut | load-balancer/main.go:258-282 | for any weights and readings the pick is the first candidate that no other undercuts in the sum of each metric's clamped difference, over its maximum, times its own weight |
| Selection.LoneWeightPick | load-balancer/main.go:267 | where only the weight of connections, latency or cpu is positive, the pick is the first candidate with least of that metric |
| Selection.LaterOfTwo | load-balancer/main.go:267 | of two candidates within the maxima the later is picked if and only if its weighted sum is less |
| Selection.DominatedExact | load-balancer/main.go:270-282 | for positive weights, there is a non-negative reading with which another candidate dominates the pick and is still not picked if and only if it stands after the pick and a scored metric of the pick, none being negative, is beyond the maxima of the first loop |
| Selection.RisenPickIsDominated | load-balancer/main.go:431-456 | two upstreams whose loads both rise beyond the maximum between the readings: the busier one is picked, whatever the weights |
| Selection.RoundTrip | load-balancer/main.go:291-319 | one attempt, and after a failure one more on another upstream if there is one, healthy if one is |
| Admission.AdmissionConserves | load-balancer/main.go:563-630 | over all interleavings tokens are the gated requests in progress and no more than the maximum, and an upstream's counter is the requests routed to it plus those whose handler panicked, so exact if and only if none did |
| Admission.AcquireExact | load-balancer/main.go:584-593 | in every run a queued request gets a token exactly while fewer than the maximum hold one |
| Admission.GateFills | load-balancer/main.go:584-586 | any number of tokens up to the maximum can be held at once |
| Admission.RoutesAnywhere | load-balancer/main.go:564-620 | a gated request can be routed to any upstream and a WebSocket opened to any without a token, each counted there |
| Admission.CanComplete | load-balancer/main.go:563-630 | in every state of every run each request can be completed on its own, by way of any upstream, and nothing leaks |
| Admission.PanicLeaks | load-balancer/main.go:563-630 | one request whose handler panics: it is gone and its token returned, and the upstream counts one request |
| Admission.SocketPanicLeaks | load-balancer/main.go:564-575 | a WebSocket whose handler panics leaves one connection counted for ever |
| Admission.ListenerIsBounded | load-balancer/main.go:156-184 | open connections never exceed the bound, and the counter is open connections plus accepts in progress, however often each is closed |
| Admission.AdmitIsSteps | load-balancer/main.go:163-183 | counting and deciding without interleaving admits a connection exactly while fewer than the maximum are counted |
| Admission.ClosingMakesRoom | load-balancer/main.go:134-184 | a full listener rejects, and admits again once an open connection has been closed; closing it again changes nothing |
| Admission.BoundedListener.Admit | load-balancer/main.go:163-183 | a connection is admitted exactly while fewer than the maximum are open, and a rejected one leaves the count unchanged |
| Admission.TrackedConn.Close | load-balancer/main.go:134-141 | only the first close counts the connection out |

## Left out

- JSON, HTTP, WebSocket frames, MongoDB connections: the cached bytes are represented by the list they serialize, a POST
  by applied or lost as a whole, a bulk insert by the documents it wrote.
- Encryption and signatures (`server/crypto.py`) and the key caches of `server/store.py`: library calls around opaque
  primitives, and no part of the state modelled here.
- Request parsing in `post_message`: field aliases, the empty-message error and whitespace stripping; a publication
  starts with a non-empty id and room, which the handlers guarantee.
- Ids are strings; ids of other JSON types are not modelled.
- `warm_cache_from_db`, history back-fill and private messages: they put into the local cache only and are not gossiped.
- The direct insert used when no batch writer runs, and other nodes writing to the shared collection.
- The case mapping itself: `Lowering` is any function that lower-cases a name with a suffix `(k)` as the lower-case name
  with that suffix, since parentheses and digits have no case; `AsciiKeepsSuffix` shows that the mapping of A to Z is
  one.
- An empty list of default rooms, with which every connection that names no valid room fails.
- A writer task that is cancelled before its first step.
- The moment at which a worker thread finishes an insert whose task was cancelled: it is counted at the cancellation.
- Delivery to clients: `RoomManager.broadcast`, send queues, presence, kicks and muting do not change the three indexes.
- The name order of `list_rooms`; only its counts are stated.
- The choice in `Admission` is any upstream; `Selection` says which one a pick takes.
- Request and error totals, metrics scraping, body buffering and socket options of the load balancer.
