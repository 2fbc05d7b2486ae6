# ServiceFramework in Dafny

A Dafny 4.11 model of the parts of ServiceFramework that carry state across calls, threads or events, with proofs of
what they keep. `dafny verify dfyconfig.toml` checks everything.

| file | models |
|---|---|
| `Rendezvous.dfy` | weighted rendezvous hashing |
| `HttpFetch.dfy` | one HTTP fetch: reference-counted client, reply callback, waiting fiber |
| `ConnIds.dfy` | the wrapping connection-id counter and 64-bit ids |
| `ThreadLocalConns.dfy` | a thread's connection table and the connection handler |
| `ConnSystem.dfy` | all threads' tables, handlers and cross-thread sends as one state machine |
| `IoThreadConns.dfy` | an I/O thread's three connection indexes |
| `IoThreadPool.dfy` | the pool in front of the I/O threads' managers |
| `ServerDispatch.dfy` | dispatch by server name, hopping from thread to thread |
| `FiberTable.dfy` | the table of outstanding fiber records |
| `Snowflake.dfy` | time-based identifiers |
| `BitOps.dfy` | the shifts, masks and bitwise or that identifiers are packed with |
| `ThreadGroups.dfy` | the thread table behind sends by id |
| `TcpReconnect.dfy` | the reconnecting TCP client |
| `ServiceRegistry.dfy` | service start-up |
| `UrlCodec.dfy` | percent-encoding |

Objects whose methods update their fields are classes. Their methods are proved against functions on values, and the
properties are proved about those functions over whole runs: a run is any sequence of events, each legal where it
happens. The process-wide runs of `ConnSystem` begin where `ThreadGroups.Initialize` leaves off, and use the table
operations that `ThreadLocalConns` proves its methods against.

What the environment is taken to do:

- Event loops handle one event at a time. Sockets, pipelines and DNS appear as events or as inputs of a call.
- The HTTP library answers a connect with an error, or with success followed by any headers, body and errors and one
  detach. A fiber baton is settled by the first of a post and a timeout.
- wangle answers each connect once and deletes each pipeline once, although `ConnHandler::close` passes every close on;
  a scheduled timer fires once.
- Only live pipelines register as servers. `IndexesAgreeInEveryRun` rests on it, and `RegisteredAgreesExactly` says that
  it is needed. Each close is told once, with the connection's own id, which is what `ConnHandler` does.
- There are at most 2^32 threads, so that a thread's number fits the high half of an id.
- `std::pow` and the two hash functions are parameters. `Rendezvous.Lawful` lists the laws used: the hash fits 64 bits;
  0 and 1 are fixed points; the first power is the identity; powers grow with the base; exponents multiply and add.
  With whole weights the order of scores is the order of whole powers (`ScoreOrderByIntPow`), and for that order the
  selection loop and the removal of a node, cut-off included, are proved without any law (`BestOfIsChoice`,
  `WholeRemoval`).
- Clock readings are a function from reading number to milliseconds.

Where code and comments differ, the model follows the code:

- The id counters of both connection managers are commented as never giving 0. On wrap they skip a counter value but
  still give 0, and from then on never give 1 again (`ConnIds`).
- `http_client.h` promises headers only with result 0; they also come with `HTTP_ERROR`
  (`HttpFetch.HeadersWithError`; `ReplyIsWhatArrived` says exactly when).
- The snowflake header describes 41 timestamp bits and the original waits for the next millisecond; the code keeps 25
  bits and waits for a positive reading (`Snowflake.WrittenRunGrowsExactly`, `FrozenClockRepeats`, `RepeatsEachBlock`;
  `MeantWaitGrows` is the wait as the original has it).
- `rendezvous_hash.h` says the constructor throws when the weights add up to zero; it throws below machine epsilon.
- `GetEventBaseByThreadType` looks its draw up in the table of all threads rather than the group's
  (`ThreadGroups.PickByTypeExact`).

Properties that do not hold as one would hope, each with a counterexample and the exact condition:

| what fails | counterexample | exact condition |
|---|---|---|
| removing or adding a node moves a key between two others | `LiftedNodeTakesKey` | `RemovalExact`, `AdditionExact` |
| raising a weight moves a key between two others | `RaisingMovesAnotherKey` | `RaisingExact` |
| a send to a closed connection reaches a stranger | `LapIsTight` | `StrangerExactly` |
| a close disturbs the three indexes | `SecondCloseHitsStranger` | `ClosedAgreesExactly` |
| a fiber record is handed out but not entered | `LapOldRecordShadows` | `AllocAgreesExactly` |
| identifiers repeat | `FrozenClockRepeats` | `RunGrowsExactly`, `WrittenRunGrowsExactly` |
| the thread-safe and the other worker give the same identifier | `UnsafeWorkerMeets` | `UnsafeWorkerMeets` |
| the id of a new connection may not be closed | `ClosableExactly` | `ClosableExactly` |
| something still happens after Stop | `StopLeavesAFault` | `StopIsFinalExactly` |
| headers come without result OK | `HeadersWithError` | `ReplyIsWhatArrived` |
| a timed-out fetch returns a reply | `LateReplyAfterTimeout` | `SyncResult` |
| a lower-case escape decodes to another byte | `LowerCaseMisread` | `EscapeExactly` |
| a draw by thread type picks another group's thread | `PickByTypeMisses` | `PickByTypeExact`, `PickByTypeSafe` |

## Model

| member | source | states |
|---|---|---|
| `Rendezvous.RendezvousHash.Get` | baselib/base/config/rendezvous_hash.cc:118-135 | returns the least index whose score is the maximum, 0 for no nodes |
| `Rendezvous.RendezvousHash.NormalizeWeights` | baselib/base/config/rendezvous_hash.cc:137-148 | divides every weight by the total, or reports a total below epsilon and changes nothing |
| `Rendezvous.RendezvousHash.Build` | baselib/base/config/rendezvous_hash.h:33-41 | fails on a negative weight, then on a total below 2^-52, and otherwise holds every node in order under the hash of its name, with weights that are its share and add up to 1 |
| `Rendezvous.NormalisationKeepsChoice` | baselib/base/config/rendezvous_hash.cc:118-148 | for every acceptable list and key, normalising never changes the choice: it is the choice by raw weights with the cut-off scaled to the total |
| `Rendezvous.CutOffNotChosen` | baselib/base/config/rendezvous_hash.cc:126-132 | a node at or below the cut-off is not chosen while a node above it has a non-zero hash |
| `Rendezvous.EqualWeightsChoice` | baselib/base/config/rendezvous_hash.cc:118-135 | with equal weights, for fewer than 2^52 nodes, the choice is the first node whose 64-bit hash for the key is the largest |
| `Rendezvous.PositiveExactly` | baselib/base/config/rendezvous_hash.cc:124-128 | a node scores above 0 if and only if its share of the weights is above 2^-52 and its hash for the key is not 0 |
| `Rendezvous.TwoNodesExactly` | baselib/base/config/rendezvous_hash.cc:118-135 | of two nodes with whole weights v and w the second is chosen if and only if its hash as a part of 2^64 - 1, to the power v, is above that of the first to the power w |
| `Rendezvous.NormalisedTotal` | baselib/base/config/rendezvous_hash.cc:137-148 | the normalised weights add up to 1 |
| `Rendezvous.RemovalExact` | baselib/base/config/rendezvous_hash.cc:118-148 | removing a node leaves another node's key in place if and only if every node the smaller total lets over the cut-off still loses to it |
| `Rendezvous.RemovalMovesOnlyItsKeys` | baselib/base/config/rendezvous_hash.cc:118-148 | removing a node moves only that node's keys when the cut-off lets no other node in |
| `Rendezvous.AdditionMovesOnlyOntoNode` | baselib/base/config/rendezvous_hash.cc:118-148 | adding a node moves a key only onto it as long as the larger total does not shut out the node that had the key |
| `Rendezvous.AdditionExact` | baselib/base/config/rendezvous_hash.cc:118-148 | a key that does not go to the new node stays if and only if the larger total does not shut out the node that has it, or that node is the first and every score is 0 |
| `Rendezvous.RaisingMovesOnlyOntoNode` | baselib/base/config/rendezvous_hash.cc:118-148 | raising a weight moves keys only onto that node as long as the former owner stays above the cut-off |
| `Rendezvous.RaisingExact` | baselib/base/config/rendezvous_hash.cc:118-148 | a key that neither was nor goes to the raised node stays under the same condition, and only then |
| `Rendezvous.LiftedNodeTakesKey` | baselib/base/config/rendezvous_hash.cc:126-148 | a family of three nodes where removing the third moves a key from the first to the second |
| `Rendezvous.RaisingMovesAnotherKey` | baselib/base/config/rendezvous_hash.cc:126-148 | a family of three nodes where raising the third moves a key from the second to the first |
| `Rendezvous.ScoreOrderByIntPow` | baselib/base/config/rendezvous_hash.cc:124-129 | with whole weights the score order is the order of whole powers |
| `Rendezvous.BelowMixed` | baselib/base/config/rendezvous_hash.cc:129-132 | the order by whole powers is a strict weak order |
| `Rendezvous.BelowTransitive` | baselib/base/config/rendezvous_hash.cc:129-132 | the order by whole powers is transitive |
| `Rendezvous.BestOfIsChoice` | baselib/base/config/rendezvous_hash.cc:119-134 | for whole weights and without any law of pow, comparing each node only with the best so far finds the least index that no node is above |
| `Rendezvous.WholeRemoval` | baselib/base/config/rendezvous_hash.cc:118-148 | for whole weights and without any law of pow, cut-off and renormalisation included: a key of another node outlives a removal, and the loop finds it there, if and only if every node let over the cut-off loses to it |
| `Rendezvous.WholeChoiceIsChoice` | baselib/base/config/rendezvous_hash.cc:118-148 | under the laws, the choice by whole powers of the weights as given is the choice by the scores of the normalised weights |
| `HttpFetch.CalledBackAndDestroyedOnce` | baselib/net/server/http_client.cc:85-98 | in every interleaving the callback runs at most once, the count is the number of those still using the client and is never released below zero, and the client dies exactly when caller and library are both done with it |
| `HttpFetch.ReleaseExactly` | baselib/net/server/http_client.cc:85-98 | a release is an error exactly without a reference, the last one destroys the client, and a release undoes a reference taken |
| `HttpFetch.ReplyFrozen` | baselib/net/server/http_client.cc:303-350 | after the return no event changes the returned reply, its post count or the fiber state |
| `HttpFetch.SyncResult` | baselib/net/server/http_client.cc:291-350 | a result exactly when the callback ran before the return, a body only with OK, one post at most, no wait on an invalid fetch, state kTimeout exactly when the timer fired in the run |
| `HttpFetch.ReplyIsWhatArrived` | baselib/net/server/http_client.cc:213-249 | the returned reply is exactly INVALID for an invalid call, CONNECT_ERROR for a failed connect, and otherwise the headers, body and error reported; headers without OK exactly when headers and an error both arrived |
| `HttpFetch.HeadersWithError` | baselib/net/server/http_client.cc:213-249 | a run that returns HTTP_ERROR together with headers |
| `HttpFetch.CallbackGetsReply` | baselib/net/server/http_client.cc:217-289 | the callback of either kind of fetch is given that same reply, exactly once the fetch has come to its end |
| `HttpFetch.CanFinish` | baselib/net/server/http_client.cc:217-238 | from every reachable state a started fetch can be brought to its end |
| `HttpFetch.LateReplyAfterTimeout` | baselib/net/fiber_data_manager.cc:104-119 | for any headers and body, a run that ends in state kTimeout with result OK and both of them |
| `HttpFetch.CallEffect` | baselib/net/server/http_client.cc:138-211 | for either kind of call: a client is created exactly when a fetch starts, the fiber waits exactly on a valid synchronous fetch, and a fetch stays in flight exactly when it is valid and the connect does not fail at once |
| `HttpFetch.FinishEffect` | baselib/net/server/http_client.cc:217-238 | the end of an exchange gives a waiting fiber what arrived and one post, and leaves a caller that has returned untouched |
| `HttpFetch.FetchCall.HandleBodyComplete` | baselib/net/server/http_client.cc:217-228 | keeps the invariant: the callback has then run once with all that arrived, or only the headers after an error, the client is destroyed exactly if the caller has returned, and a waiting fiber gets that reply with one post that does not undo a timeout |
| `HttpFetch.FetchCall.HandleConnectError` | baselib/net/server/http_client.cc:230-238 | keeps the invariant: one callback, with CONNECT_ERROR, no bad release, and a waiting fiber gets it with one post that does not undo a timeout |
| `HttpFetch.FetchCall.HandleError` | baselib/net/server/http_client.cc:240-249 | keeps the invariant; the client is alive, nobody is called back and the waiting caller sees no change |
| `HttpFetch.FetchCall.HandleHeaders` | baselib/net/server/http_client.cc:213-215 | keeps the invariant; the client is alive, nobody is called back and the waiting caller sees no change |
| `HttpFetch.FetchCall.HandleBody` | baselib/net/rabbit_http_client.cc:95-105 | keeps the invariant; the client is alive, nobody is called back and the waiting caller sees no change |
| `HttpFetch.FetchCall.RunFetch` | baselib/net/server/http_client.cc:251-337 | keeps the invariant for both kinds of call, with the outcome of `CallEffect`; what is settled at once has called back once and never finds its count at zero |
| `HttpFetch.FetchCall.ResumeFiber` | baselib/net/server/http_client.cc:323-350 | keeps the invariant: the reply returned has a result exactly when the callback has run, the state is kTimeout exactly when the timer won, and the client is destroyed exactly when the library is done with it |
| `ConnIds.TryNext` | baselib/net/thread_local_conn_manager.cc:14-16 | one iteration's id and counter; the id is 0 exactly at the wrap and the counter never is |
| `ConnIds.IdSequence` | baselib/net/thread_local_conn_manager.cc:13-18 | the ids on offer are 1 to modulus - 1, then 0, then those of a lap before, and never 1 again |
| `ConnIds.NoEarlyRepeat` | baselib/net/thread_local_conn_manager.cc:13-18 | from any counter, an id is not offered again within fewer than modulus - 1 iterations |
| `ConnIds.RepeatsAfterLap` | baselib/net/thread_local_conn_manager.cc:13-18 | after exactly modulus - 1 iterations counter and id repeat |
| `ConnIds.RepeatsAfterLaps` | baselib/net/thread_local_conn_manager.cc:13-18 | after any number of laps the id repeats |
| `ConnIds.FewLiveCanAllocate` | baselib/net/thread_local_conn_manager.cc:13-18 | fewer than modulus - 1 live ids guarantee a free one within a lap |
| `ConnIds.TerminatesExactly` | baselib/net/thread_local_conn_manager.cc:13-18 | the loop ends if and only if one of its first `modulus` ids is free |
| `ConnIds.ComposeSplits` | baselib/net/thread_local_conn_manager.cc:20 | the id is thread times 2^32 plus the low id, and both are recovered from it |
| `ThreadLocalConns.ThreadLocalConnManager.OnNewConnection` | baselib/net/thread_local_conn_manager.cc:10-21 | enters the pipeline under the first free id of the ring, which was not live, and returns it with the thread number |
| `ThreadLocalConns.ThreadLocalConnManager.OnConnectionClosed` | baselib/net/thread_local_conn_manager.cc:24-35 | removes the entry and says whether there was one |
| `ThreadLocalConns.ThreadLocalConnManager.SendIOBufByConnId` | baselib/net/thread_local_conn_manager.cc:37-49 | for the id of any connected handler of the thread, writes to that handler's own pipeline |
| `ThreadLocalConns.ConnHandler.TransportActive` | baselib/net/conn_handler.cc:34-51 | connects the handler under a fresh id that leads to its pipeline |
| `ThreadLocalConns.ConnHandler.Close` | baselib/net/conn_handler.cc:53-69 | tells the manager only from the connected state, and the manager then finds the entry |
| `ThreadLocalConns.ConnHandler.ReadEof` | baselib/net/conn_handler.cc:19-24 | closes the connection: the manager is told if it was connected, and forgets the entry |
| `ThreadLocalConns.ConnHandler.ReadException` | baselib/net/conn_handler.cc:26-32 | the same on a transport error |
| `ThreadLocalConns.ConnHandler.Read` | baselib/net/conn_handler.cc:6-13 | closes on an empty buffer and does nothing otherwise |
| `ConnSystem.TablesMatchHandlers` | baselib/net/conn_handler.cc:34-69 | in every run of once-activated handlers, from any thread options, every entry belongs to a connected handler of that thread and id, every connected handler has exactly one entry, each handler is closed at most once, and no close misses its entry |
| `ConnSystem.ActivateConnects` | baselib/net/conn_handler.cc:34-51 | in every run, an activation connects the handler under a free id whose halves are its thread and its entry there, and changes nothing else |
| `ConnSystem.CloseTakesEffect` | baselib/net/conn_handler.cc:6-69 | in every run, an end of file, a read error, an empty read or a close leaves the handler closed and takes the entry that led to it out of its thread's table, and changes nothing else |
| `ConnSystem.ReadChangesNothing` | baselib/net/conn_handler.cc:6-13 | a read with something in it changes nothing |
| `ConnSystem.NoSendLost` | baselib/net/service_manager.cc:116-133 | in every run, each send is either under way or has arrived, once, for the handler it was meant for |
| `ConnSystem.OpenIdsDistinct` | baselib/net/thread_local_conn_manager.cc:10-21 | in every run, open connections of all threads have different 64-bit ids |
| `ConnSystem.RoutingSafe` | baselib/net/service_manager.cc:116-133 | in every run, from any thread options, a send by id reaches the pipeline that id was issued to if it is open, and is dropped if it has closed, within fewer than modulus - 1 id iterations of that thread |
| `ConnSystem.ReusedOnlyAfterLap` | baselib/net/thread_local_conn_manager.cc:37-49 | a closed connection's id is live again only after a whole lap of iterations |
| `ConnSystem.LapIsTight` | baselib/net/thread_local_conn_manager.cc:37-49 | for every modulus, 2^32 included, every thread with an event base and every age of a lap or more, a run in which a send of that age reaches another connection |
| `ConnSystem.StrangerExactly` | baselib/net/thread_local_conn_manager.cc:37-49 | some run's send to a closed connection reaches a stranger at a given age if and only if that age is a lap or more |
| `IoThreadConns.IndexesAgreeInEveryRun` | baselib/net/io_thread_pool_manager.cc:61-143 | in every run where live pipelines register and closes match, the service sets partition the live ids by service and only live pipelines are registered |
| `IoThreadConns.ClosedAgreesExactly` | baselib/net/io_thread_pool_manager.cc:108-143 | a close keeps the indexes in agreement if and only if id and pipeline match as far as the indexes can tell |
| `IoThreadConns.RegisteredAgreesExactly` | baselib/net/io_thread_pool_manager.cc:85-105 | a registration keeps the indexes in agreement if and only if its pipeline is live |
| `IoThreadConns.CloseUndoesOpen` | baselib/net/io_thread_pool_manager.cc:61-143 | closing a connection that was just opened restores the live pipelines and every service's ids |
| `IoThreadConns.SecondCloseHitsStranger` | baselib/net/io_thread_pool_manager.cc:108-143 | what the manager relies on its caller for: a run after which a second close of a connection, which `ConnHandler` never sends, takes another one's entry and leaves its registration without a pipeline |
| `IoThreadConns.WithoutMembers` | baselib/net/io_thread_pool_manager.cc:127-140 | the erase loop's result holds every other registration as often as before, duplicates included, and none of the closed pipeline |
| `IoThreadConns.WithoutConcat` | baselib/net/io_thread_pool_manager.cc:127-140 | the erase loop's result keeps the order |
| `IoThreadConns.IOThreadConnManager.OnNewConnection` | baselib/net/io_thread_pool_manager.cc:61-83 | enters a fresh id in both indexes and keeps them in agreement |
| `IoThreadConns.IOThreadConnManager.OnServerRegister` | baselib/net/io_thread_pool_manager.cc:85-105 | reports a duplicate but appends it all the same, and keeps the indexes in agreement if and only if the pipeline is live |
| `IoThreadConns.IOThreadConnManager.OnConnectionClosed` | baselib/net/io_thread_pool_manager.cc:108-143 | the restart-and-erase loop ends and leaves the other pipelines' registrations in order; agreement is kept exactly on a matching close |
| `IoThreadConns.IOThreadConnManager.FindPipelines` | baselib/net/io_thread_pool_manager.cc:201-208 | the live ids whose pipeline serves the service |
| `IoThreadConns.IOThreadConnManager.DispatchIOBufByServer` | baselib/net/io_thread_pool_manager.cc:161-172 | writes to the first registration of that name and that number with a pipeline, and to none if and only if there is none |
| `IoThreadPool.ClosableExactly` | baselib/net/io_thread_pool_manager.cc:229-256 | the thread half of an id is a thread of the pool if and only if the connection's event base is the pool's; then both halves are recovered |
| `IoThreadPool.IOThreadPoolConnManager.OnNewConnection` | baselib/net/io_thread_pool_manager.cc:229-239 | opens on the first thread with the event base, where both halves of the id lead to the pipeline, and leaves the other threads alone; on a foreign event base opens nothing and gives an id that may not be closed |
| `IoThreadPool.IOThreadPoolConnManager.OnConnectionClosed` | baselib/net/io_thread_pool_manager.cc:252-256 | for an id that may be closed, closes on the thread it names and leaves the others alone |
| `ServerDispatch.AtMostOneWrite` | baselib/net/io_thread_pool_manager.cc:275-328 | with registrations changing between hops, each thread is visited at most once, in order, and at most one write happens |
| `ServerDispatch.StableRegistrationIsFound` | baselib/net/io_thread_pool_manager.cc:275-328 | if a thread has the server registered throughout, a dispatch that is over has written exactly once, on that thread or before |
| `ServerDispatch.QuietDispatch` | baselib/net/io_thread_pool_manager.cc:275-328 | in every run of hops alone that is over, it has written to the first registration of that name and that number with a pipeline, in thread-then-list order, and to none if and only if no thread it can reach has one |
| `ServerDispatch.QuietDispatchEnds` | baselib/net/io_thread_pool_manager.cc:275-328 | hops alone bring every dispatch to its end |
| `FiberTable.TableHoldsOutstanding` | baselib/net/fiber_data_manager.cc:215-290 | in every run without a record outstanding for a lap, the table is the set of outstanding records, at most 4096, each found by its id with non-zero low half and the thread in the high half |
| `FiberTable.LowIdSequence` | baselib/net/fiber_data_manager.cc:121-127 | the low halves are 1 to modulus - 1, over and over |
| `FiberTable.AllocAgreesExactly` | baselib/net/fiber_data_manager.cc:215-228 | an allocation enters its record if and only if no outstanding record is exactly a lap old |
| `FiberTable.StaleIdFindsNothing` | baselib/net/fiber_data_manager.cc:242-262 | a deleted record's id finds nothing until the counter has gone round |
| `FiberTable.LapOldRecordShadows` | baselib/net/fiber_data_manager.cc:215-228 | for every modulus, a run after which the next record is handed out under an id that finds record 0 |
| `FiberTable.FiberDataManager.AllocFiberData` | baselib/net/fiber_data_manager.cc:215-238 | hands out the next id unless 4096 records are entered, and keeps table and outstanding records in agreement if and only if no record is a lap old |
| `FiberTable.FiberDataManager.FindFiberData` | baselib/net/fiber_data_manager.cc:242-262 | while table and records agree, finds a record if and only if it is outstanding and has that low id |
| `FiberTable.FiberDataManager.DeleteFiberData` | baselib/net/fiber_data_manager.cc:268-290 | while table and records agree, takes away exactly the outstanding record of that low id, says whether there was one, and keeps the agreement |
| `Snowflake.RunGrowsExactly` | baselib/base/snowflake_id_util.cc:175-195 | for every non-decreasing clock within a block, a worker's identifiers grow strictly if and only if each wrap of the sequence is followed by a later reading |
| `Snowflake.WrittenRunGrowsExactly` | baselib/base/snowflake_id_util.cc:175-210 | with the wait as written and a positive clock, identifiers grow strictly if and only if the clock moves on between the two readings of every call that wraps |
| `Snowflake.MeantWaitGrows` | baselib/base/snowflake_id_util.cc:175-210 | had the wait been handed the last timestamp, they would grow strictly with every steady clock |
| `Snowflake.SpreadRunGrows` | baselib/base/snowflake_id_util.cc:175-195 | a caller that asks at most 4096 times in any millisecond never meets the wait and gets strictly growing identifiers |
| `Snowflake.FrozenClockRepeats` | baselib/base/snowflake_id_util.cc:179-183 | with the wait as written, n calls on a clock that stands still at a positive reading bring the worker back to the same identifier if and only if n is a multiple of 4096 |
| `Snowflake.RepeatsEachBlock` | baselib/base/snowflake_id_util.cc:190-193 | identifiers repeat 2^25 milliseconds later |
| `Snowflake.Unpack` | baselib/base/snowflake_id_util.cc:190-193 | all four fields are recovered from an identifier |
| `Snowflake.PackIsOr` | baselib/base/snowflake_id_util.cc:190-193 | the source's masks, shifts and ors give the sum of the shifted remainders, so that the other results hold of what the code computes |
| `Snowflake.IdsCarryNumbers` | baselib/base/snowflake_id_util.cc:190-193 | every identifier of every run carries its worker's two numbers |
| `Snowflake.ThreadStreamsDisjoint` | baselib/base/snowflake_id_util.cc:224-236 | the runs of two threads' workers can issue the same identifier if and only if the threads' numbers agree modulo 32 |
| `Snowflake.UnsafeWorkerMeets` | baselib/base/snowflake_id_util.cc:242-245 | of the first 32 threads' workers, the unsafe worker's runs can meet exactly the one whose number is the configured data centre modulo 32 |
| `Snowflake.TilNextMillis` | baselib/base/snowflake_id_util.cc:204-210 | returns the first reading past the bound |
| `Snowflake.IdWorker.GetNextId` | baselib/base/snowflake_id_util.cc:175-195 | one call of such a run from any state, the wait ending on the first positive reading: the identifier carries the new timestamp, both numbers and the new sequence number in their bits, and within a steady clock it grows if and only if a wrap is followed by a later reading |
| `ThreadGroups.InitializeConsistent` | baselib/net/thread_group_list_manager.cc:81-150 | whatever the options, every thread sits at its own index, exactly event-base threads number their manager with it, and a group's threads are neighbours |
| `ThreadGroups.StartedAsOrdered` | baselib/net/thread_group_list_manager.cc:81-150 | the table holds exactly the threads the options ask for, in order, for the five types that get a pool; exactly accept, client and fiber threads have an event base |
| `ThreadGroups.GroupAsOrdered` | baselib/net/thread_group_list_manager.cc:81-150 | the last option of a type decides its group: as many threads as it asks for, right after those of the options before it |
| `ThreadGroups.ManagerIdFindsItsThread` | baselib/net/thread_group_list_manager.cc:118-142 | the number in a connection id leads back to the thread that issued it, which has an event base |
| `ThreadGroups.PickByTypeExact` | baselib/net/thread_group_list_manager.cc:176-185 | a draw picks a thread of the group if and only if it is not below the group's first index, and the thread it stands for if and only if the group starts the table |
| `ThreadGroups.PickByTypeSafe` | baselib/net/thread_group_list_manager.cc:176-185 | no draw leaves the group if and only if the group starts the table |
| `ThreadGroups.PickByTypeMisses` | baselib/net/thread_group_list_manager.cc:176-185 | with an accept thread started before a fiber thread, a draw for a fiber thread picks the accept thread |
| `ThreadGroups.ThreadGroupListManager.OnThreadStarted` | baselib/net/thread_group_list_manager.cc:118-142 | while a group is being started, every further thread keeps the table consistent and the group's threads the last ones in it |
| `ThreadGroups.ThreadGroupListManager.MakeGroup` | baselib/net/thread_group_list_manager.cc:96-150 | starts a supported group's threads one after the other, none for an unsupported type |
| `ThreadGroups.ThreadGroupListManager.InitializeAll` | baselib/net/thread_group_list_manager.cc:81-94 | makes the groups in order and keeps the table consistent; no options is an error |
| `TcpReconnect.OnePhaseAtATime` | baselib/net/server/tcp_client.cc:22-83 | in every run, from Start to Stop exactly one of connecting, connected and waiting to retry holds; connected says a pipeline is live; the check on deletion never fails |
| `TcpReconnect.CanConnect` | baselib/net/server/tcp_client.cc:50-83 | from every state between Start and Stop at most two events get the client connected |
| `TcpReconnect.LossIsRepaired` | baselib/net/server/tcp_client.cc:70-83 | a lost connection can be replaced by a new one, on a new pipeline |
| `TcpReconnect.StopIsFinalExactly` | baselib/net/server/tcp_client.cc:35-83 | nothing can happen after Stop if and only if the client was connected; otherwise exactly one leftover event may, and it meets the dropped bootstrap |
| `TcpReconnect.StopLeavesAFault` | baselib/net/server/tcp_client.cc:35-67 | two runs in which an event after Stop uses the dropped bootstrap: a connect that fails late and a timer that fires late |
| `TcpReconnect.TcpClient.StartClient` | baselib/net/server/tcp_client.cc:22-29 | keeps the invariant; one connect is under way and nothing else |
| `TcpReconnect.TcpClient.ConnectSucceeded` | baselib/net/server/tcp_client.cc:52-56 | keeps the invariant; before Stop the one live pipeline is that of the connect that succeeded |
| `TcpReconnect.TcpClient.ConnectFailed` | baselib/net/server/tcp_client.cc:57-67 | keeps the invariant; before Stop one retry is scheduled and nothing else, after it the one fault happens and nothing is left |
| `TcpReconnect.TcpClient.PipelineDeleted` | baselib/net/server/tcp_client.cc:70-83 | keeps the invariant; the check on the pipeline holds and one reconnect is scheduled |
| `TcpReconnect.TcpClient.ReconnectTimer` | baselib/net/server/tcp_client.cc:78-81 | keeps the invariant; before Stop one new connect is under way and nothing else |
| `TcpReconnect.TcpClient.StopClient` | baselib/net/server/tcp_client.cc:35-48 | keeps the invariant and meets no fault; leaves nothing pending if and only if the client was connected, and one event otherwise |
| `ServiceRegistry.StartExact` | baselib/net/service_manager.cc:78-98 | start-up ends the process if and only if a created service has an unknown type or two share a name without both being clients; otherwise every created service is entered exactly once, clients grouped by name in configuration order |
| `ServiceRegistry.ConflictExactly` | baselib/net/service_manager.cc:186-259 | start-up's conflict is a type other than the four, or two services of one name that are not both tcp_client |
| `ServiceRegistry.DistinctNamesStart` | baselib/net/service_manager.cc:78-98 | services of the four types with factories and with names of their own always start, and every name is entered |
| `ServiceRegistry.EnteredHasFactory` | baselib/net/base/service_factory_manager.cc:15-28 | a configured service is created if and only if a factory has its type and its name |
| `ServiceRegistry.OrderDoesNotMatter` | baselib/net/service_manager.cc:78-98 | any reordering of the configuration succeeds or fails alike and enters the same names, the same servers and the same clients in each group |
| `ServiceRegistry.ServiceManager.CreateService` | baselib/net/base/service_factory_manager.cc:15-28 | a service is created if and only if a factory has its type and name |
| `ServiceRegistry.ServiceManager.RegisterServiceBase` | baselib/net/service_manager.cc:186-259 | on a registry of services without conflict, refuses a service if and only if it brings a conflict, and otherwise enters it beside them |
| `ServiceRegistry.ServiceManager.Start` | baselib/net/service_manager.cc:78-98 | registers and starts the created services in order, with the outcome of `StartExact` on an empty registry |
| `UrlCodec.DecodeEncode` | baselib/base/util.cc:94-151 | decoding undoes encoding for every byte string |
| `UrlCodec.EncodeInjective` | baselib/base/util.cc:99-121 | different strings have different encodings |
| `UrlCodec.EncodeConcat` | baselib/base/util.cc:99-121 | encoding distributes over concatenation |
| `UrlCodec.PlainExactly` | baselib/base/util.cc:99-121 | the encoder leaves a text alone if and only if it consists of letters, digits, '-', '_', '.' and '~' |
| `UrlCodec.EncodedLengths` | baselib/base/util.cc:99-121 | a space becomes '+', a plain byte stays, every other byte becomes an escape of three characters |
| `UrlCodec.EscapeExactly` | baselib/base/util.cc:123-126 | an escape decodes to the byte of section 2.1 of RFC 3986 if and only if its second digit is not lower-case or its first has the bit of value 2 |
| `UrlCodec.EscapesDecode` | baselib/base/util.cc:128-151 | a text of escapes whose second digits are not lower-case decodes to its bytes |
| `UrlCodec.LowerCaseMisread` | baselib/base/util.cc:123-126 | the lower-case escape for a line feed decodes to '*' |
| `UrlCodec.DecodeAfterText` | baselib/base/util.cc:128-151 | what follows an encoded text is decoded as if it stood alone |
| `UrlCodec.CutOffEscape` | baselib/base/util.cc:128-151 | after any encoded text, a final '%' makes the decoder read beyond the terminator, and a final '%' with one digit makes it read the terminator as the other |
| `UrlCodec.ReencodingExact` | baselib/base/util.cc:94-151 | encoding gives a decoded text back if and only if the text is canonical, and the canonical texts are exactly the encodings; alphabet of sections 2.1 and 2.3 of RFC 3986, with '+' for space as in section 17.13.4 of HTML 4.01 |
| `UrlCodec.UrlEncode` | baselib/base/util.cc:99-121 | the loop computes the encoding |
| `UrlCodec.UrlDecode` | baselib/base/util.cc:128-151 | the loop computes the decoding; None when it would read beyond the terminator |

## Left out

- Rendezvous.RendezvousHash.Get: scores are reals, so rounding and underflow of doubles are not modelled.
- The order of tasks queued on one thread: the routing theorem lets sends overtake each other, which includes the real order.
- ThreadLocalConns.ConnHandler.TransportActive: a handler activated a second time keeps its first entry in the table; the run theorems cover one activation each.
- The concrete fnv and twang hashes.
- The object-pool and timeout-handler builds of the fiber manager, which are switched off.
- Round robin over threads: that it visits every thread once in a round is a one-line fact about a wrapping index.
- `base::Stat` counters, broadcast, and group sends with random choice: single steps without a property across calls.
- Snowflake.FrozenClockRepeats: says nothing of a clock that stands still at 0, where the wait as written does not end.
- The pool's other wrappers over the I/O thread managers (registration, dispatch by id), which find the thread and forward.
- The HTTP server, acceptors, request handlers, pipeline factories, SSL, DNS, URL and header parsing: wrappers over libraries.
- Configuration loading, logging, pid files, time helpers, call-chain strings, router manager, UDP stubs, simple TCP client.
- Data races: each modelled object is used by its own event loop only.
