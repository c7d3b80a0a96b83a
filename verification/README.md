# Chops Net IP: a model of the asynchronous core

Chops Net IP runs TCP connectors, acceptors and IO handlers as callbacks on an Asio executor, while any number of
application threads call into them. This project models that core and proves what holds over all runs of it.

Each component has two parts. A transition table (`...Protocol`) says, for every event, where it leads and with
which callbacks; a run is any sequence of events that the environment can produce. A class (`TcpIo`, `TcpConnector`,
`TcpAcceptor`, `IoCommon`, `SendToAll`, ...) has the fields and the call chains of the original, and every method is proved to do
exactly what the table says for its event. The main results are lemmas about all runs of the tables (`...Runs`,
`...Theorems`).

- `NetEntityCommon`: the unstarted / started / stopped atomic, under any interleaving of its operations.
- `OutputQueue`, `WriteProtocol`, `IoCommon`: the queue and the locked write protocol, one critical section a step.
- `Framing`, `SimpleVariableLenMsgFrame`, `Delimiter`, `MsgHandling`: the two ways of reading, and the encoders.
- `TcpIoProtocol`, `TcpIoRuns`, `TcpIo`: the IO handler; `HandlerLife` is what its owner sees of it.
- `ConnectorTimeout`, `ConnectorProtocol`, `ConnectorRuns`, `ConnectorTheorems`, `TcpConnector`: the connector; `ConnectorReports`: what its
  application hears, told from the events.
- `AcceptorProtocol`, `AcceptorRuns`, `TcpAcceptor`: the acceptor; `AcceptorReports`: what its application hears, told from the events.
- `BroadcastProtocol`, `SendToAll`: sending to a changing collection of connections; `Registration`: what the collection holds when it
  is the state change callback of a connector or an acceptor.

## The environment

Asio, the application and the network appear as events with parameters. What is relied on:

- A completion comes only from an outstanding operation. It may come late, after a close, and may then still be a success.
- An asynchronous read fills its region exactly or fails; a read-until searches what is buffered before it reads on and
  completes at the end of the first match; a closed socket has no remote endpoint. Asio's own errors are system errors, never
  one of the library's codes.
- An entity's start is one step up to its first asynchronous operation; its stop is two, the compare-and-swap and the close that it
  posts, with any events in between. Each call into an IO handler is one step, except in `WriteProtocol`, where each critical
  section is one, so that a close and the sends of other threads interleave. A broadcast is one step for each connection it calls:
  it holds the collection's lock only, so anything else may happen to the connections between two calls.
- Applications leave an IO handler alone once told that it has closed (`include/net_ip/net_entity.hpp:301-304`) and do not start it
  again (`include/net_ip/basic_io_interface.hpp:517-524`); the predicates `HandlerLife.Documented` and
  `WriteProtocol.Enabled` say so. `WriteProtocol.SecondStartIsUnsafe` and the run `WriteProtocol.TwoWritesAtOnce` show why. `TcpIoRuns` does without: its runs include repeated
  and misordered start_io and stop_io.
- The connector's state change callback may make any number of calls on its new handler, as the documentation suggests: start IO, which
  may fail, stop it, or both.
  No other callback calls back into the library.

## Where code and documentation differ

The model follows the code.

- The connect attempts given to the timeout function are documented as always greater than zero
  (`include/net_ip/tcp_connector_timeout.hpp:18-19`). `ConnectorTheorems.AskedZeroExactly` gives the exact exception: a handler that closes inside
  the connect callback, with reconnecting on, makes the next failure ask about zero attempts, because the count is reset
  after the callback; `ConnectorTheorems.AskedAboutZero` is such a run. `ConnectorTimeout.NoAttemptsIsNegative` shows what the
  backoff answers then.
- `counted_timeout`'s parameter N is documented as the maximum number of connect attempts. Every burst of failing connects, after a
  start, a resolve or a lost connection, makes N+1 connects before it gives up, and N+2 if the connect callback itself lost the connection
  (`ConnectorTheorems.CountedGivesUp`); the bound of N holds exactly until the N-th connect has failed and its timer has fired
  (`ConnectorTheorems.CountedBoundExactly`). `ConnectorTheorems.CountOfOneConnectsTwice` is a run with a count of one and two connects.
- `stop_io` is documented to leave a connector active; it does if and only if reconnecting is on, and otherwise the connector ends
  stopped and reports closed (`ConnectorTheorems.StopIoKeepsActive`, with the run `ConnectorTheorems.StopIoEndsIt`).
- A failed resolve stops the connector without reporting closed (`ConnectorTheorems.ClosedUnlessResolveFailed`, with the run
  `ConnectorTheorems.FailedResolveIsSilent`).
- `is_started` is documented as false in a stopped state (`include/net_ip/net_entity.hpp:130-135`). A connector that has ended is still
  counted as started if and only if its resolve failed or it lost its connection with reconnecting off, and no stop has won
  (`ConnectorTheorems.EndedStillStarted`); both runs above are such runs.
- The comment on the acceptor's `notify_me` says it is posted; it is called directly, and can therefore precede the posted
  announcement of the same handler: exactly if the handler is closed while its announcement is posted
  (`AcceptorRuns.ReportedFirstExactly`, with the run `AcceptorRuns.ClosedBeforeAnnounced`). A `send_to_all` used as the state change callback then
  keeps that handler for good; `Registration.ShutdownEmptiesTheCollection` says exactly when, and `Registration.OneIsLeft` is such a
  run.

## Model

| member | source | states |
|---|---|---|
| NetEntityCommon.NetEntityCommon.Start | include/net_ip/detail/net_entity_common.hpp:76-94 | a start wins exactly when the entity is unstarted, and only then changes it |
| NetEntityCommon.NetEntityCommon.Stop | include/net_ip/detail/net_entity_common.hpp:97-112 | a stop wins exactly when the entity is started, and only then changes it |
| NetEntityCommon.NetEntityCommon.SetStopped | include/net_ip/detail/net_entity_common.hpp:74 | an internal stop always ends in the stopped value |
| NetEntityCommon.ValueFromOps | include/net_ip/detail/net_entity_common.hpp:58-74 | which sequences of operations leave the entity unstarted and which leave it started, told from the operations alone |
| NetEntityCommon.WinnersFromOps | include/net_ip/detail/net_entity_common.hpp:76-112 | exactly which start and which stop wins under any interleaving |
| NetEntityCommon.ValueNeverDecreases | include/net_ip/detail/net_entity_common.hpp:8-14 | a stopped entity cannot be started again: the value only grows |
| NetEntityCommon.OneStartOneStop | include/net_ip/detail/net_entity_common.hpp:76-112 | at most one start and one stop win in any interleaving, the start first |
| OutputQueue.OutputQueue.GetNextElement | include/net_ip/detail/output_queue.hpp:55-63 | takes the oldest element, none exactly from an empty queue; the byte count stays right modulo 2^64 |
| OutputQueue.OutputQueue.AddElement | include/net_ip/detail/output_queue.hpp:65-68 | appends at the end; the byte count stays right modulo 2^64, overflow included |
| OutputQueue.OutputQueue.GetQueueStats | include/net_ip/detail/output_queue.hpp:70-72 | statistics are the length and the byte total modulo 2^64, and the true total whenever it fits, whatever wrapped before |
| OutputQueue.OutputQueue.Clear | include/net_ip/detail/output_queue.hpp:74-77 | empties queue and count |
| IoCommon.IoCommon.SetIoStarted | include/net_ip/detail/io_common.hpp:72-75 | reports whether it changed the flag; nothing else changes |
| IoCommon.IoCommon.SetIoStopped | include/net_ip/detail/io_common.hpp:77-80 | reports whether it changed the flag; nothing else changes |
| IoCommon.IoCommon.Clear | include/net_ip/detail/io_common.hpp:48-51 | discards the queue and resets the in-progress flag |
| IoCommon.IoCommon.StartWrite | include/net_ip/detail/io_common.hpp:95-109 | a send's critical section is the protocol's step; it is refused exactly when nothing is accepted and starts a write exactly when it says so |
| IoCommon.IoCommon.WriteNextElem | include/net_ip/detail/io_common.hpp:111-126 | the critical section after a write is the protocol's step, and its functor gets exactly what is handed over |
| WriteProtocol.AtMostOneWrite | include/net_ip/detail/io_common.hpp:95-126 | in every interleaving at most one write is outstanding, also after a close reset the flag; while started the flag means a write is outstanding and nothing waits without one |
| WriteProtocol.HandedInSendOrder | include/net_ip/detail/io_common.hpp:95-126 | what reaches the asynchronous write is a prefix, in lock order, of what sends accepted; while started nothing accepted is lost |
| WriteProtocol.AcceptedExactly | include/net_ip/detail/tcp_io.hpp:157-164 | the accepted sends are exactly those between the start and the first stop |
| WriteProtocol.NothingHandedAfterStop | include/net_ip/detail/tcp_io.hpp:171-177 | after a stop no send or completion hands anything over or accepts anything |
| WriteProtocol.NothingKeptAfterStop | include/net_ip/detail/io_common.hpp:48-51 | over every run, once the output was discarded after a stop nothing is queued or marked in progress, whatever sends and completions follow |
| WriteProtocol.OutstandingExactly | include/net_ip/detail/tcp_io.hpp:289-308 | the outstanding writes are those handed over whose completion has not run |
| WriteProtocol.DrainsPartly | include/net_ip/detail/tcp_io.hpp:298-308 | k completions move exactly the k oldest waiting elements to the wire |
| WriteProtocol.Drains | include/net_ip/detail/tcp_io.hpp:298-308 | queue length plus one completions, and no fewer, hand over everything accepted and clear the flag |
| WriteProtocol.SecondStartIsUnsafe | include/net_ip/detail/tcp_io.hpp:144-181 | after a close, a second start lets a send overlap an old write exactly when that write is still outstanding |
| WriteProtocol.TwoWritesAtOnce | include/net_ip/detail/tcp_io.hpp:144-181 | a run in which a second start leads to two outstanding writes |
| Framing.OnReadConserves | include/net_ip/detail/tcp_io.hpp:235-266 | one read: message and remaining filled part hold the old filled part and the new bytes; the next region is the tail again |
| Framing.FeedConserves | include/net_ip/detail/tcp_io.hpp:235-266 | for every frame function and stream, messages followed by the filled part are the bytes consumed, and the pending region is exactly the vector's tail |
| Framing.FeedFollowsFrame | include/net_ip/detail/tcp_io.hpp:235-266 | for every frame function and stream: its state is carried along, a message for each answer of zero, and the next read is as long as the last answer, or a header after a message |
| Framing.BlocksAreForced | include/net_ip/detail/tcp_io.hpp:198-207 | a stream can be cut into reads in only one way |
| SimpleVariableLenMsgFrame.SimpleVariableLenMsgFrame.Call | include/net_ip/simple_variable_len_msg_frame.hpp:67-75 | the stateful frame computes the frame function that the round trip is proved for |
| MsgHandling.HdrRoundTrip | test/shared_test/msg_handling.hpp:73-92 | header encoding and decoding are inverse in both directions |
| MsgHandling.HdrOrder | test/shared_test/msg_handling.hpp:73-76 | the first byte is the high one: headers are ordered as the lengths they stand for |
| MsgHandling.MakeBodyBuf | test/shared_test/msg_handling.hpp:78-84 | the prefix followed by so many copies of the character |
| MsgHandling.MakeVariableLenMsg | test/shared_test/msg_handling.hpp:86-92 | two header bytes, high byte first, that decode to the body's length, then the body |
| MsgHandling.MakeCrLfTextMsg | test/shared_test/msg_handling.hpp:94-98 | body and CR LF; one message to the reader for every body without CR LF, also one ending in CR |
| MsgHandling.MakeLfTextMsg | test/shared_test/msg_handling.hpp:100-104 | body and LF; one message to the reader for every body without LF |
| MsgHandling.MakeMsgVec | test/shared_test/msg_handling.hpp:117-124 | the i-th message encodes the prefix and i+1 characters |
| MsgHandling.TextDelimitersHaveNoBorder | test/shared_test/msg_handling.hpp:94-104 | neither CR LF nor LF begins with what it ends with |
| MsgHandling.VariableLenRoundTrip | include/net_ip/simple_variable_len_msg_frame.hpp:67-75 | encoded bodies, empty ones included, come back as exactly those messages and leave the framer waiting for a header |
| MsgHandling.DeliveriesAreEncodings | include/net_ip/simple_variable_len_msg_frame.hpp:67-75 | for every stream, whatever is delivered is the encoding of its own body and the rest is the beginning of one |
| Delimiter.SplitIsSplit | include/net_ip/detail/tcp_io.hpp:268-286 | the split loses nothing, each message ends at its first delimiter, and no delimiter is left |
| Delimiter.SplitIsUnique | include/net_ip/detail/tcp_io.hpp:268-286 | there is no other split |
| Delimiter.SplitContinues | include/net_ip/detail/tcp_io.hpp:284-285 | erasing delivered messages and going on gives the rest of the same split |
| Delimiter.SplitOfDelimited | test/shared_test/msg_handling.hpp:94-104 | bodies without the delimiter, each followed by a delimiter without border, are split into exactly those messages |
| Delimiter.RoundTripNeedsNoBorder | include/net_ip/detail/tcp_io.hpp:213-222 | a delimiter recovers every body not containing it if and only if it has no border |
| TcpIo.TcpIo.StartIo | include/net_ip/detail/tcp_io.hpp:107-116 | start_io succeeds exactly on an unstarted handler with a remote endpoint, and does the framed start step |
| TcpIo.TcpIo.StartIoUntil | include/net_ip/detail/tcp_io.hpp:124-132 | the same for a delimiter |
| TcpIo.TcpIo.StartIoSetup | include/net_ip/detail/tcp_io.hpp:185-196 | a started handler is left alone; one without remote endpoint is closed and reported |
| TcpIo.TcpIo.StopIo | include/net_ip/detail/tcp_io.hpp:144-154 | tells whether IO was started and closes and notifies in either case |
| TcpIo.TcpIo.Close | include/net_ip/detail/tcp_io.hpp:171-181 | closes, clears and notifies exactly when started |
| TcpIo.TcpIo.Send | include/net_ip/detail/tcp_io.hpp:157-164 | true exactly when IO is started; does the send step |
| TcpIo.TcpIo.HandleRead | include/net_ip/detail/tcp_io.hpp:235-266 | a completed read does the framed read step on the byte vector in place |
| TcpIo.TcpIo.HandleReadUntil | include/net_ip/detail/tcp_io.hpp:268-286 | a completed read-until delivers up to the first match, erases it and reads on, or posts a close |
| TcpIo.TcpIo.HandleReadError | include/net_ip/detail/tcp_io.hpp:240-243 | a failed read closes and does not read on |
| TcpIo.TcpIo.HandleWrite | include/net_ip/detail/tcp_io.hpp:298-308 | a failed write closes; a successful one hands over the next element |
| TcpIo.TcpIo.RunPostedClose | include/net_ip/detail/tcp_io.hpp:253-254 | the close after a refusal |
| TcpIoRuns.EveryStartReportedClosedOnce | include/net_ip/detail/tcp_io.hpp:144-196 | in every run, misordered calls included, notifier calls plus one if started equal the transitions to started, and at most one read is outstanding |
| TcpIoRuns.StartedMeansReading | include/net_ip/detail/tcp_io.hpp:246-286 | in every run a started handler has exactly one read outstanding until its message handler refuses, and then its close is posted |
| TcpIoRuns.NothingKeptWhenClosed | include/net_ip/detail/tcp_io.hpp:171-177 | in every run a handler that is not started has nothing queued and no write marked in progress |
| TcpIoRuns.RefusedExactly | include/net_ip/detail/tcp_io.hpp:246-256 | a handler has refused if and only if its message handler answered false to some message |
| TcpIoRuns.WritesStayInOrder | include/net_ip/detail/tcp_io.hpp:157-181 | in every run, misordered calls included, at most one write is outstanding and writes are a prefix of the accepted sends |
| TcpIoRuns.HandlerIsAWriter | include/net_ip/detail/tcp_io.hpp:144-181 | in every run the handler's write side is the locked write protocol run on the run's sends, starts, closes and completions |
| TcpIoRuns.HistoriesFromEvents | include/net_ip/detail/tcp_io.hpp:107-164 | in every run the elements accepted are those sent while started, the bytes received are those the reads brought, and reading began as the successful start said |
| TcpIoRuns.RefusalIsFinal | include/net_ip/detail/tcp_io.hpp:246-256 | once the message handler returns false nothing more is read or delivered |
| TcpIoRuns.FramedDelivery | include/net_ip/detail/tcp_io.hpp:107-116 | a framed connection delivers what the bytes received amount to; its pending read fills exactly the tail; nothing is lost |
| TcpIoRuns.VariableLenDelivery | include/net_ip/detail/tcp_io.hpp:118-122 | a connection that received encoded bodies delivered exactly those messages and holds no partial one |
| TcpIoRuns.DelimitedDelivery | include/net_ip/detail/tcp_io.hpp:213-222 | for every delimiter and arrival of bytes, delivered messages are the first of the split, all of them once the reader waits; with the vector they are the bytes received |
| TcpIoRuns.SegmentationDoesNotMatter | include/net_ip/detail/tcp_io.hpp:268-286 | the same bytes, however cut, deliver the same messages |
| TcpIoRuns.TextDelivery | test/shared_test/msg_handling.hpp:94-104 | a connection that received delimited bodies delivered one message each |
| TcpIoRuns.HandlerFollowsLife | include/net_ip/detail/tcp_io.hpp:144-181 | each step notifies exactly when, and with the code, that the life which connector and acceptor see says |
| TcpIoRuns.RunFollowsLife | include/net_ip/detail/tcp_io.hpp:144-181 | over every run, misordered calls included, the handler's life and all its notifications are those of its owner's view |
| TcpIoRuns.NotifiesOnce | include/net_ip/detail/tcp_io.hpp:171-181 | used as documented a handler notifies at most once in any run |
| ConnectorTimeout.BackoffValue | include/net_ip/tcp_connector_timeout.hpp:158-163 | without overflow the wait is the initial timeout first, then the product capped at the maximum |
| ConnectorTimeout.BackoffIsMonotone | include/net_ip/tcp_connector_timeout.hpp:158-163 | waits never shrink, never fall below the initial timeout and never exceed the maximum |
| ConnectorTimeout.UncappedTotal | include/net_ip/tcp_connector_timeout.hpp:158-163 | the first k uncapped waits sum to initial + scale*initial*k*(k-1)/2 |
| ConnectorTimeout.TotalIsBounded | include/net_ip/tcp_connector_timeout.hpp:158-163 | the first k waits sum to at most initial + (k-1)*max |
| ConnectorTimeout.NoAttemptsIsNegative | include/net_ip/tcp_connector_timeout.hpp:158-163 | asked about zero attempts the unsigned arithmetic answers with a negative wait |
| TcpConnector.TcpConnector.Start | include/net_ip/detail/tcp_connector.hpp:158-164 | does the start step exactly when the entity was unstarted |
| TcpConnector.TcpConnector.DoStart | include/net_ip/detail/tcp_connector.hpp:186-213 | connects when endpoints are known, otherwise resolves |
| TcpConnector.TcpConnector.HandleResolve | include/net_ip/detail/tcp_connector.hpp:193-207 | the resolver's completion, late ones included, does the resolve step |
| TcpConnector.TcpConnector.Stop | include/net_ip/detail/tcp_connector.hpp:166-174 | posts a close exactly when the entity was started |
| TcpConnector.TcpConnector.RunPostedStop | include/net_ip/detail/tcp_connector.hpp:169-171 | the posted close does the table's close |
| TcpConnector.TcpConnector.Close | include/net_ip/detail/tcp_connector.hpp:215-257 | the chain from close through stop_io and notify_me to finish_close ends in the state and callbacks the table gives in one step |
| TcpConnector.TcpConnector.FinishClose | include/net_ip/detail/tcp_connector.hpp:259-266 | stopped, after a real error and closed are reported |
| TcpConnector.TcpConnector.StartConnect | include/net_ip/detail/tcp_connector.hpp:268-280 | one more attempt and one more outstanding connect |
| TcpConnector.TcpConnector.HandleConnect | include/net_ip/detail/tcp_connector.hpp:282-327 | a connect completion, late, failed or successful with any calls on the new handler, one after the other, in the callback, does the table's step |
| TcpConnector.TcpConnector.ConnectFailed | include/net_ip/detail/tcp_connector.hpp:289-317 | asks the timeout function, then waits or closes |
| TcpConnector.TcpConnector.MakeIoHandler | include/net_ip/detail/tcp_connector.hpp:318-325 | a new handler is current and announced |
| TcpConnector.TcpConnector.HandleTimer | include/net_ip/detail/tcp_connector.hpp:307-315 | a timer completion, late ones included, does the timer step |
| TcpConnector.TcpConnector.HandleHandlerEvent | include/net_ip/detail/tcp_connector.hpp:329-341 | whatever happens to an IO handler does the table's step |
| TcpConnector.TcpConnector.NotifyMe | include/net_ip/detail/tcp_connector.hpp:329-341 | a closed handler is reported and leads to a reconnect exactly when connected and asked to, otherwise to the end |
| ConnectorTheorems.StateChangesAlternate | include/net_ip/detail/tcp_connector.hpp:215-341 | over every run the state change callbacks are (1,true),(0,false) for each connection in turn, open exactly while connected, which is exactly while there is a handler |
| ConnectorTheorems.OneOperationAtATime | include/net_ip/detail/tcp_connector.hpp:186-317 | at most one resolve, connect or timer is outstanding and the state says which |
| ConnectorTheorems.StopEndsStopped | include/net_ip/detail/tcp_connector.hpp:166-174 | from every reachable state the posted close ends stopped with every handler closed, IO started on it or not |
| ConnectorTheorems.SilentOnceStopped | include/net_ip/detail/tcp_connector.hpp:215-218 | once stopped no later completion or call causes any callback |
| ConnectorTheorems.ClosedIsLast | include/net_ip/detail/tcp_connector.hpp:259-266 | tcp_connector_closed is reported at most once and is the last callback of all |
| ConnectorTheorems.ClosedUnlessResolveFailed | include/net_ip/detail/tcp_connector.hpp:195-200 | a stopped connector has reported closed if and only if its resolve did not fail |
| ConnectorTheorems.FailedResolveIsSilent | include/net_ip/detail/tcp_connector.hpp:195-200 | a run that ends stopped, not reported closed and still counted as started |
| ConnectorTheorems.EndedStillStarted | include/net_ip/detail/tcp_connector.hpp:195-341 | over every run, a connector that has ended still counts as started if and only if a resolve failed or the connection was lost with reconnecting off, and no stop has won |
| ConnectorTheorems.StopIoKeepsActive | include/net_ip/detail/tcp_connector.hpp:329-341 | in every run stop_io on the current handler leaves the connector active if and only if reconnecting is on, and otherwise closed is reported |
| ConnectorTheorems.StopIoEndsIt | include/net_ip/detail/tcp_connector.hpp:329-341 | a run in which stop_io ends the connector, with all its callbacks |
| ConnectorTheorems.SkewFromEvents | include/net_ip/detail/tcp_connector.hpp:318-326 | the recorded flag is set exactly if the run's latest successful connect was closed in its own callback with reconnecting on |
| ConnectorTheorems.AttemptsCountConnects | include/net_ip/detail/tcp_connector.hpp:268-327 | while connecting or waiting the attempts are the connects begun since the last success, less one if that success's callback closed its handler; waits are the timeout function's answers |
| ConnectorTheorems.AskedFromOne | include/net_ip/tcp_connector_timeout.hpp:18-19 | since a success whose callback did not close its handler, the timeout function is asked about 1, 2, 3, ... |
| ConnectorTheorems.AskedZeroExactly | include/net_ip/detail/tcp_connector.hpp:318-326 | in every run zero attempts were asked about since the last success if and only if its callback closed the handler and a connect failed since; the next failure asks about zero if and only if it is the first after such a callback |
| ConnectorTheorems.NeverAskedZero | include/net_ip/tcp_connector_timeout.hpp:18-19 | a run in which no connect callback closes its handler with reconnecting on never asks about zero attempts |
| ConnectorTheorems.AskedAboutZero | include/net_ip/detail/tcp_connector.hpp:286-327 | a run in which the timeout function is asked about zero attempts |
| ConnectorTheorems.BurstsBegin | include/net_ip/detail/tcp_connector.hpp:186-341 | every connect that does not follow a timer, after a start, a resolve or a lost connection, begins a burst |
| ConnectorTheorems.FailingRun | include/net_ip/detail/tcp_connector.hpp:286-317 | in every burst of failing connects, late and losing events in between, for any timeout function: asked in order, waited as told, stopped at its first refusal |
| ConnectorTheorems.CountedGivesUp | include/net_ip/tcp_connector_timeout.hpp:118-120 | in every burst a count of N means exactly N waits and N+1 connects, one more of each if self-inflicted, then stopped with no reconnect reported |
| ConnectorTheorems.CountedBoundExactly | include/net_ip/tcp_connector_timeout.hpp:98-120 | the documented maximum of N connects holds if and only if fewer than 2N connects have failed and timers fired |
| ConnectorTheorems.CountOfOneConnectsTwice | include/net_ip/tcp_connector_timeout.hpp:98-120 | a run with a count of one that connects twice and then stops, with all its callbacks |
| ConnectorTheorems.SimpleNeverGivesUp | include/net_ip/tcp_connector_timeout.hpp:87-89 | with a simple timeout no burst gives up |
| ConnectorTheorems.SimpleWaits | include/net_ip/tcp_connector_timeout.hpp:87-89 | in every run the waits of a simple timeout are all the same |
| ConnectorTheorems.BackoffNeverGivesUp | include/net_ip/tcp_connector_timeout.hpp:130-163 | with a backoff no burst gives up |
| ConnectorTheorems.BackoffWaits | include/net_ip/tcp_connector_timeout.hpp:130-163 | in every run the waits since the last success add up to the backoff's total, after a self-inflicted reconnect with the answer to zero first |
| ConnectorReports.CallbacksInOrder | include/net_ip/detail/tcp_connector.hpp:186-341 | over every run the callbacks come in an order given from the callbacks alone, and the last one heard says where the connector is |
| ConnectorReports.ErrorsReported | include/net_ip/detail/tcp_connector.hpp:286-317 | over every run the system errors heard are, in order, those of the failed connects, of arming the timer, and of the failed timers |
| ConnectorReports.HandlersAsTheirActions | include/net_ip/detail/tcp_connector.hpp:215-341 | over every run each IO handler's life and the codes reported for it are what the calls on it, the connector's own stop_io included, give |
| ConnectorReports.OneCloseForTheWinner | include/net_ip/detail/tcp_connector.hpp:166-174 | over every run the winning stop posts one close and no other stop does: it is posted still or has run |
| ConnectorReports.EndpointsKnown | include/net_ip/detail/tcp_connector.hpp:195-206 | connects are tried on the endpoints given and those a successful resolve found |
| TcpAcceptor.TcpAcceptor.Start | include/net_ip/detail/tcp_acceptor.hpp:115-175 | accepts, or closes on the first error of opening the socket |
| TcpAcceptor.TcpAcceptor.Stop | include/net_ip/detail/tcp_acceptor.hpp:123-131 | posts a close exactly when the entity was started |
| TcpAcceptor.TcpAcceptor.Close | include/net_ip/detail/tcp_acceptor.hpp:177-198 | ends with every live handler closed and reported, the container empty, and closed reported |
| TcpAcceptor.TcpAcceptor.StopHandlers | include/net_ip/detail/tcp_acceptor.hpp:184-189 | the loop over a copy, while each stop_io erases from the container itself, closes each live handler once, in order |
| TcpAcceptor.TcpAcceptor.HandleAccept | include/net_ip/detail/tcp_acceptor.hpp:202-227 | an accept adds the handler, posts its announcement and accepts again, unless failed or shutting down |
| TcpAcceptor.TcpAcceptor.RunAnnouncement | include/net_ip/detail/tcp_acceptor.hpp:220-223 | the posted callback reports the container's size at that time |
| TcpAcceptor.TcpAcceptor.NotifyMe | include/net_ip/detail/tcp_acceptor.hpp:231-235 | a closed handler is erased and reported with the number remaining |
| TcpAcceptor.TcpAcceptor.VisitIoOutput | include/net_ip/detail/tcp_acceptor.hpp:92-113 | visits exactly the live handlers with IO started, in accept order, and none while shutting down |
| AcceptorRuns.StopEachClosesAll | include/net_ip/detail/tcp_acceptor.hpp:184-189 | stopping the live handlers one by one closes them all, each reported with the number still live |
| AcceptorRuns.HandlersAreTheLiveOnes | include/net_ip/detail/tcp_acceptor.hpp:177-235 | over every run the container is the accepted handlers that have not closed, in accept order, and empty once shutting down |
| AcceptorRuns.ShutdownIsFinal | include/net_ip/detail/tcp_acceptor.hpp:211-213 | no later event refills a shut down acceptor |
| AcceptorRuns.ClosedExactly | include/net_ip/detail/tcp_acceptor.hpp:177-198 | over every run closed is reported if and only if the acceptor has shut down, and the entity is stopped exactly then or with the close still posted |
| AcceptorRuns.ClosedReportedOnce | include/net_ip/detail/tcp_acceptor.hpp:177-198 | closed is reported once, last by the step that shuts down, never before it; after it only the announcements then posted, in order, each with no handler left |
| AcceptorRuns.OneCallbackPairEach | include/net_ip/detail/tcp_acceptor.hpp:216-235 | each accepted handler is announced and reported closed at most once, and exactly once each after a shutdown whose announcements have run |
| AcceptorRuns.ReportedFirstExactly | include/net_ip/detail/tcp_acceptor.hpp:216-235 | over every run some closed report of a handler has no announcement before it if and only if the handler was closed while its announcement was posted |
| AcceptorRuns.AnnouncedBeforeClosed | include/net_ip/detail/tcp_acceptor.hpp:216-235 | told from the callbacks: every closed report follows an announcement if and only if the handler was not closed unannounced |
| AcceptorRuns.ClosedBeforeAnnounced | include/net_ip/detail/tcp_acceptor.hpp:217-223 | a run in which a handler is reported closed before it is announced |
| AcceptorReports.KeepsAccepting | include/net_ip/detail/tcp_acceptor.hpp:202-227 | over every run, from the start to the shutdown, an accept is outstanding if and only if no accept has failed |
| AcceptorReports.EachAcceptedIsHandled | include/net_ip/detail/tcp_acceptor.hpp:211-215 | over every run each connection accepted before the shutdown is given an IO handler |
| AcceptorReports.ShutsDownExactly | include/net_ip/detail/tcp_acceptor.hpp:123-175 | the acceptor shuts down if and only if opening failed or a stop's close has run |
| AcceptorReports.CodesReported | include/net_ip/detail/tcp_acceptor.hpp:177-198 | over every run the codes about no handler are those of the failed opening or of the stop, with the closing error and closed |
| AcceptorReports.HandlersAsTheirActions | include/net_ip/detail/tcp_acceptor.hpp:177-235 | over every run each IO handler's life and the codes reported for it are what the calls on it, the acceptor's own stop_io included, give |
| AcceptorReports.CountsAreLive | include/net_ip/detail/tcp_acceptor.hpp:216-235 | after every run, whatever comes next, each state change callback counts the handlers live at that moment, and a closed report directly follows its handler's code |
| SendToAll.SendToAll.AddIoOutput | include/net_ip_component/send_to_all.hpp:81-84 | appends the connection |
| SendToAll.SendToAll.RemoveIoOutput | include/net_ip_component/send_to_all.hpp:91-94 | erases every copy of the connection and keeps the others' order |
| SendToAll.SendToAll.OnIoStateChange | include/net_ip_component/send_to_all.hpp:103-115 | a starting connection is added, a closed one erased, one that is gone ignored |
| SendToAll.SendToAll.Send | include/net_ip_component/send_to_all.hpp:123-128 | every registered connection gets the buffer as often as it is registered |
| SendToAll.SendToAll.SendExcept | include/net_ip_component/send_to_all.hpp:138-145 | the same, except that the given connection gets nothing |
| BroadcastProtocol.AcceptsWhatReachesIt | include/net_ip_component/send_to_all.hpp:81-145 | over every run, whatever happens between the calls of a broadcast, a connection accepts exactly the buffers of its own sends and of the broadcasts' calls that reached it |
| BroadcastProtocol.OwnSends | include/net_ip/detail/io_common.hpp:95-109 | a connection's own send reaches it once if started, otherwise not |
| BroadcastProtocol.BroadcastCopies | include/net_ip_component/send_to_all.hpp:123-145 | a broadcast reaches a connection at most once for each registration and not if skipped, exactly so often if it was started at each call, and never if at none |
| BroadcastProtocol.BroadcastsArriveInOrder | include/net_ip_component/send_to_all.hpp:123-145 | a connection accepts every copy of a broadcast before any of a later one |
| BroadcastProtocol.CommonBroadcastsInOneOrder | include/net_ip_component/send_to_all.hpp:123-145 | any two connections accept their copies of any two broadcasts in the same order |
| BroadcastProtocol.OwnSendOvertakes | include/net_ip_component/send_to_all.hpp:123-128 | a run in which a connection's own send, made after a broadcast began, is accepted before it |
| BroadcastProtocol.UndisturbedBroadcast | include/net_ip_component/send_to_all.hpp:123-145 | with nothing in between the calls the broadcast is the loop: each connection gets the buffer as often as it is to be called |
| BroadcastProtocol.ConnectionsAreWriters | include/net_ip/detail/io_common.hpp:95-126 | each connection is the locked write protocol run on the sends, starts, closes and completions that concern it |
| Registration.ConnectorRegistersItsHandler | include/net_ip_component/send_to_all.hpp:103-115 | as a connector's callback the collection is, over every run, exactly the current IO handler |
| Registration.AcceptorRegistersTheAnnounced | include/net_ip_component/send_to_all.hpp:103-115 | as an acceptor's callback it holds, over every run, each announced live handler once, and otherwise only those closed before they were announced |
| Registration.ShutdownEmptiesTheCollection | include/net_ip/detail/tcp_acceptor.hpp:216-235 | after a shutdown something is left in it if and only if a handler was closed while its announcement was posted |
| Registration.OneIsLeft | include/net_ip/detail/tcp_acceptor.hpp:216-235 | a run after which the collection still holds a closed handler |

## Left out

- Asio itself, sockets, name resolution and real time: present only as completion events.
- Buffers' lifetime and reference counting: elements are immutable byte strings.
- Memory visibility and the promises that start and stop wait on: each step is atomic, and the waiting is not modelled.
- The IO handlers inside TcpConnector and TcpAcceptor are lives (started, notified), tied to the handler by TcpIoRuns.HandlerFollowsLife, not TcpIo objects with a function object that points back.
- connAttempts and queue lengths do not wrap around at 2^64; the byte count and the backoff's products do.
- The weak pointer facades (`basic_io_interface`, `basic_io_output`, `net_entity`) and the containers of `net_ip`: thin forwarding. Two expired outputs comparing equal is not modelled.
- `udp_entity_io`: a second user of the same write path with a simpler close.
- `exponential_backoff_timeout`: floating-point powers and out-of-range casts.
- `visit_socket`, the connector's `visit_io_output`, futures of `io_output_delivery`, error logging and the example programs.
- The SendToAll class's loops run undisturbed; what may come between their calls is in BroadcastProtocol. In Registration the IO handler of a callback is alive, as connector and acceptor hold it.
- An empty delimiter: the read-until would complete without consuming anything.
- The big-endian `extract_val` and `append_val` come from the binary-serialize library, which is not part of this model; their documented effect is used.
