# A model of pytradekit's protocols and arithmetic

pytradekit is a Python toolkit for trading on crypto exchanges: websocket clients that recover by
themselves, a FIX client, a pager that backfills missed trades, Redis structures shared by several
processes, and the date, tick and instrument-code arithmetic these use. This project models those parts
and proves what they keep. `dafny verify dfyconfig.toml` checks all of it.

| file | models |
|---|---|
| `RecoveryMachine.dfy` | `BaseWebsocketManager`, `WsManager` and the private `HuobiWsManager` as one machine of atomic steps taken by any number of user threads, monitor threads, sockets and the network |
| `RecoverySafety.dfy`, `RecoveryLimits.dfy` | its invariant over all runs; that each scheduling assumption is needed, and exactly when `close()` is final |
| `RecoverySteps.dfy` | what each operation of the manager does for its caller, said of states and the log alone |
| `RecoveryReplay.dfy`, `RecoverySends.dfy`, `RecoveryLogins.dfy` | what a completed recovery has re-sent, ids, and exactly when a waiting callback is safe to subscribe |
| `IdStamp.dfy` | the two lines that give a message its id, without the assumption that they are one step |
| `WsManager.dfy` | the class whose methods update the fields in place; each method is one step, or a run of steps, of that machine |
| `FixFraming.dfy`, `FixChunks.dfy`, `FixSession.dfy` | the receive buffer, any number of chunks, and the sent frames of the FIX 4.4 client |
| `FixReader.dfy` | a reader of FIX messages by their tags, which the sent heartbeats are held against |
| `Backfill.dfy`, `BackfillCoverage.dfy`, `BackfillGroups.dfy` | the overlapping-page walk, the duplicate filter, what they lose, and for which histories they lose nothing |
| `BackfillRecords.dfy` | what the returned records say of the trades they come from |
| `RedisPortfolios.dfy`, `RedisDrains.dfy` | the lock-protected read-merge-write and read-then-delete protocols, command by command |
| `WsApiSession.dfy`, `WsApiTrace.dfy` | the Binance WS-API session, and its log, counters and queue as functions of what happened to it |
| `Calendar.dfy`, `Schedule.dfy` | last complete week, month, quarter; the data spans of hourly jobs |
| `OrderBook.dfy` | ticks, order volumes, best prices, depth totals |
| `InstCodes.dfy`, `Commas.dfy` | instrument codes, thousands separators |
| `Numerals.dfy`, `Text.dfy`, `Multiples.dfy`, `Options.dfy` | what the others share: numerals, text, remainders |

## How the concurrent parts are modelled

The recovery machine, the Redis protocols and the WS-API session are total functions `Next(state, action)`; a
run is any list of actions, and an action that is not enabled changes nothing. The classes beside them state
each method's new state by that function.

Recovery machine. One step is: the stamp of an id in `send_json`; taking the semaphore and looking at the
status; the write; each line of `connect` and `_connect` that touches shared fields; the monitor's test and
set (base_ws_manager.py lines 86-90); each line of `_recovery`; each line of `close` (72, 74, 75); one failing
callback. The callback of a private Huobi login is three steps: its identity test up to the stamp, the
semaphore, and the write. `Disciplined` adds three assumptions, used by the theorems whose `requires` name it:

- the tail of an attempt, from line 127 (status set to ACTIVE) to leaving `connect` at line 69, is not
  interrupted (`TailMustBeUndivided`);
- `close()` is not called while a thread is connecting (`CloseOverwritten`);
- no monitor's test comes between the lines of a `close()` (`CloseMustBeUndivided`).

The lemma named with each shows what happens without it, from every state in which it says anything. The theorems
on replay and ids use none of the three; `CloseIsFinalExact` and `SubscribesAfterAuthExact` use them for the run up
to their state and quantify over every continuation. `IdsAreNeverReused` assumes that reading and incrementing the id
counter (ws_manager.py lines 40-41) is one step; `IdsAreDistinctExact` takes the lines apart and shows that this is
needed. A failed attempt leaves its monitor running, so the claim is "a live monitor", not "exactly one".

Redis. Each command is one step. The portfolios' `Disciplined` says that a critical section ends within the
lock's timeout, that no command fails between SET and PUBLISH, and that no key expires or is overwritten inside
a GET..PUBLISH. What a breach does is stated for a single one, from every state of the invariant:

| breach | between GET and SET | between SET and PUBLISH |
|---|---|---|
| the lock runs out and whole sections of others go through | `LostUpdateExact` | `OutOfOrderExact` |
| the lock runs out and another client gets the same object, both set | `OverlapExact` | |
| the key expires or is overwritten by junk | `ResurrectedExact` | `LateDeltaExact` |
| a command fails | harmless, so allowed | `LostDeltaExact` |

More than two sections that overlap line by line after the lock ran out are not covered, nor is an overwriting by
another object. The drains' `Disciplined` says that the lock holds, of which one breach is `AddedDuringDrain`, and
that the key does not expire between a drain's read and its removal. Commands may fail anywhere, and the key may
expire elsewhere: both are part of every theorem on drains (`LostDrainExact`).

WS-API session. `Disciplined` says that request ids are distinct and that the server answers only ids sent on
the same connection. `ClosesReported`, used for `is_healthy` alone, says that `_on_close` is called before
`run_forever` returns.

## Where the code does less than its intent

- The pager stops as soon as a page ends at its own cursor (bn_add_missing_orders.py line 52). When a page
  boundary falls inside the last timestamp of the window, the rest of that timestamp is lost, even when every
  timestamp holds fewer trades than a page (`LastTimestampLostExample`, four trades). `PageBoundaryExact` says
  exactly for which histories nothing is lost, and `DistinctGroupsExact` puts it in numbers: with distinct
  timestamps before a last one of m trades, the first of them at index s, nothing is lost if and only if s = 0
  or (s - 1) mod (limit - 1) + m <= limit - 1.
- A FIX message that begins with `10=` is sent as a frame that the receiver cuts short, although it contains no
  `|10=` (`LeadingTrailerExample`). `SentIsReceived` gives the exact condition.
- A stream cut inside an `8=FIX` marker loses that marker, because the buffer is cleared
  (`CutInsideMarkerExample`, `CutExact`). `CutExact` assumes that no marker starts inside the four characters a
  frame takes after `10=`, as in every trailer of FIX 4.4 Volume 2, "Standard Message Trailer";
  `ImproperTrailerExample` shows that without it a destroyed marker can go unnoticed. The harmless direction,
  `CutHarmless`, holds for all streams.
- `close()` during an attempt is overwritten at line 127. A monitor past its `while` can overwrite it too, at
  lines 88-89, whether or not the close is clean: before line 75 the socket is closed and still set
  (`CloseIsFinalExact`, `StoppedIsFinalExact`).
- A private Huobi recovery completes although its login was not sent, because `start_subscribe` swallows the
  exception (huobi_ws.py lines 173-177; `LoginSentExact`).
- The callback of a login success tests its socket before it waits for the semaphore (base_ws_manager.py lines
  131 and 46-52). A recovery in between makes it subscribe on the new socket, which has not logged in. While a
  callback is on its way nothing short of a final STOP rules that out (`SubscribesAfterAuthExact`,
  `CallbackMustBeUndivided`); it is enough that its own socket is still set when it writes (`OwnSocketIsEnough`).
- Two threads between lines 40 and 41 of ws_manager.py give two messages one id (`IdsAreDistinctExact`).
- An exception after a drain's `delete` or `zrem` loses what the drain had read (`LostDrainExact`).
- A cron list with a single hour gives a span of no hours; a step that does not divide 24 covers some hours twice
  (`SpansPartitionExact`, `MsSpansAbutExact`).
- The symbol of a base ending in B quoted in USD reads as a BUSD pair (`SymbolRoundTripExact`).
- `is_healthy` outlives its connection exactly when `_on_close` was not called and both acknowledgements had come
  (`StaleHealthExact`).
- `handle_pcs_decimal` rounds a negative value up, since Decimal's `//` truncates toward zero
  (`HandlePcsExact`, `VolumeExact`).

## Model

| member | source | states |
|---|---|---|
| RecoverySafety.OneAttemptAtATime | pytradekit/gateway/websocket/base_ws_manager.py:46-127 | over every disciplined run of any number of threads, at most one thread is connecting or recovering; the assertion of `_connect` never fails and no monitor meets a missing socket while ACTIVE |
| RecoverySafety.SomeoneIsInCharge | pytradekit/gateway/websocket/base_ws_manager.py:79-127 | ACTIVE has a socket and a live monitor, RECOVERY has a thread recovering, STOP has no thread connecting |
| RecoverySafety.StepKeepsInv | pytradekit/gateway/websocket/base_ws_manager.py:46-157 | the invariant behind both is kept by every disciplined step |
| RecoverySafety.FailureEnablesRecovery | pytradekit/gateway/websocket/base_ws_manager.py:79-92 | with a dead socket or a raised flag while ACTIVE, the newest monitor reaches RECOVERY in two steps |
| RecoverySafety.FailurePersists | pytradekit/gateway/websocket/base_ws_manager.py:57-60 | no step of another thread makes a failure go unnoticed: it stays until RECOVERY or a `close` |
| RecoverySafety.OnlyTheCurrentSocketRaisesTheFlag | pytradekit/gateway/websocket/base_ws_manager.py:129-147 | the flag is raised exactly by the current socket outside RECOVERY; a superseded socket's close or error changes nothing |
| RecoverySafety.OneSocketUntilTheNextRecovery | pytradekit/gateway/websocket/base_ws_manager.py:46-157 | while a disciplined run stays ACTIVE the socket is the same one and every message goes out on it; a replay is spread over two sockets only if another recovery begins |
| RecoverySteps.MessageReachesTheWire | pytradekit/gateway/websocket/base_ws_manager.py:46-55 | with the semaphore free and a connected socket set, whatever a user asks to send goes out as exactly one frame, on that socket, with the next id, and thread and semaphore are free again |
| RecoverySteps.FailedWriteLeavesTheWayFree | pytradekit/gateway/websocket/base_ws_manager.py:46-52 | a write that is refused, or meets no connected socket, puts nothing on the wire, releases the semaphore and returns a user to outside |
| RecoverySteps.SubscriptionIsCached | pytradekit/gateway/websocket/ws_manager.py:53-57 | a subscription is appended to the cache unless it is there already |
| RecoverySteps.FirstMessageConnects | pytradekit/gateway/websocket/base_ws_manager.py:46-127 | the first message of a new manager opens one socket and one monitor, makes it ACTIVE and goes out on that socket |
| RecoverySteps.LoginLeadsToSubscription | pytradekit/ws/huobi_ws.py:82-207 | an auth success on the current socket of a private manager adds `trade.clearing#*#0` and nothing else to the cache; on an open way the frame that follows on that socket is this subscription, with the next id |
| RecoverySteps.OtherLoginsLeadNowhere | pytradekit/ws/huobi_ws.py:202-207 | an auth success of a superseded socket, or of a public manager, caches and sends nothing |
| RecoverySteps.CacheOnlyGrows | pytradekit/gateway/websocket/ws_manager.py:44-57 | over all runs the cache before is an initial part of the cache after |
| RecoverySteps.RecoveryHasAReason | pytradekit/gateway/websocket/base_ws_manager.py:79-92 | over all steps only a monitor's test begins a recovery, and only for a raised flag or a socket that is not connected; the flag is dropped |
| RecoverySteps.MonitorDecides | pytradekit/gateway/websocket/base_ws_manager.py:86-92 | while ACTIVE the test begins a recovery for either reason, crashes where no socket is set, and otherwise changes nothing but the monitor |
| RecoverySteps.RecoveryReplacesTheSocket | pytradekit/gateway/websocket/base_ws_manager.py:149-157 | a recovery closes its socket, connects a fresh one with a new monitor, and is at the start of its replay with nothing sent and nothing forgotten |
| RecoverySteps.TimeoutTriesAgain | pytradekit/gateway/websocket/base_ws_manager.py:121-127 | an attempt that times out drops its socket and opens another |
| RecoverySteps.CloseLeavesNothingOpen | pytradekit/gateway/websocket/base_ws_manager.py:71-77 | an undisturbed `close` leaves STOP, a closed socket and none set |
| RecoverySteps.FailedCloseStillStops | pytradekit/gateway/websocket/base_ws_manager.py:71-77 | a `close` that raises, or finds no socket, changes the status to STOP and nothing else |
| RecoverySteps.MonitorsEndOnStop | pytradekit/gateway/websocket/base_ws_manager.py:81 | at its `while` a monitor ends exactly on STOP |
| RecoveryLimits.CloseIsFinalExact | pytradekit/gateway/websocket/base_ws_manager.py:71-92 | from the first line of `close` on every continuation stays stopped, clean or not, if and only if no thread was connecting and either there was no socket or no monitor was past its `while` |
| RecoveryLimits.StoppedIsFinalExact | pytradekit/gateway/websocket/base_ws_manager.py:71-92 | the same from every stopped state with no thread connecting, such as after line 74 or after a close that raised: final if and only if the socket is forgotten or no monitor is past its `while` |
| RecoveryLimits.CloseOverwritten | pytradekit/gateway/websocket/base_ws_manager.py:71-127 | from every state with an attempt in flight some continuation overwrites STOP |
| RecoveryLimits.CloseMustBeUndivided | pytradekit/gateway/websocket/base_ws_manager.py:71-127 | from every state with a `close` at line 75 and a monitor at its test with a socket set, some continuation is ACTIVE without a socket |
| RecoveryLimits.TailMustBeUndivided | pytradekit/gateway/websocket/base_ws_manager.py:62-127 | from every state with a thread between line 127 and line 69 some continuation fails the assertion |
| RecoveryLimits.RecoveryCanComplete | pytradekit/gateway/websocket/base_ws_manager.py:94-157 | from every reachable RECOVERY state some continuation reaches ACTIVE |
| RecoveryReplay.CompletedRecoveryReplaysAll | pytradekit/gateway/websocket/ws_manager.py:44-57 | over all runs: when a generic manager's recovery completes, by whatever step, its thread has sent every cached subscription exactly once, in order, without altering the cache |
| RecoveryReplay.CompletedPrivateRecovery | pytradekit/ws/huobi_ws.py:157-177 | a private Huobi manager's completed recovery has sent its login alone if it completed at the end of its list, and nothing if an exception ended it |
| RecoveryReplay.LoginSentExact | pytradekit/ws/huobi_ws.py:157-177 | a recovery about to write its login completes in any case; it has sent the login if and only if the write met a live socket that took it |
| RecoveryReplay.ReplayIsAPrefix | pytradekit/gateway/websocket/ws_manager.py:44-46 | at any time a recovering thread has sent an initial part of that list and nothing else |
| RecoverySends.IdsAreNeverReused | pytradekit/gateway/websocket/ws_manager.py:38-42 | no two messages of a run have the same id, whichever threads and sockets sent them, when an id is read and incremented in one step |
| IdStamp.IdsAreDistinctExact | pytradekit/gateway/websocket/ws_manager.py:39-41 | for any number of threads and any interleaving of the lines, the read and the write of the increment apart: all ids are distinct if and only if no thread began while another was between its lines |
| IdStamp.UndividedStamp | pytradekit/gateway/websocket/ws_manager.py:39-41 | taken in one go the lines are the one step of the recovery machine |
| RecoveryLogins.SubscribesAfterAuthExact | pytradekit/ws/huobi_ws.py:157-207 | for every state of a disciplined run of a private manager with a callback on its way to subscribe, waiting or writing: on every continuation each subscription follows an auth success of its socket, if and only if that holds so far, the status is a STOP that no thread can overwrite, and there is no socket or it is dead or has logged in |
| RecoveryLogins.CallbackMustBeUndivided | pytradekit/gateway/websocket/base_ws_manager.py:46-52 | so in INIT, ACTIVE and RECOVERY some continuation lets it subscribe on a socket without a login |
| RecoveryLogins.OwnSocketIsEnough | pytradekit/gateway/websocket/base_ws_manager.py:129-138 | over all runs: subscriptions follow their socket's login whenever each callback still finds its own socket set when it writes |
| WsManager.BaseWebsocketManager.MonitorCheck | pytradekit/gateway/websocket/base_ws_manager.py:86-92 | the monitor's test and set changes the fields as the machine's step |
| WsManager.BaseWebsocketManager.WrappedFailure | pytradekit/gateway/websocket/base_ws_manager.py:129-147 | a closing, failing or raising callback raises the flag only for the current socket, as the machine's step |
| WsManager.BaseWebsocketManager.ConnectBegin | pytradekit/gateway/websocket/base_ws_manager.py:94-105 | the start of `_connect` fails its assertion or drops a raised flag and starts one monitor, as the machine's step |
| WsManager.BaseWebsocketManager.AuthMessage | pytradekit/ws/huobi_ws.py:196-207 | an auth success on the current socket puts the trade subscription `trade.clearing#*#0` into the cache and starts its send, and any other does neither, as the machine's step |
| WsManager.BaseWebsocketManager.EnterSend | pytradekit/gateway/websocket/base_ws_manager.py:46-49 | the entry of `send` takes the semaphore when it is free, as the machine's step |
| WsManager.BaseWebsocketManager.WriteMessage | pytradekit/gateway/websocket/base_ws_manager.py:50-52 | the rest of `send` writes or raises, and releases the semaphore either way, as the machine's step |
| WsManager.BaseWebsocketManager.StartStream | pytradekit/gateway/websocket/ws_manager.py:53-57 | the subscription is cached and sent, as the machine's run; on an open way its frame is in the log, and whatever becomes of the write it stays in the cache with all that was there |
| WsManager.BaseWebsocketManager.SendJson | pytradekit/gateway/websocket/ws_manager.py:38-42 | stamp, admission and write without interruption are the machine's run of those steps; with the semaphore free and a live socket exactly one frame goes out, with the current id |
| WsManager.BaseWebsocketManager.Close | pytradekit/gateway/websocket/base_ws_manager.py:71-77 | an undisturbed `close`, with and without an exception, is the machine's run of its three lines, each carried out on the fields by a method of its own |
| WsManager.BaseWebsocketManager.ReconnectStreams | pytradekit/gateway/websocket/ws_manager.py:44-46 | the loop is the machine's replay up to the first message that does not get through; on a clear way it appends one frame for each cached subscription, in order, with consecutive ids, and completes |
| BackfillCoverage.BackfilledIsPrefix | pytradekit/ws/bn_add_missing_orders.py:40-64 | for every history, limit and pattern of failing requests, pager and filter return exactly the window up to the walk's stop, each trade once and in order |
| BackfillCoverage.OnlyTheLastTimestampIsLost | pytradekit/ws/bn_add_missing_orders.py:52-56 | with fewer trades per timestamp than a page, only trades of the window's last timestamp can be lost |
| BackfillGroups.PageBoundaryExact | pytradekit/ws/bn_add_missing_orders.py:44-63 | with fewer trades per timestamp than a page and the last timestamp not at a span end, the result is exactly the trades strictly inside the span if and only if no page, laid from the start of the timestamp the one before ended in, ends strictly inside the last timestamp |
| BackfillGroups.EvenGroupsExact | pytradekit/ws/bn_add_missing_orders.py:44-63 | in numbers, when every timestamp before the last holds c trades: complete if and only if s = 0 or (s - 1) mod q + m <= limit - 1, for m last trades from index s on and q the multiple of c that a full page advances (limit - 1 when c is 1) |
| BackfillGroups.DistinctGroupsExact | pytradekit/ws/bn_add_missing_orders.py:44-63 | with distinct timestamps before a last one of m trades from index s on: complete if and only if s = 0 or (s - 1) mod (limit - 1) + m <= limit - 1 |
| BackfillCoverage.SingleLastIsComplete | pytradekit/ws/bn_add_missing_orders.py:52-56 | with small timestamps, a last timestamp with a single trade is enough for a complete result |
| BackfillCoverage.LastTimestampLostExample | pytradekit/ws/bn_add_missing_orders.py:52-56 | a history of four trades and limit three in which one trade is lost |
| BackfillCoverage.NothingLostBeforeCursor | pytradekit/ws/bn_add_missing_orders.py:44-63 | whatever ends the loop, every trade strictly between the span's start and the cursor has been returned |
| BackfillCoverage.DistinctTimesNeedNoFilter | pytradekit/ws/bn_add_missing_orders.py:40-64 | with distinct timestamps and limit at least two the pager alone returns exactly the trades strictly inside the span |
| BackfillCoverage.OnePageIsComplete | pytradekit/ws/bn_add_missing_orders.py:40-64 | a window that fits in one page loses nothing |
| BackfillRecords.RecordsTellTheirTrades | pytradekit/ws/bn_add_missing_orders.py:10-37 | every record of the backfill comes from a trade of the history strictly inside the span; its side is B exactly for a buyer and S exactly for a seller, its source MAKER or TAKER likewise, its time is the trade's, and its id reads back as the trade's id and symbol around the first hyphen |
| BackfillRecords.PagedRecordsTell | pytradekit/ws/bn_add_missing_orders.py:10-64 | the same of the pager alone, whatever the server answers |
| BackfillRecords.FailureEndsTheWalk | pytradekit/ws/bn_add_missing_orders.py:45-53 | after a request that fails nothing a later one might be answered with changes the result |
| BackfillRecords.NoFailureIsNone | pytradekit/ws/bn_add_missing_orders.py:45-53 | a run without failing requests is the run that names none, whatever the list's length |
| Backfill.GetBinanceTrade | pytradekit/ws/bn_add_missing_orders.py:40-64 | for any server whose answers end between the cursor and the span's end, any answer to any request: the loop terminates, never indexes an empty page, and collects what the walk over the answers yields, of which `PagedRecordsTell` says what each record tells |
| Backfill.FilterDuplicateTrade | pytradekit/utils/tools.py:659-673 | the list loop keeps the first occurrence of each key |
| Backfill.FirstOccurrencesKeys | pytradekit/utils/tools.py:659-673 | that leaves every key exactly once and loses none |
| BackfillRecords.FilterKeepsFirsts | pytradekit/utils/tools.py:659-673 | the filter keeps exactly the records whose id and side no earlier record has, in their order |
| Backfill.KeyIdentifies | pytradekit/ws/bn_add_missing_orders.py:29-30 | within one symbol the string key names one trade id and side |
| BackfillCoverage.PageIsSlice | pytradekit/restful/binance_restful.py:606-620 | a request's answer is the slice of the window that starts at the cursor |
| FixFraming.CutHarmless | pytradekit/fix/binance_fix.py:56-86 | for all streams: cutting after x changes neither the frames nor what can still become one, unless the unframed rest of x has no marker and a marker straddles the cut |
| FixFraming.CutExact | pytradekit/fix/binance_fix.py:56-86 | on a stream with proper trailers a cut is harmless if and only if it destroys no marker |
| FixFraming.ChunkingDoesNotMatter | pytradekit/fix/binance_fix.py:56-86 | any number of chunks, with junk anywhere: without a cut inside a marker the frames are those of the whole stream |
| FixChunks.ChunkingExact | pytradekit/fix/binance_fix.py:56-86 | on a stream with proper trailers any number of chunks gives what the whole stream gives if and only if no cut destroys a marker |
| FixFraming.CutInsideMarkerExample | pytradekit/fix/binance_fix.py:68-86 | a cut inside the only marker loses the frame |
| FixFraming.ImproperTrailerExample | pytradekit/fix/binance_fix.py:68-86 | with a marker inside a trailer, a destroyed marker goes unnoticed |
| FixSession.SentFrameIsAuthentic | pytradekit/fix/binance_fix.py:131-137 | every sent frame begins with tag 8 as FIX.4.4, has tag 9 equal to the length of its body and tag 10 three digits equal to the byte sum modulo 256, and gives back the body |
| FixSession.FrameEndExact | pytradekit/fix/binance_fix.py:68-86 | the receiver ends a frame where the sender did if and only if the body is clean |
| FixSession.SentIsReceived | pytradekit/fix/binance_fix.py:68-137 | a list of messages comes back frame by frame, with an empty buffer left, if and only if every message is clean |
| FixSession.SentIsReceivedInChunks | pytradekit/fix/binance_fix.py:56-137 | the same through any chunking that cuts no marker |
| FixSession.FieldsClean | pytradekit/fix/binance_fix.py:108-137 | a message of delimited fields is clean if and only if no field begins with `10=` |
| FixSession.HeartbeatsAreReceived | pytradekit/fix/binance_fix.py:101-112 | every run of heartbeats is received frame by frame |
| FixSession.HeartbeatReads | pytradekit/fix/binance_fix.py:108-112 | a reader by tags finds in a heartbeat's frame tag 35 as 0, 49 as the sender, 56 as the target, 34 as digits of the sequence number's value and 52 as the time |
| FixSession.HeartbeatsReadBack | pytradekit/fix/binance_fix.py:101-112 | and in every frame the receiver cuts from a run of heartbeats, with consecutive numbers |
| FixSession.LeadingTrailerExample | pytradekit/fix/binance_fix.py:131-137 | a message that ends in a delimiter, has no delimited `10=` and is still cut short |
| FixSession.FixClient.ProcessBuffer | pytradekit/fix/binance_fix.py:68-86 | the buffer loop hands on the complete frames and leaves the specified rest |
| FixSession.FixClient.Receive | pytradekit/fix/binance_fix.py:58-64 | a chunk is appended and the buffer processed; an empty one changes nothing |
| FixSession.FixClient.ReceiveAll | pytradekit/fix/binance_fix.py:56-66 | the receive loop over any chunks, empty ones among them, equals the fold of the specification |
| FixSession.FixClient.SendMessage | pytradekit/fix/binance_fix.py:131-137 | a successful send writes the frame and takes the next sequence number; a failed one changes neither |
| FixSession.FixClient.SendHeartbeat | pytradekit/fix/binance_fix.py:108-112 | a heartbeat goes out exactly when the connection is up and the message can be encoded; the reader finds in it the client as sender, SPOT as target, the number it took and the time |
| FixSession.FixClient.HeartbeatMonitor | pytradekit/fix/binance_fix.py:101-112 | the thread writes heartbeats up to the first turn that fails, and ends there; the reader finds in the k-th the client as sender, SPOT as target, the first number plus k and its time |
| RedisPortfolios.SnapshotIsTheMerge | pytradekit/utils/redis_operations.py:291-322 | over every interleaving the stored object is the right-biased merge, in lock order, of the values set since the last reset, and a subscriber's fold of the published deltas is the same but for one about to be published |
| RedisPortfolios.MergeKeepsEverySymbol | pytradekit/utils/redis_operations.py:291-322 | a symbol is in the merge exactly when some value had it, and with the last such value |
| RedisPortfolios.LockedOut | pytradekit/utils/redis_operations.py:35-41 | while the lock is held nobody takes it, a client that has lost its own does not release it, and a failure before SET releases it and changes nothing else |
| RedisPortfolios.LostUpdateExact | pytradekit/utils/redis_operations.py:35-41 | when the lock runs out between GET and SET and any number of whole sections of other clients go through, the stored object is the merge promised if and only if every symbol they set, and the late write does not, had its value before |
| RedisPortfolios.OverlapExact | pytradekit/utils/redis_operations.py:35-41 | when another client gets the same object in that gap and sets last, the same with the roles exchanged |
| RedisPortfolios.OutOfOrderExact | pytradekit/utils/redis_operations.py:35-41 | when it runs out between SET and PUBLISH, a subscriber ends with the stored object if and only if the late delta and the others agree on every symbol they share |
| RedisPortfolios.ResurrectedExact | pytradekit/utils/redis_operations.py:291-322 | after an expiry or an overwriting between GET and SET old entries come back unless the new value covers them all |
| RedisPortfolios.LateDeltaExact | pytradekit/utils/redis_operations.py:291-322 | after one between SET and PUBLISH the key is empty and a subscriber has the delta, so they agree if and only if it is empty |
| RedisPortfolios.LostDeltaExact | pytradekit/utils/redis_operations.py:291-322 | a failure between SET and PUBLISH leaves subscribers behind unless they had every value of the delta |
| RedisPortfolios.RedisOperations.SetPortfolios | pytradekit/utils/redis_operations.py:291-322 | one call stores the merge with what was there and publishes the value alone |
| RedisPortfolios.RedisOperations.SetAll | pytradekit/utils/redis_operations.py:291-322 | a series of calls accumulates all values |
| RedisDrains.DrainsAreExact | pytradekit/utils/redis_operations.py:106-152 | under any interleaving with the lock held, any exceptions and expiries, the key holds what was added and neither returned nor lost nor in a drain's hands; each drain takes all of it, each member once, trades in score order |
| RedisDrains.Conservation | pytradekit/utils/redis_operations.py:106-152 | what was added and not returned since is, without overlap, the key, what a drain has in its hands, and what an exception or an expiry has lost |
| RedisDrains.LostDrainExact | pytradekit/utils/redis_operations.py:117-152 | an exception between a drain's removal and its return loses exactly the members it had read, and is harmless if and only if there were none |
| RedisDrains.DeliveredByExactlyOneDrain | pytradekit/utils/redis_operations.py:106-152 | a member is in the data of the first drain or expiry after it was added and of no later one unless added again, so exactly one drain returns it unless an exception or an expiry loses it |
| RedisDrains.AddedDuringDrain | pytradekit/utils/redis_operations.py:117-152 | with the lock lost between read and removal, a member added in between survives in the sorted set and is lost in the order set |
| RedisDrains.AddSteps | pytradekit/utils/redis_operations.py:106-139 | for any client an undisturbed add puts the member under the key with its score and frees lock and client |
| RedisDrains.DrainSteps | pytradekit/utils/redis_operations.py:117-152 | for any client an undisturbed drain empties the key, frees lock and client, and its data is what is returned |
| RedisDrains.LockedOut | pytradekit/utils/redis_operations.py:35-41 | while the lock is held no section begins, a client that has lost its own does not release it, and a failure before the removal releases it and changes nothing else |
| RedisDrains.RedisOperations.SetOrders | pytradekit/utils/redis_operations.py:106-115 | one call is the machine's locked section of one add, and keeps the invariant that the key is the ledger's balance |
| RedisDrains.RedisOperations.GetOrdersAndDelete | pytradekit/utils/redis_operations.py:117-127 | one call is the machine's drain and returns everything added and not returned before, each member once |
| RedisDrains.RedisOperations.SetPublishTrades | pytradekit/utils/redis_operations.py:129-139 | one call is the machine's locked section of one add, and publishes the trade once |
| RedisDrains.RedisOperations.GetTrades | pytradekit/utils/redis_operations.py:141-152 | one call is the machine's drain and returns everything added and not returned before, each trade once, by score |
| WsApiSession.SubscribesAfterLogon | pytradekit/ws/binance_ws_api.py:134-150 | a subscription is sent only after the same connection's logon was acknowledged |
| WsApiSession.PendingIsUnanswered | pytradekit/ws/binance_ws_api.py:97-150 | the pending map is exactly the requests without an answer; subscribed implies logged on |
| WsApiSession.BackoffDoubles | pytradekit/ws/binance_ws_api.py:188-205 | the n-th sleep since the last logon, counted from zero, lasts min(2^n, 60) seconds |
| WsApiSession.EveryEventCounted | pytradekit/ws/binance_ws_api.py:163-174 | the counters are the multiset of dispatched events, and the queue holds them all in order exactly in a session started live |
| WsApiTrace.EveryDeliveryCounted | pytradekit/ws/binance_ws_api.py:163-174 | for every run, from what arrived and not from the session's log: the counters are the multiset of the events that came while the connection was open, in shadow mode as in live mode; the queue holds them all in order when live and nothing in shadow mode |
| WsApiTrace.LogIsTheTrace | pytradekit/ws/binance_ws_api.py:97-205 | over all disciplined runs the whole log is determined by what happened: a logon on every opened connection, a subscription after each acknowledged logon and only then, every answer, event and report of a close, and each wait with its length |
| WsApiSession.HealthyMeansAcknowledged | pytradekit/ws/binance_ws_api.py:179-225 | a session that reports health has an open connection whose logon and subscription were acknowledged |
| WsApiSession.HealthExact | pytradekit/ws/binance_ws_api.py:134-225 | over all runs health is reported if and only if a logon and a subscription were acknowledged since the close callback last ran |
| WsApiSession.StaleHealthExact | pytradekit/ws/binance_ws_api.py:179-225 | over all runs, when `run_forever` returns the report outlives the connection, into the next one, if and only if the close callback has not run and both acknowledgements had come |
| WsApiSession.StaleHealthExample | pytradekit/ws/binance_ws_api.py:179-225 | an instance of five steps |
| WsApiSession.BinanceWsApiUserData.OnAck | pytradekit/ws/binance_ws_api.py:134-150 | the handler changes the fields as the machine's step and closes exactly on a rejection |
| WsApiSession.BinanceWsApiUserData.SendRequest | pytradekit/ws/binance_ws_api.py:97-107 | a request becomes pending under its id |
| WsApiSession.BinanceWsApiUserData.OnOpen | pytradekit/ws/binance_ws_api.py:109-119 | opening sends the logon, as the machine's step |
| WsApiSession.BinanceWsApiUserData.OnEvent | pytradekit/ws/binance_ws_api.py:163-174 | an event adds one to the count of its kind and to no other, in shadow mode too, and joins the queue's end exactly when live, as the machine's step |
| WsApiSession.BinanceWsApiUserData.OnClose | pytradekit/ws/binance_ws_api.py:179-184 | both flags are cleared, as the machine's step |
| WsApiSession.BinanceWsApiUserData.Reconnect | pytradekit/ws/binance_ws_api.py:188-205 | the wait and its doubling, as the machine's step |
| Calendar.MinusDaysOrdinal | pytradekit/utils/time_handler.py:375-378 | stepping back day by day through months, years and leap days lowers Python's ordinal by exactly the number of days |
| Calendar.OrdinalInjective | pytradekit/utils/time_handler.py:372-411 | an ordinal names one date |
| Calendar.KnownDays | pytradekit/utils/time_handler.py:372-411 | the ordinals and weekdays start where Python's do: 1 January of year 1 is day 1, a Monday, and that of 1970 is day 719163, a Thursday |
| Calendar.MonthLengths | pytradekit/utils/time_handler.py:384-411 | the months have their Gregorian lengths |
| Calendar.FourCenturiesLater | pytradekit/utils/time_handler.py:372-411 | the calendar repeats after 400 years, 146097 days and whole weeks |
| Calendar.WeekIsWhole | pytradekit/utils/time_handler.py:372-381 | for every moment: Monday 0:00 to Sunday, ending one millisecond before this week's Monday 0:00; none exactly in the first week |
| Calendar.MonthIsWhole | pytradekit/utils/time_handler.py:384-393 | for every moment: the whole month before from day 1 0:00, ending one millisecond before this month; none exactly in January of year 1 |
| Calendar.QuarterIsWhole | pytradekit/utils/time_handler.py:396-411 | for every moment: three whole months from day 1 0:00 of month 1, 4, 7 or 10, ending one millisecond before this quarter |
| Schedule.FloorCommutes | pytradekit/utils/time_handler.py:127-138 | flooring to a unit commutes with going back whole units |
| Schedule.GetRoundedTimeInterval | pytradekit/utils/time_handler.py:110-148 | the interval ends at the last boundary and is exactly the given number of units long; an error exactly without arguments |
| Schedule.GetTimeSpanByHour | pytradekit/utils/time_handler.py:507-521 | the span is the inclusive run of hour stamps the firing covers, ending in the hour of the second clock reading; none exactly when the hour of the first is not listed |
| Schedule.CoversMeaning | pytradekit/utils/time_handler.py:507-521 | a stamp is covered exactly when it lies between that span's start and end |
| Schedule.GetMsTimeSpanByHour | pytradekit/utils/time_handler.py:524-535 | the overwritten span runs from the given number of hours before the floored current hour to one millisecond before that hour; an error exactly for a list of hours |
| Schedule.SpansPartitionExact | pytradekit/utils/time_handler.py:507-521 | the spans of all firings cover every hour stamp of every day exactly once if and only if the ascending list has two distinct hours, or the step divides 24 |
| Schedule.MsSpansAbutExact | pytradekit/utils/time_handler.py:524-535 | consecutive millisecond spans leave exactly one millisecond between them if and only if the step divides 24 |
| OrderBook.HandlePcsExact | pytradekit/utils/number_tools.py:146-157 | a multiple of the unit, less than a unit away and toward zero; not above the value if and only if that is not negative or already a multiple |
| OrderBook.VolumeExact | pytradekit/utils/custom_types.py:193-198 | the volume is the tick multiple next to the raw volume plus the drawn number of ticks, on its side of zero; at most that sum if and only if the sum is not negative or already a multiple |
| OrderBook.TradingOrder.PostInit | pytradekit/utils/custom_types.py:182-198 | exactly when each of the three errors is raised, and what has been set by then; otherwise volume and price as specified |
| OrderBook.BestPricesExact | pytradekit/utils/indicator_algorithm.py:29-40 | for every non-crossed positive book the best prices are one tick apart around the median of the two, the bid being the best bid for a spread below two ticks and else the tick multiple at or below the median; they are inside the book if and only if the spread is at least a tick |
| OrderBook.MiddleBranchIsDead | pytradekit/utils/indicator_algorithm.py:34-36 | the branch for a narrow upper half is never taken |
| OrderBook.SumLevels | pytradekit/utils/indicator_algorithm.py:107-116 | the summing loop totals the levels inside the bound |
| OrderBook.SumAdds | pytradekit/utils/indicator_algorithm.py:107-116 | the totals of two parts of a side add up to those of the whole |
| OrderBook.KeptLevelByLevel | pytradekit/utils/indicator_algorithm.py:107-116 | each level counts for itself: a bid at or above the bound, an ask at or below it |
| OrderBook.KeptIsPrefix | pytradekit/utils/indicator_algorithm.py:107-116 | on a book sorted best first these are the longest prefix inside the bound |
| OrderBook.TotalsWithinBounds | pytradekit/utils/indicator_algorithm.py:107-116 | the amount lies between the volume at the bound and the volume at the best price, on both sides |
| OrderBook.DepthIsMonotone | pytradekit/utils/indicator_algorithm.py:43-57 | totals within the percentage bounds never shrink as the percentage grows |
| OrderBook.DepthOfIsMonotone | pytradekit/utils/indicator_algorithm.py:92-125 | neither do those of `compute_depth`, through the switch from best prices to the percentage, on every non-crossed positive book |
| OrderBook.ReportIsMonotone | pytradekit/utils/indicator_algorithm.py:92-133 | nor the truncated depths it reports, for every quote price that is not negative |
| OrderBook.BestLevelCountedExact | pytradekit/utils/indicator_algorithm.py:43-57 | the best levels are counted if and only if the spread is at most twice the percentage |
| OrderBook.ComputeDepth | pytradekit/utils/indicator_algorithm.py:92-133 | an error exactly for an empty side, a zero median, a zero tick where it divides, or no quote price; for every non-crossed positive book the report describes it as `ReportDescribes` states |
| OrderBook.ReportDescribes | pytradekit/utils/indicator_algorithm.py:92-133 | in every branch: spread and tick are percentages of the median to the nearest hundredth, the bounds lie the percentage or the ticks of the branch around it, and each depth is the whole part of the quote price times the total of the longest prefix of that side inside the bound, or of the best level, or zero |
| OrderBook.OneTickBookIsSeen | pytradekit/utils/indicator_algorithm.py:92-125 | a book with a one-tick spread shows its best levels in every branch |
| InstCodes.MatchExact | pytradekit/utils/custom_types.py:30-34 | the pattern finds exactly the groups the text starts with, in at most one way |
| InstCodes.PrintParseExact | pytradekit/utils/custom_types.py:25-44 | printing then parsing is the identity if and only if the code is canonical |
| InstCodes.PrintedParts | pytradekit/utils/custom_types.py:25-26 | a printed code is the pair, the exchange and the category around the first underscore and the first dot after it |
| InstCodes.ParsedIsCanonical | pytradekit/utils/custom_types.py:28-44 | whatever the parser returns is canonical |
| InstCodes.OldFormExact | pytradekit/utils/custom_types.py:36-39 | a code without a hyphen is read as base and quote if and only if it does not read as a BUSD pair |
| InstCodes.SymbolRoundTripExact | pytradekit/trading_setup/inst_code_usage.py:287-329 | the hyphen-free symbol gives back base and quote for every listed quote, if and only if it is not a USD quote after a base of two or more characters ending in B |
| InstCodes.UpperExact | pytradekit/trading_setup/inst_code_usage.py:283-317 | upper-casing moves a to z onto A to Z and leaves every other character |
| InstCodes.PairOfPrintedCode | pytradekit/trading_setup/inst_code_usage.py:252-266 | the pair is recovered from a printed code |
| InstCodes.FrameRoundTripExact | pytradekit/utils/custom_types.py:88-109 | a kline frame is read back if and only if its number is not negative |
| InstCodes.FrameParseExact | pytradekit/utils/custom_types.py:100-109 | a text reads as a frame exactly if it begins with digits of the number's value and then the unit's letter |
| InstCodes.SplitRoundTripExact | pytradekit/utils/tools.py:381-393 | code, underscore and frame are split and read back if and only if the code is canonical and the number not negative |
| Commas.CommaConversion | pytradekit/utils/number_tools.py:84-98 | the loop writes the sign, if the truncated value is negative, and the grouped numeral of its size |
| Commas.GroupedExact | pytradekit/utils/number_tools.py:84-98 | that is the one text with a comma exactly before every three digits from the right, never first or last, whose digits are the numeral |
| Commas.GroupedReadsBack | pytradekit/utils/number_tools.py:84-98 | deleting the commas and reading the digits gives back the value |

## Left out

- RecoverySafety.OneAttemptAtATime: assumes the three scheduling conditions above, each of which is needed. Clocks and thread fairness are not modelled, so liveness is stated as enabled steps and existing continuations.
- RecoverySends.IdsAreNeverReused: takes reading and incrementing the counter as one step; `IdStamp.IdsAreDistinctExact` says what happens otherwise, for the counter alone.
- RecoveryLogins.SubscribesAfterAuthExact: a private manager's user threads log in and send other messages; its only subscription is the callback's, as in huobi_ws.py lines 82-86 and 126-155.
- WsManager.BaseWebsocketManager.ReconnectStreams: a call from start to end without other threads, as are `Close`, `SendJson` and `StartStream`; interleavings are the machine's, in `RecoveryReplay`.
- BackfillCoverage.CompleteExact: the pager with failing requests, where completeness is stated through the walk's stop and not on the history; the conditions on the history are for requests that succeed, assume it sorted by time and, for one symbol, distinct by id and side.
- BackfillGroups.PageBoundaryExact: a last timestamp at a span end is not wanted, and then nothing can be lost (`OnlyTheLastTimestampIsLost`).
- FixFraming.CutExact: the harmful direction needs proper trailers, as does that of `FixChunks.ChunkingExact`, as `ImproperTrailerExample` shows.
- FixSession.FixClient.SendMessage: assumes that a write either reaches the socket whole or raises; partial writes and concurrent senders are not modelled, so sequence numbers are consecutive for sequential sends.
- RedisPortfolios.LostUpdateExact: whole sections of others in between; `OverlapExact` is the one overlap of two sections, and three or more that overlap line by line are not covered.
- RedisDrains.DrainsAreExact: an expiry between a drain's read and its removal, which takes what the drain is about to return, is excluded; trades with equal scores come in any order; Redis orders them by their bytes.
- Schedule.GetTimeSpanByHour: the text of the cron entry is taken as parsed, and the tiling theorems take one clock reading per firing; unsorted hour lists are not covered by those.
- OrderBook.ComputeDepth: exact reals in place of floats and of Decimal's context precision; the quote coin's price is an argument.
- OrderBook.TradingOrder.PostInit: leaves out the random client order id set last.
- InstCodes.FrameFromString: `\d` is taken as the ASCII digits, and upper-casing as that of ASCII letters.
- Commas.CommaConversion: a real in place of a float, without the infinities and NaN, which raise.
- Calendar.LastCompleteWeek: dates as year, month and day rather than the formatted strings; the year has no upper bound.
- `handle_message` of the FIX client, its login, signing and orders.
- Signing, TLS, JSON, gzip, listen keys and the REST clients, except the page semantics of `get_trade`.
- The public Huobi stream, `BinanceWsManager._reconnect_with_new_url` and the other exchange subclasses, which bypass or repeat the base machine.
- The other Redis keys: single commands without a protocol. Stored values are values, not their JSON text.
- MongoDB, pandas, configuration, logging, notifiers, enum tables and fee tables.
- `reshape_report_number` and `letter_conversion`: float formatting.
