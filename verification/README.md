# Verified models of the remote-command system

The system is a PostgreSQL command queue with an HTTP server in front of it, runners that hold an
event stream open to the server, and a log path back. This project models its four cores in Dafny
and proves what they keep over all inputs, all runs and all interleavings.

`dafny verify dfyconfig.toml` checks everything.

| file | what it models |
|---|---|
| `Common` | optional values, concatenation, subsequences, sums over tables |
| `Hub` | the SSE hub: lists of bounded channels per runner (classes with ghost history) |
| `ClientLoop` | the runner's event loop interleaved with completion goroutines, and the executor class that takes those steps |
| `Lane` | one runner's path: hub buffers, wire, client, reports, and `active_count`, one atomic step at a time |
| `Rows`, `Store` | rows of the tables, the statements as functions, and the store whose methods are those statements |
| `Dispatch`, `DispatchTheorems` | the whole protocol as one state machine, its invariant, and what follows for every run |
| `Claiming` | concurrent `ClaimNextCommand` calls cut into visit, lock and commit |
| `Handlers` | the server's handlers as sequential code, draining a queue, and how the handlers add up from lane moves |
| `Reaper` | the reaper's pass and the life of a runner row |
| `LineReassembly` | the pipe reader and its line splitting |
| `SeqNumbering` | the per-command sequence counter of the runner |
| `Shipper` | the log buffer as a machine, and the class over a reused backing array that takes its steps |
| `LogPipeline` | flushes, arrival order, the log table and its pages |
| `WatchLogs` | the SDK's polling log follower |
| `LogChannel` | one execution's log channel: two pipe readers, streamLogs, the shipper, dispatches and results interleaved |
| `Renumbering` | the event loop with lines and results beside it: when a running command is renumbered |
| `EndToEnd` | pipe reads to pages, and to a follower, over runs of all of the above |
| `SseCodec`, `SseTheorems` | the event printer, the two Go parsers, and the algorithm of section 9.2.6 "Interpreting an event stream" of the WHATWG HTML Standard |
| `Retention` | the retention worker over a set of logs |

## Main results

- **Dispatch accounting.** In every reachable state, for every runner, `active_count` plus the
  increments still to come or failed equals the copies under way plus the losses and the decrements
  that failed (`DispatchTheorems.CounterDriftIsLosses`, command by command `CreditsAreConserved`). With
  several streams per runner a Send makes surplus copies; with at most one there are none
  (`SoloAccounting`). The handlers do to the counters and buffers of all runners what the moves of one lane
  do (`Handlers.NotificationIsTwoMoves` and the three after it).
- **Bounded redispatch.** Summed over all runners, a command is dispatched once for its notification if
  that found a stream, and once for its claim: at most twice, and twice exactly if both happened
  (`RedispatchIsBounded`, `DispatchedTwiceIff`, `TwoCreditsHappen`). No status ever turns back and no
  claim is rewritten (`HistoryIsKept`); a row is what submission, claims, reports and kill requests make of it,
  and nothing else (`RowIsRecorded`).
- **Claiming.** However claims interleave and whatever is reported, a command is claimed at most once
  more than it was reported `queued`, by a runner it is meant for and before its deadline
  (`Claiming.ClaimsAreBounded`, `NoCommandIsClaimedTwice`), and a claim passes over an older row only if
  another claim held it or it had left the queue (`OldestFreeRowIsTaken`, `ScanGoesOn`).
- **Line reassembly.** The reader emits the lines of an effective stream in which every stale carry
  comes once more; it is right if and only if no read completes a line begun by an earlier read. The
  one-line repair does not depend on chunking (`LineReassembly`).
- **Sequence numbers.** For every history of a command they rise exactly if at most one stretch between
  dispatches and results has lines (`SeqNumbering.NumbersIncreaseIff`). A dispatch of
  a running command resets them if the client takes more than one command at a time, and only then
  (`Renumbering`).
- **Logs end to end.** The two readers, the channel they share, streamLogs, the shipper and the table are
  one machine. In every run of it that has finished without losing a batch, and in which at most one
  stretch has lines, the lines labelled stdout and info are what the reader of that pipe got into the channel,
  those labelled stderr and error what the other did, and there are no others; and if nothing was
  dropped they are the output itself exactly under the condition on reads above
  (`EndToEnd.DeliveredComesBack`, `OutputComesBackIff`). Up to 100 lines are never dropped
  (`FewLinesAreNotDropped`).
- **Log following.** Wherever rows are added between polls, and whether or not numbers repeat, the follower
  shows everything if and only if there are at most 100 rows, the first is numbered above 0, no number
  stands twice, and no poll found a row while a smaller one was missing (`WatchLogs.FollowerCompleteIff`).
- **Event stream.** From any byte prefix of a printed stream, a parser delivers exactly the events that
  lie completely inside it, never part of one (`SseTheorems.ParseOfPrefix`); round trip and agreement
  with the standard follow.
- **Retention.** After one run all policies hold at once, whatever their order, logs that no policy is about
  are left, and a second run at the same instants deletes nothing (`Retention.LogStore.Run`, `RunTwice`).
  Which logs survive does depend on the order, exactly when one policy deletes what the other would have
  kept (`Retention.OrderIsIrrelevantIff`).

## Assumptions

- A statement on the tables is one atomic step, except claiming, which `Claiming` cuts further. Locking
  a row and checking its newest version again is one step (`FOR UPDATE SKIP LOCKED` in read committed).
- A notification reaches the listener at most once. There is one server process and at most one client
  process per slug (it may be restarted at any time, and then loses what it held).
- Clocks, tickers and timeouts are steps that may happen at any time; statements take the time as a
  parameter. A statement takes effect and is seen to, or does neither. Reports, writes, notifications and
  batches may fail, and so may every statement on a counter: the flush runs on the context of its
  stream, and a report on that of its request, which may be cancelled between two statements.
- Encoded event data is non-empty, has no newline, and neither begins nor ends with white space;
  whether data can be decoded is the parameter `decodes`.
- The pipe readers finish before the waiter closes the log channel.

## Where the documentation says otherwise

The model follows the code in each case.

- README.md:279-281 says that the reaper fails commands past their deadline and those of unavailable
  runners. Its statements look at `pending` and `running` rows, which nothing writes, so it changes no
  command in any reachable state (`DispatchTheorems.ReaperIsIdle`); a queued command past its deadline
  stays queued for ever unless a report for it arrives (`ExpiredInTheQueueStays`).
- README.md:280 says that runners offline for more than five minutes are detected. A runner is offline
  only after it deregistered; one that falls silent stays online (`Reaper.SilentRunnerStaysOnline`), and
  a runner is orphaned at most once in its whole history (`OrphanedAtMostOnce`).
- client/README.md:8 promises output line by line. A line begun by one read and completed by another
  that ends in a newline is emitted, and then its first part once more
  (`LineReassembly.ShippedReaderRepeatsACarry`).
- client/README.md:96 says that sequence numbers order the lines. They begin again at 0 when the result is
  handled, and with every dispatch of the command that gets past the checks of capacity and payload, also
  while it is running (`SeqNumbering.NumbersIncreaseIff`, `Renumbering.RunningIsRenumbered`).
- sdk/README.md:80 offers log watching with sequence deduplication. The follower polls the first page
  only, never shows number 0, with which every execution begins, shows one row for each number, and never
  shows a row that is stored after a larger one has been seen (`WatchLogs.FollowerCompleteIff`,
  `EndToEnd.FollowerMissesFirstLines`).
- A page size above 1000 is answered with pages of 100, so that a caller who counts pages by the size it
  asks for misses lines (`LogPipeline.PagesGiveBackIff`).
- test-e2e.sh:73 sends to a target of type `runner`. Such a command is announced but can never be claimed
  (`DispatchTheorems.RunnerTargetIsNeverClaimed`).
- The payload `slug:id` of a notification comes apart as it was put together exactly if the slug has no
  colon (`Handlers.PayloadRoundTripIff`); registration accepts any non-empty slug.

## Model

| member | source | states |
|---|---|---|
| `LineReassembly.SplitLines` | client/internal/runner/executor.go:252-269 | the loop returns the terminated lines and then, if any, the unterminated rest |
| `LineReassembly.LinesJoin` | client/internal/runner/executor.go:252-269 | lines and rest, joined by newlines again, are the data, and contain no newline |
| `LineReassembly.LinesUnique` | client/internal/runner/executor.go:252-269 | there is no other way to cut data at its newlines |
| `LineReassembly.DeliverRead` | client/internal/runner/executor.go:201-227 | one read offers exactly the non-empty complete lines of carry and data, drops those that find the channel full, and leaves the carry unchanged if the data ends in a newline |
| `LineReassembly.StreamOutput` | client/internal/runner/executor.go:193-249 | for any reads and any fullness of the channel: what is delivered is the admitted part of the lines, then the remaining carry |
| `LineReassembly.AdmittedSubsequence` | client/internal/runner/executor.go:213-225 | dropping keeps the order, and with room throughout nothing is dropped |
| `LineReassembly.DeliveredSubsequence` | client/internal/runner/executor.go:193-249 | a full channel only removes lines from what the reader emits |
| `LineReassembly.ShippedReaderFollowsEffective` | client/internal/runner/executor.go:202-211 | for every chunking the reader emits the pieces of the stream in which each stale carry is repeated |
| `LineReassembly.ShippedReaderExtraBytes` | client/internal/runner/executor.go:202-211 | the bytes emitted are the stream's own plus exactly the lengths of the stale carries |
| `LineReassembly.StaleBytesIff` | client/internal/runner/executor.go:202-211 | no byte is stale if and only if no read completes a line begun by an earlier one |
| `LineReassembly.ShippedReaderCorrectIff` | client/internal/runner/executor.go:193-249 | the lines are the pieces of the whole stream if and only if no read completes a line begun by an earlier one |
| `LineReassembly.ShippedReaderRepeatsACarry` | client/internal/runner/executor.go:207-210 | two reads for which part of a line comes out twice |
| `LineReassembly.RepairedReaderFollowsStream` | client/internal/runner/executor.go:202-211 | with the carry cleared by a read that ends in a newline, the lines are always the pieces of the stream |
| `LineReassembly.RepairedReaderIgnoresChunking` | client/internal/runner/executor.go:202-211 | the repaired reader emits the same for all chunkings of the same bytes |
| `SseCodec.ReadEvents` | client/internal/runner/sse.go:126-174 | the loop computes the fold of its line step, up to the first line at which the context is cancelled or a reconnect asked for |
| `SseCodec.StreamSSE` | sdk/go/client.go:284-311 | the loop computes the fold of its line step, up to the first delivery at which the context is cancelled |
| `SseTheorems.LinesOfEvent` | server/internal/api/sse/hub.go:81-88 | a printed event is read as its two field lines and a blank line, whatever follows it |
| `SseTheorems.PrintedEvent` | server/internal/api/sse/hub.go:81-88 | the bytes written for an event: the text "event: ", the name, a newline, the text "data: ", the data and two newlines |
| `SseTheorems.SpacesOfUnicode` | client/internal/runner/sse.go:142-145 | at either end of text in UTF-8 exactly the white space of Unicode is trimmed |
| `SseTheorems.TrimLeaves` | client/internal/runner/sse.go:142-145 | what is left is a stretch of the argument with no white space at either end |
| `SseTheorems.CarriageReturnIsDropped` | client/internal/runner/sse.go:127-131 | a line that ends in CR LF is read without either |
| `SseTheorems.CommentIsIgnored` | sdk/go/client.go:291-308 | a line that begins with a colon changes nothing in any of the three parsers |
| `SseTheorems.EventSteps` | server/internal/api/sse/hub.go:87 | the lines of an event take each parser from a clear state to a clear state and deliver the event if it is accepted |
| `SseTheorems.CutEvent` | client/internal/runner/sse.go:146-166 | wherever a printed event is cut, what arrived contains no blank line |
| `SseTheorems.ParseOfPrefix` | client/internal/runner/sse.go:126-174 | truncation safety: from any prefix of a printed stream exactly the accepted events that lie completely inside it, up to the first line too long for the scanner |
| `SseTheorems.InterruptedPrefix` | client/internal/runner/sse.go:131-160 | a reader that gives up at any line has delivered a beginning of those events, and whole ones only |
| `SseTheorems.RoundTrip` | server/internal/api/sse/hub.go:81-88 | printing and parsing gives back the accepted events, for all three parsers |
| `SseTheorems.SdkRoundTripIff` | sdk/go/client.go:284-311 | the SDK gets all events back if and only if no event line and no data line is longer than 65535 bytes |
| `SseTheorems.ParsersAgree` | sdk/go/client.go:291-308 | at every cut of every printed stream the SDK delivers what the standard's algorithm delivers, the runner the command_dispatch events among them |
| `SseTheorems.SdkKeepsAnUnfinishedName` | sdk/go/client.go:295-307 | a stream outside FormatSSE's range on which clearing only after delivery makes a difference |
| `Hub.OfferAllAt` | server/internal/api/sse/hub.go:69-75 | a Send offers the event to each channel on its own: appended if it holds fewer than 10 |
| `Hub.WithoutAt` | server/internal/api/sse/hub.go:41-48 | removal in place takes out the first occurrence and keeps the order of the others |
| `Hub.AppendMember` | server/internal/api/sse/hub.go:30-31 | a registered channel stands at one place, next to all that were there |
| `Hub.RemoveMember` | server/internal/api/sse/hub.go:41-48 | a removed channel is at no place any more, and the others still at one |
| `Hub.Channel.TrySend` | server/internal/api/sse/hub.go:70-74 | a non-blocking send: appended or dropped, never beyond 10, and only to an open channel |
| `Hub.Channel.Receive` | server/internal/api/sse/handler.go:69 | the oldest event is taken; received and buffered stay a subsequence of what was offered, equal if the buffer was never full |
| `Hub.Channel.Close` | server/internal/api/sse/hub.go:44 | closing touches neither buffer nor history |
| `Hub.Hub.constructor` | server/internal/api/sse/hub.go:20-24 | the empty hub satisfies the invariant |
| `Hub.Hub.Register` | server/internal/api/sse/hub.go:26-35 | a fresh open channel at the end of the runner's list; distinctness, openness and non-empty lists are kept |
| `Hub.Hub.Unregister` | server/internal/api/sse/hub.go:37-55 | closes and removes that channel only, keeps the order of the others, drops an empty list |
| `Hub.Hub.Send` | server/internal/api/sse/hub.go:59-79 | every channel of the runner is offered the event and no channel of another runner is; true exactly if there is one, even if all were full |
| `ClientLoop.NextKeepsInv` | client/internal/runner/lifecycle.go:142-191 | each critical section keeps entries and live executions paired and the checks valid until the insertion |
| `ClientLoop.CompletionRemovesItsOwnEntry` | client/internal/runner/executor.go:123-127 | deleting by command id removes the entry of that very execution |
| `ClientLoop.ConcurrencyIsBounded` | client/internal/runner/lifecycle.go:147-184 | in every run: at most the maximum of entries and of live executions, no command twice, no duplicate between check and insertion |
| `ClientLoop.Executor.Admit` | client/internal/runner/lifecycle.go:147-154 | the capacity check refines the model's step |
| `ClientLoop.Executor.Prepare` | client/internal/runner/lifecycle.go:156-169 | the payload check and, if it is passed, the reset of the counter refine the model's steps |
| `ClientLoop.Executor.CheckDuplicate` | client/internal/runner/executor.go:54-59 | the duplicate check refines the model's step |
| `ClientLoop.Executor.InsertEntry` | client/internal/runner/executor.go:90-92 | the insertion overwrites no entry |
| `ClientLoop.Executor.FinishStart` | client/internal/runner/executor.go:95-123 | a failed start takes its entry back |
| `ClientLoop.Executor.Finish` | client/internal/runner/executor.go:123-127 | a completion removes its own entry and no other |
| `Lane.OfferedCopies` | server/internal/api/sse/hub.go:69-75 | copies buffered by a Send plus those that found no room are one per stream |
| `Lane.HeldStep` | client/internal/runner/lifecycle.go:142-191 | the client loses exactly the copies it refuses or completes |
| `Lane.MoveKeepsBalance` | server/internal/api/sse/handler.go:94-124 | no step creates or destroys a copy unaccounted for, for one command and in total |
| `Lane.MoveKeepsCount` | server/internal/api/handlers/runners.go:307-319 | the counter is the credits counted less the reports deducted, although Send and increment, update and decrement are separate steps and each statement on the counter may fail |
| `Lane.MoveKeepsLaneInv` | server/cmd/server/main.go:223-226 | every step keeps balance, counter, buffer bounds and the client's invariant |
| `Lane.CounterAccounts` | server/internal/api/handlers/runners.go:307-319 | counter, outstanding and failed increments and surplus balance copies under way, losses and failed decrements; at rest this is the drift |
| `Lane.CopyGoesThrough` | client/internal/runner/lifecycle.go:142-212 | an event at the head of a channel can be written, read, executed, reported and deducted, after which the lane is as before but for the settled report and a counter one less |
| `Rows.OldestExists` | server/internal/store/postgres/store.go:229-230 | among eligible rows there is an oldest, so a claim finds one whenever one is eligible |
| `Store.Store.UpsertRunner` | server/internal/store/postgres/store.go:51-75 | a new online runner with a counter of 0; a known one keeps its counter, creation time and time of orphaning |
| `Store.Store.ListRunners` | server/internal/store/postgres/store.go:100-144 | the online runners with the tag, each exactly once, the most recently created first |
| `Store.Store.UpdateRunnerHeartbeat` | server/internal/store/postgres/store.go:146-164 | last_seen becomes the present instant, the status online, and nothing else changes; or an unknown runner is reported |
| `Store.Store.UpdateRunnerStatus` | server/internal/store/postgres/store.go:166-184 | the status and nothing else, or an unknown runner |
| `Store.Store.IncrementRunnerActiveCount` | server/internal/store/postgres/store.go:581-598 | the counter of that runner moves by delta; its other columns and all other runners stay; no lower bound |
| `Store.Store.InsertCommand` | server/internal/store/postgres/store.go:186-216 | a queued row under an unused id, with the given target, deadline and time of creation and all other columns absent |
| `Store.Store.ClaimNextCommand` | server/internal/store/postgres/store.go:218-267 | the row returned is queued, is meant for the slug or one of the tags, has no deadline or one after now, and is an oldest such row; it gets status, runner and time, every other row stays; none is returned only if the deadline of every queued command for the runner has passed |
| `Store.Store.UpdateCommandStatus` | server/internal/store/postgres/store.go:269-293 | status, exit code, message and times of that row are overwritten whatever its status was; absent values keep the old ones, other rows stay |
| `Store.Store.SetCommandKillRequested` | server/internal/store/postgres/store.go:327-344 | only claimed and running commands; the status stays |
| `Store.Store.FailExpiredCommands` | server/internal/store/postgres/store.go:601-618 | fails exactly the pending and running commands whose deadline lies before now, with message and time, and counts them |
| `Store.Store.MarkOrphanedRunners` | server/internal/store/postgres/store.go:621-638 | orphans exactly the offline runners last seen before the cutoff that never were orphaned, with the time, and counts them |
| `Store.Store.FailStuckCommands` | server/internal/store/postgres/store.go:641-659 | fails exactly the running commands of offline or orphaned runners, with message and time, and counts them |
| `Dispatch.NextKeepsNotices` | server/internal/api/handlers/commands.go:71-94 | a command is announced at most once, whatever is lost |
| `Dispatch.NextKeepsLanes` | server/internal/api/sse/handler.go:94-124 | every lane keeps its invariant |
| `Dispatch.NextKeepsCredits` | server/cmd/server/main.go:208-231 | for every command the credits of all lanes together are exactly its deliveries on open streams and its claims |
| `Dispatch.NextKeepsInv` | server/cmd/server/main.go:192-231 | every atomic step of the protocol keeps the invariant |
| `DispatchTheorems.CounterDriftIsLosses` | server/internal/store/postgres/store.go:581-598 | in every reachable state counter, outstanding and failed increments and surplus copies balance copies under way, losses and failed decrements |
| `DispatchTheorems.CreditsAreConserved` | server/internal/api/sse/handler.go:103-124 | the same for a single command: every credit is one copy in exactly one place |
| `DispatchTheorems.SoloAccounting` | server/internal/api/sse/hub.go:59-79 | with at most one stream per runner there is no surplus, and a command has over all runners as many copies as dispatches, at most two |
| `DispatchTheorems.RedispatchIsBounded` | server/internal/api/sse/handler.go:103-124 | over all runners a command is dispatched once for its notification and once for its claim, at most, and not otherwise |
| `DispatchTheorems.NoticedIffFound` | server/cmd/server/main.go:223-226 | the notification counts exactly if at some step it was delivered while the runner had an open stream |
| `DispatchTheorems.DispatchedTwiceIff` | server/cmd/server/main.go:208-231 | a command is dispatched twice exactly if its notification found a stream and it has been claimed, never exactly if neither happened |
| `DispatchTheorems.StatusColumnsAgree` | server/internal/store/postgres/store.go:269-293 | reachable rows are queued, claimed or finished, finished_at is set exactly in the last case, started_at never |
| `DispatchTheorems.RowIsRecorded` | server/internal/store/postgres/store.go:186-344 | in every run each column of a row, with the instants in it, is what the submission, the claims, the reports and the kill requests for that command make of it |
| `DispatchTheorems.ClaimsAreInTime` | server/internal/store/postgres/store.go:222-236 | in every reachable state a claimed command was claimed before its deadline, by the runner it names or one registered with its tag |
| `DispatchTheorems.EachStreamClaimsOnce` | server/internal/api/sse/handler.go:53-59 | in every run a runner has claimed at most as many commands as it has opened streams; the difference is the goroutines that have not tried yet |
| `DispatchTheorems.BoardIsKept` | server/internal/api/handlers/commands.go:71-94 | in every run a command waits for its announcement from submission to announcement, and a notification is under way from announcement to delivery or loss |
| `DispatchTheorems.NextFollows` | server/internal/store/postgres/store.go:269-293 | no step turns a status back, rewrites a claim or erases a recorded outcome |
| `DispatchTheorems.HistoryIsKept` | server/internal/store/postgres/store.go:218-293 | the same from any point of any run to any later one; target, deadline and creation time never change |
| `DispatchTheorems.AddresseeMayClaimIff` | server/internal/api/handlers/commands.go:71-94 | announcing and claiming agree on whom a command is for, exactly but for the target type runner |
| `DispatchTheorems.RunnerTargetIsNeverClaimed` | server/internal/store/postgres/store.go:223-227 | a command with target type runner is never claimed |
| `DispatchTheorems.ReaperIsIdle` | server/internal/workers/reaper.go:53-57 | in every reachable state the reaper changes no command |
| `DispatchTheorems.ExpiredInTheQueueStays` | server/internal/store/postgres/store.go:228 | from any point of any run on, a queued command whose deadline is not after the clock stays queued as long as no report on it arrives |
| `DispatchTheorems.OutcomeIsExitCode` | sdk/go/client.go:166-178 | while all reports come from the SDK, a command is finished exactly if it has an exit code, successful exactly if that is 0, and never cancelled |
| `DispatchTheorems.BothRoutesCredit` | server/cmd/server/main.go:208-231 | delivering a notification leaves the row claimable, so the second route can dispatch the same command |
| `DispatchTheorems.TwoCreditsHappen` | server/internal/api/sse/handler.go:53-59 | a run with one runner and one stream in which one command is dispatched twice |
| `Claiming.NextKeepsInv` | server/internal/store/postgres/store.go:218-244 | visits, locks, commits, aborts, inserts and reports of any status keep locks exclusive and claims accounted for |
| `Claiming.ScanGoesOn` | server/internal/store/postgres/store.go:229-231 | a scan is never stuck: the oldest row not visited is locked exactly if it is still queued, meant for the runner, before its deadline, and held by nobody, and skipped otherwise |
| `Claiming.TransactionBegan` | server/internal/store/postgres/store.go:221-231 | every transaction began at a step of the run, read the clock there and never again, and visits exactly the rows it could claim at that moment |
| `Claiming.ClaimsAreBounded` | server/internal/store/postgres/store.go:218-293 | in every interleaving a command is claimed at most once more than it was reported queued in the run |
| `Claiming.NoCommandIsClaimedTwice` | server/internal/store/postgres/store.go:218-244 | committed claims are of different commands unless the command was reported queued; each is of a command for the slug or one of the tags, made before the deadline if there is one |
| `Claiming.ColumnsAreOfAClaim` | server/internal/store/postgres/store.go:233-238 | assigned_runner and claimed_at of a row are runner and instant of its last committed claim |
| `Claiming.OldestFreeRowIsTaken` | server/internal/store/postgres/store.go:229-231 | every older row of the snapshot was held by another claim, is not in the queue, or was put back into it |
| `Claiming.ColumnsChangeByCommit` | server/internal/store/postgres/store.go:233-238 | only the commit of the transaction that holds the row sets assigned_runner and claimed_at, both at once, and again only after a report queued |
| `Claiming.ClaimColumnsAreFinal` | server/internal/store/postgres/store.go:233-238 | from any point of any run to any later one, both stay once set unless the command was reported queued |
| `Claiming.ReclaimableIff` | server/internal/store/postgres/store.go:269-280 | a report makes a claimed row eligible again exactly if it carries the status queued |
| `Handlers.SplitNotificationPayload` | server/cmd/server/main.go:233-240 | two parts at the first colon, or the payload alone |
| `Handlers.PayloadRoundTripIff` | server/internal/store/postgres/store.go:570 | slug and id come apart as they were put together exactly if the slug has no colon |
| `Handlers.NotifiedCommand` | server/cmd/server/main.go:193-212 | the id is read from what follows the first colon; a payload without one, a bad id and an unknown command are given up |
| `Handlers.HandleNotification` | server/cmd/server/main.go:192-231 | sent exactly if the text after the colon is the id of a stored command and the slug before it has a stream; then the event is offered to the streams of that slug alone and its counter goes up by one, unless that fails; no other runner and no command changes |
| `Handlers.NotifyAndHandle` | server/internal/store/postgres/store.go:559-578 | what NotifyRunner announces for a slug without a colon is sent exactly if the id is that of a stored command and the slug has a stream |
| `Handlers.FlushQueuedCommands` | server/internal/api/sse/handler.go:94-131 | claims one oldest eligible command if there is any, counts one for that runner alone, and sends the event to its streams alone, even if nobody listens and even if the increment fails |
| `Handlers.ReportResult` | server/internal/api/handlers/runners.go:300-321 | status, finish time and what else is given are stored and, unless that fails, one is deducted from the counter of that runner alone; nothing happens for an unknown command |
| `Handlers.LeastBusy` | server/internal/api/handlers/commands.go:83-88 | the first of the runners with the smallest counter |
| `Handlers.ChooseRunner` | server/internal/api/handlers/commands.go:77-93 | a runner that is online and has the tag, with the smallest counter of these and the latest creation among equal ones; none exactly if there is none |
| `Handlers.SendCommand` | server/internal/api/handlers/commands.go:45-94 | one queued row with the given target, deadline and creation time, announced to at most one runner: the slug, or the runner chosen for the tag; refused without a target |
| `Handlers.ClaimOneMore` | server/internal/api/sse/handler.go:94-109 | one more connect extends the claimed prefix of the queue by its next command |
| `Handlers.DrainByConnects` | server/internal/api/sse/handler.go:59 | k connects claim exactly the k oldest eligible commands in creation order, or all of them, and count each for that runner and no other |
| `Handlers.FifoPrefixUnique` | server/internal/store/postgres/store.go:229 | with distinct creation times there is only one such sequence |
| `Handlers.NotificationIsTwoMoves` | server/cmd/server/main.go:223-226 | lanes that reflect counters and buffers of all runners reflect, after the moves Send and increment of one lane, what the handler leaves for all of them |
| `Handlers.FlushIsThreeMoves` | server/internal/api/sse/handler.go:103-124 | the same for the flush and the moves claim, increment and Send |
| `Handlers.ReportIsTwoMoves` | server/internal/api/handlers/runners.go:307-319 | the same for the report and the moves update and decrement |
| `Handlers.StreamIsOneMove` | server/internal/api/sse/handler.go:53-79 | the same for opening and closing a stream and for taking an event out of its channel |
| `Reaper.Run` | server/internal/workers/reaper.go:53-57 | the pass written out column by column: pending and running commands past their deadline, runners offline and unseen for 300 seconds, running commands of unavailable runners; nothing else changes |
| `Reaper.OrphansAreStillUnavailable` | server/internal/workers/reaper.go:53-57 | why the order of the last two statements does not matter |
| `Reaper.ExpiryClearsIff` | server/internal/store/postgres/store.go:601-610 | for any status set, none of it is left past its deadline exactly if the set lacks failed or nothing was overdue |
| `Reaper.StuckClearsIff` | server/internal/store/postgres/store.go:641-651 | the same for commands of unavailable runners |
| `Reaper.OrphaningIsExact` | server/internal/store/postgres/store.go:621-630 | after a pass exactly the orphanable runners and those already orphaned are orphaned, and nothing else about them changes |
| `Reaper.NextKeepsInv` | server/internal/store/postgres/store.go:621-630 | orphaned_at is set exactly if the runner has been orphaned, and then once |
| `Reaper.OrphanedAtMostOnce` | server/internal/store/postgres/store.go:621-630 | in its whole history a runner is orphaned at most once and then ignored by the reaper |
| `Reaper.OrphanedByPassIff` | server/internal/store/postgres/store.go:621-630 | in every run a pass orphans a runner exactly if the last heard of it is that it deregistered, it was last seen more than 300 seconds ago, and it never was orphaned |
| `Reaper.CounterIsSum` | server/internal/store/postgres/store.go:51-75 | in every run the counter of a runner is the sum of the increments since it first registered: registering again, heartbeats, deregistration and the reaper leave it alone |
| `Reaper.SilentRunnerStaysOnline` | server/internal/store/postgres/store.go:627 | a runner that never deregisters is online for ever and never orphaned |
| `LogPipeline.LogTable.GetLogs` | server/internal/store/postgres/store.go:376-418 | the entries of some order of the command's rows by number from place (page - 1) times size on, where a page below 1 counts as 1 and a size below 1 or above 1000 as 100 |
| `LogPipeline.OrderBySeq` | server/internal/store/postgres/store.go:390 | a permutation with rising numbers |
| `LogPipeline.SettledOrderUnique` | server/internal/store/postgres/store.go:390 | if equal numbers belong to equal rows only, there is one order |
| `LogPipeline.OrderDeterminedIff` | server/internal/store/postgres/store.go:390 | every answer is the given lines if and only if numbers rise and equal numbers belong to equal rows |
| `LogPipeline.PagesConcatenate` | server/internal/store/postgres/store.go:384-391 | pages 1 to n put together are the first n times size rows |
| `LogPipeline.NextKeepsAccounted` | client/internal/shipper/logs.go:44-103 | adds, flushes, arrivals and losses keep every entry accounted for |
| `LogPipeline.DrainedTableIsComplete` | client/internal/shipper/logs.go:85-103 | for every interleaving and arrival order the table holds exactly what was added |
| `LogPipeline.PagesGiveBackTheLines` | server/internal/store/postgres/store.go:376-418 | in every run, as many pages of GetLogs as the clamped size calls for are, put together, the added lines of the command in order |
| `LogPipeline.PagesGiveBackIff` | server/internal/store/postgres/store.go:380-384 | in every run, a caller who asks for n divided by its size, rounded up, pages is sure to get the lines if and only if they leave no choice of order and the size is at most 1000 or 100 lines are enough |
| `LogPipeline.EnoughPagesIff` | server/internal/store/postgres/store.go:380-384 | so many pages reach the last line exactly if the size is not replaced by 100 or one page is enough |
| `LogPipeline.OversizedPageLosesALine` | server/internal/store/postgres/store.go:380-382 | 101 lines and a size of 2000: the one page asked for holds 100 |
| `LogPipeline.ExecutionComesBackIff` | client/internal/runner/lifecycle.go:165-212 | for every history of dispatches, lines and results, and lines that can be told apart, the order is determined exactly if at most one stretch between dispatches and results has lines |
| `SeqNumbering.Runner.BeginCommand` | client/internal/runner/lifecycle.go:165-169 | the counter is reset also for a command already running |
| `SeqNumbering.Runner.NextNumber` | client/internal/runner/lifecycle.go:195-198 | a line gets the present number of its command, or 0, the next line one more, and no other command is touched |
| `SeqNumbering.Runner.EndCommand` | client/internal/runner/lifecycle.go:207-212 | the counter is deleted although lines may follow |
| `SeqNumbering.NumbersAreRuns` | client/internal/runner/lifecycle.go:165-212 | for every history the numbers are runs from 0, one per stretch between dispatches and results |
| `SeqNumbering.NumbersIncreaseIff` | client/internal/runner/lifecycle.go:165-212 | for every history the numbers rise, and are one unbroken run, exactly if at most one stretch between dispatches and results has lines |
| `SeqNumbering.RedispatchRestartsTheNumbers` | client/internal/runner/lifecycle.go:165-169 | a second dispatch of a running command gives 0 to two lines although all drain before the result |
| `Renumbering.RunningIsResetByTwo` | client/internal/runner/lifecycle.go:147-168 | in no run of a client with a maximum of one is the counter of a running command reset |
| `Renumbering.RunningIsRenumbered` | client/internal/runner/lifecycle.go:147-184 | with a maximum of two it is: a run in which a duplicate dispatch gives 0 to two lines that both drain before the result |
| `SeqNumbering.NumbersOfOneExecution` | client/internal/runner/lifecycle.go:193-212 | without redispatch there are two runs at most |
| `SeqNumbering.UnbrokenIff` | client/internal/runner/lifecycle.go:207-212 | without redispatch the numbers are one unbroken rising run exactly if all lines drain on one side of the result |
| `Shipper.CopyOf` | client/internal/shipper/logs.go:93-94 | a new array with the same beginning |
| `Shipper.LogShipper.constructor` | client/internal/shipper/logs.go:32-41 | an empty buffer with room for 100 |
| `Shipper.LogShipper.Add` | client/internal/shipper/logs.go:44-66 | appends the entry, with level error exactly for stderr, in place as the machine of the pipeline does, leaves every batch handed out as it was, and starts a flush at 100 |
| `Shipper.LogShipper.TakeBatch` | client/internal/shipper/logs.go:86-96 | takes as the machine of the pipeline does; batches in the order taken and then the buffer are all adds; the batch shares no memory with the buffer |
| `Shipper.LogShipper.RunSpawnedFlush` | client/internal/shipper/logs.go:63-65 | a spawned flush takes what is there, possibly nothing |
| `WatchLogs.Watch` | sdk/go/client.go:323-346 | the polling loop computes the fold of its cursor |
| `WatchLogs.FollowRises` | sdk/go/client.go:336-341 | for any polls: numbers rise from above 0, no row twice |
| `WatchLogs.NeverCatchesUp` | sdk/go/client.go:337 | what is delivered later lies above the cursor |
| `WatchLogs.MissedForGood` | sdk/go/client.go:337 | a row that a poll did not see, although it had one with that number or a larger one on its page, is never delivered |
| `WatchLogs.ShownIn` | sdk/go/client.go:336-341 | a single poll shows each positive number of its page once, in order |
| `WatchLogs.FollowerShowsIf` | sdk/go/client.go:323-346 | whatever the polls return: if each could have shown a beginning of what the last one can show, just that has been shown |
| `WatchLogs.FollowerShowsIff` | sdk/go/client.go:323-346 | wherever rows are added between polls, with numbers that may repeat: one row is shown for each positive number of the first page last seen, if and only if every poll could have shown a beginning of those |
| `WatchLogs.FollowerShowsFirstPage` | sdk/go/client.go:323-346 | over tables that grow at the end this is so whenever the polls happen |
| `WatchLogs.FollowerCompleteIff` | sdk/go/client.go:323-346 | wherever rows are added, with numbers that may repeat: everything is shown exactly if there are at most 100 rows, the first is numbered above 0, no number stands twice, and every poll saw a beginning of the last one |
| `LogChannel.StepKeepsReaders` | client/internal/runner/executor.go:201-247 | what has been sent from a pipe is always the admitted part of its lines, drops depending on what is in the shared channel at that moment |
| `LogChannel.StepKeepsPath` | client/internal/runner/lifecycle.go:193-202 | between the channel and the shipper nothing is lost, invented or reordered, and each entry carries stdout and info or stderr and error after the pipe it comes from; the channel never holds more than 100 lines |
| `LogChannel.StepKeepsNumbers` | client/internal/runner/lifecycle.go:195-198 | the entries carry the numbers that the history of the command gives, with dispatches and results at any moment |
| `LogChannel.StepKeepsDrops` | client/internal/runner/executor.go:213-225 | a line is dropped only once more lines have been tried than the channel holds |
| `LogChannel.StepKeepsInv` | client/internal/runner/executor.go:193-249 | every step of readers, streamLogs, shipper, dispatches and results keeps all this |
| `LogChannel.OneLineArrives` | client/internal/runner/executor.go:193-249 | a run in which a line written to stdout is read, offered, numbered 0, shipped and stored, as all there is in the table |
| `EndToEnd.DeliveredComesBack` | client/internal/runner/lifecycle.go:193-202 | in every finished run in which at most one stretch has lines: the lines of the pages labelled stdout and info are, in order, what the reader of that pipe got into the shared channel of the reads of the run, those labelled stderr and error the same for the other pipe, and there are no others |
| `EndToEnd.LinesComeBackIff` | client/internal/runner/lifecycle.go:165-212 | in every finished run, for lines that can be told apart: the pages are sure to be the lines in order if and only if at most one stretch has lines and the size is not replaced |
| `EndToEnd.FewLinesAreNotDropped` | client/internal/runner/executor.go:61 | in every run, while the two pipes together have at most 100 lines none is dropped |
| `EndToEnd.OutputComesBackIff` | client/internal/runner/executor.go:193-249 | if no line of the pipe was dropped, the lines with its labels are its effective stream, so the output itself exactly if no read completed a line begun earlier |
| `EndToEnd.FollowerMissesFirstLines` | sdk/go/client.go:323-346 | after every finished run: no line numbered 0 is shown, and what can be shown is one line for each of 1, 2, 3 and so on |
| `Retention.LogStore.DeleteLogsByAge` | server/internal/store/postgres/store.go:693-720 | a log is left exactly if it is not older than the cutoff or, for a policy on a runner or command, has another runner or command; the others are counted; a malformed scope is refused |
| `Retention.LogStore.DeleteLogsBySize` | server/internal/store/postgres/store.go:723-790 | of all logs, those of the runner, or those of the command the newest maxBytes div 100 are left, or all, whichever way ties fall; every other log is left |
| `Retention.LogStore.ApplyPolicy` | server/internal/workers/retention.go:67-110 | what goes has the policy's runner or command; with an age limit nothing too old is left of those, with a size limit no more than fit, and with one limit alone nothing else goes; the count is the number of logs gone |
| `Retention.LogStore.Run` | server/internal/workers/retention.go:44-65 | a log is left if no policy is global or on its runner or its command; every age limit and every size limit is met at once, each at the instant it was applied; nothing changes if every policy held before |
| `Retention.RunTwice` | server/internal/workers/retention.go:44-65 | a second run at the same instants deletes nothing |
| `Retention.AppliedHolds` | server/internal/workers/retention.go:67-95 | an applied policy holds, for every way ties fall |
| `Retention.AppliedTwice` | server/internal/workers/retention.go:67-95 | a policy that holds deletes nothing |
| `Retention.HoldsForFewer` | server/internal/workers/retention.go:52-64 | later deletions cannot break an earlier policy |
| `Retention.AgeAndSizeCommute` | server/internal/workers/retention.go:70-95 | age then size has the same possible results as size then age, for any ties |
| `Retention.PolicyOrderIsIrrelevant` | server/internal/workers/retention.go:70-95 | the same for the logs of any scope in the whole table |
| `Retention.OrderIsIrrelevantIff` | server/internal/workers/retention.go:52-64 | without equal timestamps, two policies leave the same logs in either order if and only if each leaves what the other would keep or deletes what the other would delete for its size |
| `Retention.WiderScopeFirstLeavesFewer` | server/internal/workers/retention.go:52-64 | three logs of which the wider limit first leaves one and the narrower first leaves two |

## Left out

- Metric rollups and the metric shipper: the rollup query uses units PostgreSQL does not accept, the shipper repeats the log shipper.
- SQL, pgx, HTTP, chi, JSON, the proxy, process spawning and gopsutil: statements are steps, encodings are parameters.
- The select loop of Stream as one method: its steps are the Open, Write, FailWrite and Close moves of a lane; pings carry no command.
- Closing of the log channel by the waiter while pipe readers may still send: assumed not to happen, see above.
- Exit-code classification, timeouts, `Kill` on the client, and the final flush at shutdown.
- Reconnect backoff, configuration, authentication, health, middleware, the UI, the generated client, and the Python and TypeScript SDKs.
- The registration handler's checks and its default limit of 4.
- Reports by other callers of the API than the runner's own client: the accounting is for reports of executions; a report with the status queued is the subject of `Claiming.ClaimsAreBounded` and `Claiming.ReclaimableIff`.
- Integer widths: sequence numbers and counters do not come near 64 bits, and JSON numbers are taken to be exact.
- In `Dispatch` and `Reaper` the table of runners is split: the one holds counters and tags, the other status and orphaning.
- Calendar arithmetic: the instant so many days ago is a parameter of each policy.
- Retention.LogStore.DeleteLogsByAge: an unsupported scope and a malformed command id are one error.
- Handlers.SendCommand: reads the list of runners at once; in `Dispatch` the announcement may rest on tags read earlier.
- Store.Store.UpsertRunner: the columns name, gpu_capable and updated_at, which nothing here depends on.
- EndToEnd.DeliveredComesBack: one execution of the command; the lines of a second one would have to be told apart by the reader of the pages, as rows do not name executions.
- Store.Store.ClaimNextCommand: one atomic step here; its interleavings are the subject of `Claiming`.
- Claiming.OldestFreeRowIsTaken: speaks about rows of the transaction's snapshot, and of who held them when they were visited; a row inserted after it began is not visited by it.
