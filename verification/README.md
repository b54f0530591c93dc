# An exchange core, modelled and verified

This project models the parts of a Go exchange backend whose correctness is hardest to see from one
function: three implementations of one price-time-priority order book, the durable single-writer engine
around it (write-ahead command log, event log with end markers, crash recovery, publisher), the k-line
cascade from 1s to 1d, a contiguous-ack cursor, a conflating mailbox and the decimal parsers. Code that
changes state step by step is modelled as classes and methods with loops; each is tied to a specification
function, and the properties are proved about those functions for all inputs, runs and crash points.

## The parts

**Order books** (`Basics`, `Orders`, `BookSpec`, `BookRuns`, `SliceBook`, `PriceHeap`, `HeapModel`, `HeapRefinement`,
`HeapTrap`, `LevelList`, `BookSide`, `HeapBook`, `Events`, `Adapter`, `HeapHistory`, `LevelQueues`, `LevelBook`, `LevelRuns`).
The sorted-slice book is the reference. Its matching is given as the recursion the code performs and as a
contract that determines the result (`ContractDeterminesMatch`), and every history obeys a ledger. The heap
book is modelled with its nodes, doubly linked levels, node pool, id index and array heaps; its methods are
proved equal to functions on level maps, and those are proved to follow the reference. In `Cancel` the code
tests the node's side after the pool has wiped it, so an emptied ask level stays in `asks` and its price is
not pushed on the heap again; the model keeps that, `LosingHistory` is a concrete history that loses an order
to it, and `AgreesIffTrapFree` says that the two books agree on every taker in every reachable state exactly
as long as no order comes to rest at an ask price whose level outlived its heap entry. The level book with
cached best prices never removes index entries of cancelled orders; run beside the slice book it gives the
same answers if and only if no order is cancelled again after it was cancelled (`RunBoth`).

**Engine** (`Bytes`, `Codecs`, `Wal`, `TornLog`, `Engine`, `Recovery`, `Lives`, `LogIO`, `Journal`, `Startup`,
`Actor`, `Service`, `TornLife`, `HeapEngine`, `Effects`, `LogAudit`, `Publisher`, `Delivery`). Files are byte
sequences, the checksum is any function, a crash leaves any byte prefix of each log. `RecoveryIsExact` says for every history and every pair of cuts that
recovery restores the book, the event log and the numbering exactly if the tails are of the kinds the code can
mend, and only then: the reader refuses a cut header or payload of the event log although its option asks for
tolerance, a bare header at the end of the command log is an error, and an event log without an end marker is
not cut back. `ManyLives` carries this over any number of crashes. The running code is modelled step by step
(sticky-error writer, reader, repair, refill, actor batch loop with its unnoticed event write errors) and
`LiveOnce` shows that whatever it leaves on disk is what the crash theorems speak about. Recovery also accepts a
command log torn inside a record, and the engine appends behind the tear: `TornLifeIsLost` says that the start after
that, barring a checksum collision, refuses the files or has forgotten the whole life, and `EventsWithoutCommands`
that its events stay. For gentle crashes `Deliver` joins lives and publisher runs: nothing published is ever taken
back. `LogTells` and `BookOfTheLogs` tie the decoded event log to the commands' own fields and to the book.
Commands that fail the actor's validation and cancels that miss are replayed differently from how they ran (`ReplayIsLive`), and a
history with one of them never writes the log that recovery restores (`LiveIsLogged`, an if and only if), so the
theorems ask for faithful commands.

**K-lines** (`Candles`, `Watermark`, `AnyWindow`, `Rollup`, `Emission`, `Summaries`, `InnerBuckets`, `Carrying`, `Cascade`,
`TradeAggregator`, `KlineShard`, `Decimals`, `DecimalMeaning`).
Per-symbol functions with watermark, reorder window and gap filling; the aggregators and the shard as classes
over many symbols. The cascade is compared with a reference computed from the trades alone, for every gap-fill
setting (`ChainIsDirect`): an hour or a day that starts without a trade in its finest filled bucket is led by
the close before it, because the filler takes part in it, and `HourAndDayBars` says exactly when such a bar
still is the direct aggregation.

**Small protocols** (`AckCursor`, `Mailbox`, `MailboxTurns`).

Where comments in the code promise tolerance of truncated tails (`pkg/wal/reader.go`), an index removal
(`internal/matching/level_book.go`) or a side test (`internal/matching/levell_book_heap.go`), the model follows
the code.

## Model

| member | source | states |
|---|---|---|
| BookSpec.MatchMeetsContract | internal/matching/match.go:18-83 | the matching loop hits a prefix of the queue in order, fills all but the last maker, conserves quantity, respects the limit, and a positive rest means the best remaining order does not cross |
| BookSpec.ContractDeterminesMatch | internal/matching/match.go:18-83 | a result meets that contract if and only if it is what the loop computes |
| BookSpec.ContractImpliesMatch | internal/matching/match.go:18-83 | the contract leaves no second result |
| BookSpec.TradePricesMonotone | internal/matching/match.go:18-83 | trade prices move away from the best price and never past the limit |
| BookSpec.RestMeansNoCross | internal/matching/match.go:43-46 | when a remainder is left, no order left on the side crosses the limit |
| BookSpec.MatchRemains | internal/matching/match.go:38-41 | what stays is a suffix of the queue with at most its first order reduced |
| BookSpec.InsertedAt | internal/matching/book_naive.go:55-116 | stable insertion puts the order after all better or equal prices and before all worse ones |
| BookSpec.InsertedKeeps | internal/matching/book_naive.go:55-116 | insertion keeps priority order and adds exactly the one order |
| BookRuns.MatchConserves | internal/matching/match.go:27-41 | for every id, quantity leaving the queue or the taker is exactly what the trades name |
| BookRuns.LedgerBalances | internal/matching/match.go:4-83 | after any history, for every id: submitted = traded + resting + cancelled |
| BookRuns.SubmitKeepsValid | internal/matching/match.go:4-83 | a submit under a fresh id keeps both queues sorted, positive, duplicate-free and the book uncrossed |
| BookRuns.CancelKeepsValid | internal/matching/book_naive.go:141-156 | cancel answers true exactly for live ids, and the id is not live afterwards |
| BookRuns.RunValid | internal/matching/match.go:4-83 | after every run with fresh ids best bid is strictly below best ask and each live id was submitted |
| BookRuns.LiveOrderLedger | internal/matching/match.go:4-83 | a live order's quantity is its submitted quantity minus the trades that name it as maker or taker |
| BookRuns.SubmitOutcome | internal/matching/match.go:4-83 | a submit hits the first orders of the other side, each at its own price and within the taker's, all but the last completely; the rest comes to stand with its own id, side, price and user behind every better or equal order; nothing else changes |
| SliceBook.NaiveOrderBook.Insert | internal/matching/book_naive.go:55-116 | the binary search inserts at the stable position |
| SliceBook.NaiveOrderBook.MatchSide | internal/matching/match.go:18-41 | the loop over the side yields the specified trades, rest and queue |
| SliceBook.NaiveOrderBook.SubmitLimit | internal/matching/match.go:4-83 | the book and the trades after a submit are those of the specification |
| SliceBook.NaiveOrderBook.Cancel | internal/matching/book_naive.go:141-156 | the scan removes the first order with the id, bids before asks |
| PriceHeap.RootIsBest | internal/matching/heap_price.go:3-53 | in a heap the root is at least as good as every element |
| PriceHeap.PriceHeap.Push | internal/matching/heap_price.go:17-19 | pushing keeps the heap order and adds exactly the price, duplicates included |
| PriceHeap.PriceHeap.Pop | internal/matching/heap_price.go:21-27 | popping keeps the heap order and removes exactly the root |
| HeapRefinement.MatchHalfRefines | internal/matching/levell_book_heap.go:304-388 | matching level by level through the lazy heap gives the trades, rest and queues of the sorted queue, and every live price stays in the heap |
| HeapRefinement.BestIsFirst | internal/matching/levell_book_heap.go:390-414 | if every live price is in the heap, the lazily found best is the first price of the sorted queue |
| HeapRefinement.AddHealthy | internal/matching/levell_book_heap.go:103-131 | adding keeps every live price in the heap iff the price has no level yet or is in the heap |
| HeapRefinement.CancelRefines | internal/matching/levell_book_heap.go:138-159 | cancel through the index answers and leaves queues as the scanning cancel does, in spite of the wiped side |
| HeapRefinement.SubmitRefines | internal/matching/levell_book_heap.go:286-388 | a submit under a fresh id gives the reference trades, rest and queues; the heap stays complete iff the submit does not trap |
| HeapRefinement.RunRefines | internal/matching/levell_book_heap.go:95-159 | over every trap-free history with fresh ids every answer and every reachable state agrees with the slice book |
| HeapRefinement.AgreesIffHealthy | internal/matching/levell_book_heap.go:390-414 | a side answers every possible taker like the sorted queue iff every live price is in its heap |
| HeapRefinement.AgreesIffTrapFree | internal/matching/levell_book_heap.go:149-156 | all reachable states agree with the slice book on every taker iff no order rests at an ask price whose level outlived its heap entry |
| HeapTrap.LosingHistory | internal/matching/levell_book_heap.go:149-156 | a concrete history after which the heap book misses a trade the slice book makes |
| LevelList.Level.PushBack | internal/matching/levell_book_heap.go:33-45 | linking at the tail appends to the level's queue and keeps the doubly linked list well formed |
| LevelList.Level.Remove | internal/matching/levell_book_heap.go:48-66 | unlinking any node removes exactly it and keeps links, ends and size right |
| LevelList.NodePool.Get | internal/matching/levell_book_heap.go:416-424 | a node from the pool is not linked anywhere and carries the order, level and side |
| LevelList.NodePool.Put | internal/matching/levell_book_heap.go:425-435 | a returned node is wiped, its side included |
| BookSide.BookSide.Best | internal/matching/levell_book_heap.go:390-414 | popping stale entries terminates and returns the true best among the levels the heap knows |
| BookSide.BookSide.Unlink | internal/matching/levell_book_heap.go:144-146 | the node leaves its own level's queue and nothing else changes |
| HeapBook.LevelOrderBookHeap.Add | internal/matching/levell_book_heap.go:95-132 | the representation invariant holds and the value is the specified one: level opened and pushed only if absent, order at the tail, index extended |
| HeapBook.LevelOrderBookHeap.Cancel | internal/matching/levell_book_heap.go:138-159 | the order leaves its queue and an emptied level is deleted among the bids whatever its side; the invariant holds afterwards iff that level held no bids |
| HeapBook.LevelOrderBookHeap.FillOne | internal/matching/levell_book_heap.go:316-339 | one execution against the head maker; a filled maker leaves list, index and goes to the pool |
| HeapBook.LevelOrderBookHeap.FillLevel | internal/matching/levell_book_heap.go:316-339 | the inner loop matches the level's queue as specified |
| HeapBook.LevelOrderBookHeap.BestPrice | internal/matching/levell_book_heap.go:390-414 | the best price is the best visible one, and only better, stale heap entries are gone |
| HeapBook.LevelOrderBookHeap.MatchEmit | internal/matching/levell_book_heap.go:304-388 | both loops terminate with the specified trades, rest and levels; the defensive branch is present and proved never taken |
| HeapBook.LevelOrderBookHeap.MatchLimitEmit | internal/matching/levell_book_heap.go:286-302 | the invariant holds, pooled and live nodes stay disjoint, and trades, rest and book are the specified ones |
| HeapHistory.TradeEventsNamed | internal/engine/HeapBookAdapter.go:23-25 | for every order, the Trade events of a match name it with exactly the quantity it gave or took |
| HeapHistory.EventLedger | internal/engine/HeapBookAdapter.go:15-44 | after any history with fresh ids each live order rests with its submitted quantity less the quantity of all Trade events that name it |
| Adapter.HeapBookAdapter.SubmitLimit | internal/engine/HeapBookAdapter.go:15-33 | events are Accepted, the trades, then Added exactly when something rests, and the book is the specified one |
| Adapter.HeapBookAdapter.Cancel | internal/engine/HeapBookAdapter.go:36-44 | Cancelled or Rejected according to the book's answer, on any book |
| HeapHistory.RunHistory | internal/engine/HeapBookAdapter.go:15-44 | lists, index, pool and heaps together emit for every command of a trap-free history what the slice book calls for |
| Effects.SubmitTells | internal/engine/HeapBookAdapter.go:15-33 | for a submit under an id not live, told by its fields alone: Accepted first, one Trade with each order hit at that order's price, Added last exactly when the id is live afterwards; every order is short of exactly what the trades naming it took, and the remainder rests with its price, side and user |
| Effects.CancelTells | internal/engine/HeapBookAdapter.go:36-44 | a cancel takes exactly the order it names off its queue and tells Cancelled, or Rejected and nothing changes |
| Effects.HistoryTells | internal/engine/HeapBookAdapter.go:15-44 | the same for every command of every history with fresh ids, submits without quantity or side included |
| LevelQueues.BestLevel | internal/matching/level_book.go:174-216 | the best non-empty level is the price of the first order of the sorted queue |
| LevelQueues.ScanIsFirst | internal/matching/level_book.go:174-216 | a cached price is what a full scan finds if and only if it is the price of the first order |
| LevelQueues.TurnEats | internal/matching/level_book.go:252-272 | one execution at the best level is one turn of the sorted queue |
| LevelQueues.TakeStocks | internal/matching/level_book.go:132-153 | unlinking the k-th order of a level, and deleting the level if that empties it, takes exactly that order out of the sorted queue |
| LevelList.Level.Unhook | internal/matching/level_book.go:36-53 | the statements of remove on any node: neighbours joined, ends moved, one counted off |
| LevelList.Level.RemoveStray | internal/matching/level_book.go:36-53 | run on a node that no longer hangs in the list they cut off the whole list and miscount it |
| LevelBook.LevelOrderBook.RestOn | internal/matching/level_book.go:86-97 | links, index and level map stay well formed and the order is last in its level |
| LevelBook.LevelOrderBook.Add | internal/matching/level_book.go:78-119 | the book stands for the reference book with the order inserted, cached best prices included, also when the order crosses the other side; known ids, unknown sides and quantities below one change nothing |
| LevelBook.LevelOrderBook.Recompute | internal/matching/level_book.go:174-216 | the scan loop finds the minimum or maximum over the non-empty levels |
| LevelBook.LevelOrderBook.FillOne | internal/matching/level_book.go:252-272 | one execution against the head; a filled maker leaves its list and the index |
| LevelBook.LevelOrderBook.MatchLevel | internal/matching/level_book.go:251-278 | the inner loop and the deletion of an empty level are turns of the sorted queue, and the cache is right again |
| LevelBook.LevelOrderBook.MatchSide | internal/matching/level_book.go:232-279 | the loops give the reference trades, rest and queue and keep the lists, index and cache right; the self-repairing branch is never taken |
| LevelBook.LevelOrderBook.Known | internal/matching/level_book.go:63 | the index knows exactly the live ids and the ids cancelled before |
| LevelBook.LevelOrderBook.Cancel | internal/matching/level_book.go:126-156 | true whenever the index knows the id; for an id never cancelled before this is the reference answer and book; for one cancelled before it is the wrong answer, the old level loses its whole list, and everything else that changes is stated |
| LevelBook.LevelOrderBook.SubmitLimit | internal/matching/level_book.go:218-337 | always the reference trades; the book is the reference book unless the index still knows the taker's id after matching, and then the remainder is dropped |
| LevelRuns.RunBoth | internal/matching/level_book.go:126-337 | side by side with the slice book over any history with fresh ids: all answers agree iff no order is cancelled again after a successful cancel, and then the level book returned stands, lists, index and cached best prices, for the queues of the slice book returned |
| Bytes.ReadBack | internal/engine/cmd_wal_codec.go:44-60 | fixed-width little-endian numbers read back |
| Bytes.LowFirst | internal/engine/cmd_wal_codec.go:44-60 | the lowest byte comes first: what follows k bytes counts 256 to the power k |
| Codecs.CmdRoundTrip | internal/engine/cmd_wal_codec.go:34-95 | decoding an encoded command returns it with the cancel id zeroed unless it is a cancel; other types are refused |
| Codecs.EvRoundTrip | internal/engine/event_outbox_codec.go:35-81 | decoding an encoded event returns it |
| Codecs.EncodeCmd | internal/engine/cmd_wal_codec.go:34-63 | the reused buffer holds the record of the command |
| Codecs.EncodeEv | internal/engine/event_outbox_codec.go:35-57 | the reused buffer holds the record of the event |
| Codecs.CmdLayout | internal/engine/cmd_wal_codec.go:34-63 | the bytes at which each field of a command lies |
| Codecs.EvLayout | internal/engine/event_outbox_codec.go:35-57 | the bytes at which each field of an event lies |
| Wal.CutLaw | pkg/wal/wal.go:119-194 | prefix law: for any byte cut, exactly the payloads whose frames lie wholly within it are delivered, in order, and reading stops at what the cut severed |
| Wal.ResumeLaw | pkg/wal/reader.go:36-112 | a reader opened at the offset after k records delivers exactly the rest |
| Wal.ParseIsPrefix | pkg/wal/wal.go:119-194 | any bytes whatsoever read as whole frames followed by what stopped the reading |
| Wal.TruncateAtRecord | pkg/wal/wal.go:196-232 | truncating a cut log at a record boundary leaves exactly the frames before it |
| Wal.WholeIff | pkg/wal/wal.go:119-194 | the first j records are delivered iff their frames fit the cut |
| Wal.FrameLayout | pkg/wal/wal.go:60-76 | four bytes of length, four of checksum, then the payload |
| Wal.ReadsIff | pkg/wal/wal.go:119-194 | of any bytes, a record is read iff they begin with the frame of a payload within the limit, and it is that payload |
| TornLog.OneTornByte | internal/engine/engine.go:160-169 | commands appended after one torn byte, up to 17 kB, are silently dropped by the next replay |
| TornLog.MoreTornBytes | internal/engine/engine.go:160-169 | after two or three torn bytes the next replay stops with an error there, whatever follows |
| TornLog.AnyTornRecord | internal/engine/engine.go:160-169 | wherever a record was torn, no command appended and synced after it is ever delivered, barring a checksum collision |
| LogIO.Reader.Next | pkg/wal/reader.go:68-112 | one record with both offsets moved to its end, or the error that fits the tail with the offsets unchanged |
| LogIO.Writer.Append | pkg/wal/wal.go:60-76 | the frame is appended to what is meant to be in the file; a failure is remembered and refuses every later write, and on a reliable file there is none |
| LogIO.Writer.Flush | pkg/wal/wal.go:79-89 | success means everything meant to be written is in the file, and on a reliable file it does succeed |
| LogIO.ReplayFile | pkg/wal/wal.go:119-194 | delivers exactly the whole records and reports how the file ended, or stops at the first record the callback refuses; the statistics are the sizes of what was read and of what was taken |
| LogIO.EndsWell | pkg/wal/wal.go:119-194 | a replay ends without error iff at the end of the file or, if that is allowed, in a cut header or payload; a bare header is an error |
| Engine.ReplayIsLive | internal/engine/actor.go:171-190 | replaying a command reproduces what it did live iff it passes the validation and, if a cancel, hits |
| Effects.SubmitReplays | internal/engine/engine.go:273-282 | a logged submit on the reference book, by the raw fields of the command: price, side, user and quantity rest and trade as given, on replay and, if it passes the validation, live |
| Effects.IdleReplays | internal/engine/engine.go:273-282 | a logged submit without quantity or side leaves the book and tells Accepted, and Added if it has a quantity |
| Effects.CancelReplays | internal/engine/actor.go:178-187 | a logged cancel by its raw fields, and live its second Rejected when it misses |
| Effects.LiveRefuses | internal/engine/actor.go:171-190 | what the running actor refuses changes nothing and is told as one Rejected, with an end marker only for an unknown kind |
| LogAudit.LogTells | internal/engine/actor.go:241-293 | the decoded records that each command of a history with fresh ids adds to the event log, by the command's fields and the orders it met: numbers and positions, Accepted, trades with maker, taker, price and quantity, Added, Cancelled or Rejected, then the end marker |
| LogAudit.BookOfTheLogs | internal/engine/actor.go:155-201 | audit: after every history with fresh ids each resting order is a logged command's, with its price, side and user, short of exactly the quantity of the trade records that name it |
| LogAudit.LogIsTape | internal/engine/actor.go:241-293 | the trade records name every id with exactly the quantity the trades of the history give it |
| LogAudit.RefusalsLogged | internal/engine/actor.go:171-182 | a refused command leaves exactly one record, its rejection, and no end marker |
| Recovery.ScanFindsLastComplete | internal/engine/outbox.go:71-90 | scanning any number of whole event records finds the last command whose end marker is among them |
| Recovery.RepairOfLog | internal/engine/outbox.go:58-110 | repair of any cut of the event log: refused when a header or payload is cut, else exactly the records up to the last end marker, and its number |
| Recovery.RepairIsIdempotent | internal/engine/outbox.go:58-110 | repairing a repaired file changes nothing, for any bytes |
| Recovery.RepairMeans | internal/engine/outbox.go:58-110 | of any bytes, repair accepts exactly whole events with nothing or a bare header behind them, cuts the file right behind its last end marker and answers that marker's number, or leaves it and answers zero if there is none |
| Recovery.ReplayOfLog | internal/engine/engine.go:228-271 | replay rebuilds the book, ends at number n and refills exactly the records above the last complete command |
| Recovery.ReplayMeans | internal/engine/engine.go:228-271 | of any records, replay accepts exactly commands; the book is theirs in order and the number the greatest among theirs |
| Recovery.RecoverableIff | internal/engine/engine.go:122-173 | the exact pairs of files, of all bytes there are, that recovery accepts |
| Recovery.RecoveryIsExact | internal/engine/engine.go:122-173 | for every history and every pair of cuts, recovery restores book, event log and numbering iff the command log does not end in a bare header, the event log ends at a record or in a bare header, and holds an end marker unless empty |
| Recovery.RecoveryOfCleanCut | internal/engine/engine.go:122-173 | with the command log cut at a record, recovery stands with whole files |
| Recovery.LiveIsLogged | internal/engine/actor.go:155-201 | for every history the running actor writes the very log that recovery restores if and only if each command is faithful where it runs, and then it holds the very book |
| Recovery.RefusedSubmitDiffers | internal/engine/actor.go:172-176 | a refused submit leaves records that replay does not reproduce, whatever the book does |
| Lives.EventLogExtends | internal/engine/engine.go:170-178 | the logs of two lives compose: numbering, book and events go on where the recovered ones stopped |
| Lives.OneLife | internal/engine/engine.go:122-173 | for any life of faithful commands, recovery stands exactly where the surviving commands with whole files would have led if and only if the crash is gentle |
| Lives.ManyLives | internal/engine/engine.go:122-178 | over any number of lives and gentle crashes: book, numbering and both logs of exactly the surviving commands, and nothing durable is lost, doubled or moved |
| Journal.ScanAndRepair | internal/engine/outbox.go:58-110 | the scanning loop and truncation do what repair is specified to do, and change nothing on error |
| Journal.EventOutbox.Append | internal/engine/outbox.go:36-48 | the event's frame is appended through the reused buffer |
| Journal.EventOutbox.AppendCmdEnd | internal/engine/outbox.go:50-53 | the end marker's frame is appended |
| Journal.OutboxEmitter.Emit | internal/engine/actor.go:248-293 | events are stamped with 16-bit positions that wrap, and the first error sticks |
| Journal.EmitAll | internal/engine/actor.go:248-293 | all events of a command are appended in order, or the writer has failed |
| Startup.Start | internal/engine/engine.go:122-173 | success means exactly the specified recovery with the files on disk, and on a reliable file nothing else stops it; stopped half-way by an I/O error, the event log is a prefix of what a later attempt writes |
| Startup.Reapply | internal/engine/engine.go:228-271 | the replay loop with refill computes the specified progress record by record |
| Startup.Redo | internal/engine/engine.go:249-265 | a replayed command writes its events and end marker iff its number is above the last complete one |
| Startup.RefillIsPrefix | internal/engine/engine.go:254-265 | what has been refilled at any moment is a prefix of what a finished recovery writes |
| Actor.SymbolActor.LogOne | internal/engine/actor.go:129-143 | the next number is given out and the record appended, under the write-ahead discipline |
| Actor.SymbolActor.ApplyOne | internal/engine/actor.go:157-201 | one synced command is applied with its events and end marker as specified, event write errors unnoticed, refused commands without marker |
| Actor.SymbolActor.RunBatch | internal/engine/actor.go:121-213 | whatever fails, event records exist only for synced commands; when nothing fails the batch is applied and both logs are on disk, and on reliable files nothing fails |
| Actor.SymbolActor.Run | internal/engine/actor.go:81-214 | the same over any batching of any commands |
| Service.CrashIsALife | internal/engine/actor.go:121-213 | stopped at any point under the discipline, the files are those of a possible life |
| Service.LiveOnce | internal/engine/engine.go:122-178 | start from any files recovery accepts, a torn command log included, serve any batches, stop anywhere: the files are a possible life of the recovered engine; if nothing fails, as on reliable files, they hold every record of every command; if the start stops on an I/O error the event log is a prefix of the recovered one |
| Service.ServedInFull | internal/engine/engine.go:170-178 | begun with whole files, a life of faithful commands in which nothing fails ends with the full logs of all commands |
| TornLife.TornIsAccepted | internal/engine/engine.go:160-173 | a cut inside a command record that recovery mends leaves the torn bytes in the file the engine goes on with |
| TornLife.TornLifeIsLost | internal/engine/engine.go:160-178 | after any life begun on a torn command log with at least one command record whole on disk, barring a checksum collision: recovery succeeds iff the event log repairs and the misread length reaches beyond the file within the limit, and then book and numbering are those before the tear |
| TornLife.EventsWithoutCommands | internal/engine/engine.go:122-178 | if such a life of faithful commands goes through without failure, the exact result of the next start: refusal, or the event log of all commands beside the book and numbering without that life |
| HeapEngine.BooksAgree | internal/engine/HeapBookAdapter.go:15-44 | for trap-free histories the engine on the heap book writes the same event log as on the slice book and holds its queues |
| HeapEngine.SurvivesAsReference | internal/engine/engine.go:122-178 | after any number of gentle crashes the heap-book engine has on disk what the reference engine would have written for the surviving commands |
| Publisher.CursorRoundTrip | internal/engine/outbox.go:121-140 | the stored cursor loads back, lies there lowest byte first, and fewer than eight bytes load as zero |
| Publisher.TailRead | internal/engine/outbox_publisher.go:74-85 | reading on from a boundary of a growing log yields the next record iff it is wholly visible |
| Publisher.OutboxPublisher.Correct | internal/engine/outbox_publisher.go:38-47 | a cursor beyond the file is put back to its end, and is a record boundary again iff the file ends at a record |
| Publisher.OutboxPublisher.Run | internal/engine/outbox_publisher.go:36-110 | one run over a file that may end inside a record, not shorter than the cursor unless it ends at a record, publishes a contiguous in-order stretch, up to the first turn that sees no whole record or is stopped at an event; the cursor stands behind the last event before the last marker at which storing worked |
| Publisher.OutboxPublisher.Tail | internal/engine/outbox_publisher.go:68-109 | the reading loop, its closed reader, records that do not decode and its failing cursor stores keep that |
| Publisher.RepeatsOnlyTheTail | internal/engine/outbox_publisher.go:94-98 | after a restart exactly the events since the last marker for which the cursor was stored repeat |
| Publisher.DedupStretch | internal/engine/outbox_publisher.go:36-110 | with distinct keys, a stretch starting inside what is published adds only what lies beyond |
| Publisher.Lifetime | internal/engine/outbox_publisher.go:36-110 | over any number of restarts on a file that may end inside a record and is only ever cut back to a record, every published event is in the log, and deduplicating by (Seq, Idx) yields the log's events in order up to the furthest record read; all of them after a run that is left alone for long enough |
| Publisher.EventsOfLog | internal/engine/actor.go:248-256 | keys of the event log are distinct iff no command emits more than 65536 events |
| Delivery.DisciplineShows | internal/engine/actor.go:121-213 | at any moment of a life under the write-ahead discipline the event file holds events only of commands that survive it |
| Delivery.NothingRetracted | internal/engine/engine.go:122-189 | whatever the event file shows in any of many lives with gentle crashes is the beginning of the event log of the commands that outlive all lives |
| Delivery.Deliver | internal/engine/engine.go:170-189 | publisher runs in any of many lives: every published event is one of the surviving commands, and deduplicated they are the beginning of the surviving event log, all of it after a run that is left alone for long enough |
| Candles.BucketsNest | internal/quotes/kline/agg.go:403-406 | bucket(bucket(t, i), n*i) = bucket(t, n*i) for all times, negative ones included, and every common offset |
| Candles.BucketBounds | internal/quotes/kline/agg.go:403-406 | a bucket ends after every time in it, also under truncating division, and starts at a multiple of the interval less the offset |
| Candles.JoinAssociative | internal/quotes/kline/agg.go:163-172 | merging candles is associative, with 64-bit wrap-around volume |
| Candles.FoldMeans | internal/quotes/kline/agg.go:146-173 | a bar's open, close, high, low and volume are the first and last price, attained bounds and the total |
| Watermark.AcceptedIsFresh | internal/quotes/kline/agg.go:127-145 | after any run with a positive window, a trade that is not late is accepted and falls in a bucket above everything emitted; a late one is dropped |
| Watermark.WindowIsExact | internal/quotes/kline/agg.go:109-252 | with a positive window the emitted bars rise strictly, one for every bucket with an accepted trade, each counting exactly that bucket's accepted trades |
| Watermark.EmissionRises | internal/quotes/kline/agg.go:180-252 | whatever the window, starts are emitted in strictly increasing order |
| AnyWindow.AnyWindowIsExact | internal/quotes/kline/agg.go:109-252 | for every window, none included, the emitted bars rise strictly, one for every bucket with a trade that was in time, each counting exactly those trades; in time means inside the window and above the last emitted bucket on arrival |
| AnyWindow.WindowAccepts | internal/quotes/kline/agg.go:127-145 | with a positive window in time and accepted are the same |
| AnyWindow.WithoutWindowLost | internal/quotes/kline/agg.go:135-176 | without a window a trade for an emitted bucket is accepted and never comes out: whatever trades follow, every bar up to the final flush is what it would be without that trade |
| Emission.EmittedWhenDue | internal/quotes/kline/agg.go:180-218 | at any moment, for every window, the bars out are exactly the buckets with a trade in time that end by the newest trade less the window, each counting exactly those trades |
| Emission.WindowEmitsWhenDue | internal/quotes/kline/agg.go:180-218 | with a positive window: out are the buckets of accepted trades that are due, kept are those that are not, each with exactly its trades |
| Emission.FlushCloses | internal/quotes/kline/agg.go:221-252 | a flush leaves nothing behind and remembers the last start |
| Rollup.DropUnreachable | internal/quotes/kline/agg.go:364-367 | fed increasing starts, the out-of-order drop branch is not reached |
| Rollup.RollShape | internal/quotes/kline/agg.go:297-389 | output starts rise, differ by exactly one interval when filling, and fillers repeat the last close with zero volume |
| Rollup.FillingOnlyInserts | internal/quotes/kline/agg.go:326-346 | gap filling inserts fillers and changes nothing else |
| Rollup.RollConserves | internal/quotes/kline/agg.go:297-389 | the flushed output holds exactly the input's volume, in 64-bit arithmetic |
| Emission.RolledWhenPassed | internal/quotes/kline/agg.go:297-379 | at any moment a rollup has sent out exactly the buckets before the newest child's, and fillers; every bar bears the symbol, lasts one interval and counts the children of its bucket |
| Emission.RollIgnoresOld | internal/quotes/kline/agg.go:364-367 | fed bars in any order, a rollup does as if the ones behind a bucket already begun had not come |
| Summaries.StableSortedIs | internal/quotes/kline/agg.go:143-173 | the reference order: 1s buckets ascend, arrival order inside a bucket stays, no size is lost |
| Summaries.RollSummarises | internal/quotes/kline/agg.go:297-379 | rolling up a direct aggregation by i gives the direct aggregation by n*i |
| Summaries.SummaryVolume | internal/quotes/kline/agg.go:163-172 | a direct aggregation holds the total of the sizes |
| Cascade.ChainShape | internal/quotes/kline/shard.go:64-85 | every level rises, filled levels step by their interval |
| Cascade.ChainConserves | internal/quotes/kline/shard.go:64-107 | 1s, 1m, 1h and 1d volumes are equal for every window and gap-fill setting, and with a positive window they are the sum of accepted sizes |
| InnerBuckets.ChildStep | internal/quotes/kline/agg.go:403-406 | from one inner bucket to the next the outer bucket stays, or it is the next one and the inner bucket is its first |
| Carrying.RollFollows | internal/quotes/kline/agg.go:297-379 | rolling up filled or unfilled children gives, bar by bar, the reference candle computed from the trades alone |
| Carrying.CloseBefore | internal/quotes/kline/agg.go:319-346 | the close a bar starts from is the price of the last trade before its bucket, and only the first bar has none |
| Carrying.DirectIff | internal/quotes/kline/agg.go:297-379 | a bar with trades equals direct aggregation iff it is the first bar, its first inner bucket has a trade, or the close before is the price of its first trade |
| Cascade.ChainIsDirect | internal/quotes/kline/shard.go:64-107 | for every gap-fill setting: 1s bars and 1m bars that are no fillers are the folds of their accepted trades in stable order, every bar of every level is the reference candle of its bucket, and a level above a filled one has no gaps |
| Cascade.HourAndDayBars | internal/quotes/kline/shard.go:64-107 | every 1h and 1d bar: flat at the close before when idle, the fold of its trades when it is first or its first finest filled bucket has a trade, led by the close before otherwise; and exactly when that is direct aggregation |
| Cascade.FilledHourStartsEarly | internal/quotes/kline/shard.go:64-85 | concretely, with filled minutes the hour of a single trade at 01:01 for 200 after one at 00:59 for 100 has open and low 100 |
| TradeAggregator.InsertionSort | internal/quotes/kline/agg.go:198-206 | the in-place insertion sort sorts and permutes |
| TradeAggregator.TradeAgg.EmitReady | internal/quotes/kline/agg.go:180-218 | exactly the pending bars that end by the watermark are emitted, in order, and deleted |
| TradeAggregator.TradeAgg.OfferTrade | internal/quotes/kline/agg.go:109-177 | only the trade's symbol changes, as specified; unparsable trades change nothing |
| TradeAggregator.TradeAgg.Flush | internal/quotes/kline/agg.go:221-252 | per symbol exactly the pending bars come out in order, in whatever order the symbols are visited |
| TradeAggregator.RollupAgg.OfferBar | internal/quotes/kline/agg.go:297-379 | only the child's symbol changes, as specified, with fillers in the gap |
| TradeAggregator.RollupAgg.Flush | internal/quotes/kline/agg.go:381-389 | every symbol's current bar comes out once and stays current |
| KlineShard.Shard.OfferTrade | internal/quotes/kline/shard.go:64-85 | after each trade every level of every symbol stands where its input so far takes it |
| KlineShard.Shard.Flush | internal/quotes/kline/shard.go:102-108 | flushing in order closes each level into the next for every symbol |
| KlineShard.Session | internal/quotes/kline/shard.go:94-121 | for any interleaving of symbols each symbol's bars are the chain over its own trades alone, and each bar goes out before the longer ones it closes and after all those that earlier bars closed |
| KlineShard.TicksTell | internal/quotes/kline/agg.go:109-117 | the trades of a symbol that count are exactly those whose price and size both read as numbers, with those numbers and their time |
| Decimals.ParseFixed | internal/quotes/kline/agg.go:414-464 | accepts exactly the specified strings and returns their 64-bit fixed-point number |
| Decimals.ParseScaled | exec/networks/coinbase/adapter.go:160-201 | the one-loop parser accepts exactly the specified strings and returns their number |
| Decimals.ScaledWithinFixed | exec/networks/coinbase/adapter.go:160-201 | whenever this parser accepts, the k-line parser accepts with the same value; it accepts exactly what needs no trimming and has only digits after the point |
| Decimals.FormatRoundTrip | internal/quotes/kline/agg.go:467-479 | parsing undoes formatting for an int64 iff it is not the smallest |
| DecimalMeaning.FixedReads | internal/quotes/kline/agg.go:414-464 | accepted are exactly the strings that read, between spaces, as an optional sign, digits and perhaps a point and more whose first eight are digits; the number is that of the digits, each by its place |
| DecimalMeaning.ScaledReads | exec/networks/coinbase/adapter.go:160-201 | the venue parser likewise, without spaces and with digits only |
| DecimalMeaning.TrimIs | internal/quotes/kline/agg.go:414-419 | trimming takes all spaces off both ends and nothing else |
| DecimalMeaning.Printed | internal/quotes/kline/agg.go:467-479 | printed are a sign if negative, the whole part without leading zeros, a point and eight decimals |
| AckCursor.StepPartitions | learn/eth/scan/handler3.go:145-309 | every step keeps each enqueued, not passed height in exactly one place |
| AckCursor.EveryRun | learn/eth/scan/handler3.go:145-309 | in every reachable state, restarts included: the partition holds, a cursor c means every height from the start to c was pushed without error, nothing is dropped with unlimited retries, and no queue exceeds its room |
| AckCursor.CursorMonotone | learn/eth/scan/handler3.go:286-306 | the stored cursor never goes back |
| AckCursor.RetriesCounted | learn/eth/scan/handler3.go:258-275 | over every run without restart each job's attempt is the number of failed acks received for its height, at most the limit if there is one, and a height is given up iff one more than the limit was received |
| AckCursor.PassableIff | learn/eth/scan/handler3.go:145-309 | progress: from any reachable state everything enqueued can still be passed without a restart iff no height is given up or has its last failure on its way |
| AckCursor.Handler3.EnqueueBlocks | learn/eth/scan/handler3.go:145-172 | the master's loop is a sequence of enqueue steps up to the chain height or a full queue |
| AckCursor.Handler3.WorkerTake | learn/eth/scan/handler3.go:216-223 | the worker collects a job and pushes at once when the batch is full; exactly these steps are in the trace |
| AckCursor.Handler3.WorkerReply | learn/eth/scan/handler3.go:202-208 | the flush loop sends one ack per job of the batch |
| AckCursor.Handler3.ManagerReceive | learn/eth/scan/handler3.go:258-284 | an ack goes to back-off, is given up, is ignored or becomes pending |
| AckCursor.Handler3.ManagerAdvance | learn/eth/scan/handler3.go:286-306 | the cursor follows contiguous successes, one storing call after the other, through failing ones; it stops when it no longer fits, and otherwise only when no success is next or the process ends |
| AckCursor.Handler3.RetryOne | learn/eth/scan/handler3.go:264-272 | a job whose back-off ended goes back to the queue, and only that one |
| Mailbox.Conn.Enqueue | deploy/wsdemo_steps/05_slow_client_backpressure/main.go:223-255 | the topic holds the new payload, is queued once, pending equals the bytes kept, and the limit closes the connection |
| Mailbox.Conn.Flush | deploy/wsdemo_steps/05_slow_client_backpressure/main.go:257-275 | the batch, its order and the mailbox left are those of popping up to max payloads, oldest dirty topic first, each the newest its topic had |
| Mailbox.Session | deploy/wsdemo_steps/05_slow_client_backpressure/main.go:223-275 | mailbox and deliveries after any run of operations are the specified ones and the log is what was enqueued until the connection closed; deliveries per topic go forward through it, none twice, and once drained every topic's last payload, unless it was nil, was delivered |
| Mailbox.DeliverKeeps | deploy/wsdemo_steps/05_slow_client_backpressure/main.go:257-275 | handing on the newest payload settles its topic and disturbs no other |
| MailboxTurns.FlushServes | deploy/wsdemo_steps/05_slow_client_backpressure/main.go:257-275 | a flush serves exactly the first topics of the queue, each with what it holds, until the batch is full or the queue empty |
| MailboxTurns.ServedInTurn | deploy/wsdemo_steps/05_slow_client_backpressure/main.go:223-275 | first come, first served: over any run topics are queued in the order in which they last began to have something kept, however often it was replaced |
| MailboxTurns.ClosedByLimit | deploy/wsdemo_steps/05_slow_client_backpressure/main.go:223-255 | the connection is closed iff at some moment it kept more than 256 KiB, and then nothing enters |

## Left out

- An order is a value held in a node or queue, not a shared pointer; the adapter creates every taker afresh, so no alias exists in the engine's path. Identifiers and prices are unbounded integers in the books.
- The mirrored ask and bid halves of each book are one class or method told its side; the level book's two sides reuse the heap book's level maps and leave their heaps unused.
- LevelBook.LevelOrderBook.Cancel: what later commands do to a book after a second cancel of one id, whose list, count and level map then disagree. The model tells a node cancelled before by its links and runs the same statements on it in a method of its own.
- The slice book's `pos` map and `Cancel2`, and the heap book's own `SubmitLimit`, `SubmitLimitBuff`, `matchBuy` and `matchSell`: not on the engine's path.
- LevelBook.LevelOrderBook.Add: does not state the source's check for a nil order, because orders are values.
- What the heap book does after a trap, beyond the one history shown, and after a cancel that deletes a level of the other side.
- Real files, directories, fsync and file locking: a file is its bytes, a crash leaves any prefix of what was written, a write may stop after any part unless the file is marked reliable; `bufio` is the writer's buffer; the branch of repair for a truncated tail is dead code because the reader never tolerates one.
- Startup.Start: does not say which I/O call failed, because the source returns that error as it is.
- The engine without command log or outbox, several symbols per engine (each has its own actor and files), mailbox full errors and metrics.
- Recovery.RecoveryIsExact: speaks of one crash of a log that was whole before, because `Lives.ManyLives` carries it over many.
- Lives.ManyLives: carries gentle crashes only, because the source appends after a torn record without truncating it; `OneLife` says exactly when one crash is gentle, `TornLog` and `TornLife` what happens after a torn record.
- The publisher's liveness after the first end of file (its reader stays closed).
- TornLife.TornLifeIsLost: leaves open what a checksum collision at the tear delivers.
- Publisher.OutboxPublisher.Run: says nothing of what is published when the file is shorter than the cursor and ends inside a record, because the source then reads on from its size whatever lies there; `Correct` says exactly when that happens, `Deliver` that it does not after gentle crashes.
- Publisher.Lifetime: asks that a file be cut back only to a record, for the same reason.
- JSON codecs, the free-text reason of a rejection, which the binary codec does not store.
- Publisher.EventsOfLog: is about the log of faithful commands, because refused ones have no end marker.
- The Interval and TF fields of a bar, timestamps near the int64 limits, the inbox and its drop policy, and the shard hash.
- Redis, the database, block contents and fetching, timers and goroutine scheduling: steps of the ack pipeline are interleaved arbitrarily.
- WebSocket writing, ping and the hub around the mailbox; the race between Close and Enqueue.
