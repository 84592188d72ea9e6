# Verified models of an analytic database's core protocols and codec

This project models, in Dafny, the parts of the repository whose correctness is hardest to see by reading:

* the QuickLZ level 3 codec of the decompression server, from the token format up to the two array programs
  `qlz_compress` and `qlz_decompress`, with the round trip through both (`Lz*.dfy`), and the server's
  128-bit hash (`Words64.dfy`, `Hasher128.dfy`, `HashVectors.dfy`);
* the queue that serialises DML on a table, and the gate that limits running statements together with the
  session loop that uses it, as step relations over all interleavings (`TableQueue.dfy`, `TableProtocol.dfy`,
  `StatementGate.dfy`, `SessionLoop.dfy`);
* batch insert, and the start-up rollback of stale table locks, as request/reply protocols with replies in any
  order, errors, lost messages and exceptions (`Batch*.dfy`, `WeClient.dfy`, `BulkRollback.dfy`, `RollbackAnswers.dfy`,
  `RollbackPass.dfy`, `RollbackReleases.dfy`, `TxnAnswers.dfy`, `RollbackProcessor.dfy`);
* two loops of the process manager: the assignment of PMS slots and the standby's failover decision
  (`PmsAssignment.dfy`, `Failover.dfy`).

Code that works in place is modelled by classes, arrays and loops; each such method is proved against a pure
function, and the properties are lemmas about that function. What other processes do (replies, pings, clocks,
the batch loader's choice, results of OAM and DBRM calls) is a parameter and is universally quantified.

`dafny verify dfyconfig.toml` checks the whole project.

## How the pieces fit

**QuickLZ.** `LzFormat` defines tokens, their five byte codes and the control words. `LzDecode.Run` is the
decompressor as a function of unread bytes; `LzParse.Parse` is a slower reference reader. `LzPlan` compresses with
*any* sound match finder and bounds the length of the result; `LzChoose` is the level 3 match finder over the
hash table of `LzTable`, and `LzMatches` says of the text alone what it finds. `LzRatio` says when a text is stored,
`LzRuns` what becomes of runs. `LzApi` adds the packet header and states the round trip. `LzDecompressor` and
`LzCompressor` are the array programs, including the four-bytes-every-three `memcpy_up`, the `bitlut` batch
copies, the shifting control register and the 8-bit counters that wrap. Bit operations are written as arithmetic.

**Protocols.** A state is a value, a step relation says what each critical section does, an invariant is shown to
survive every step, and the results are stated for every run. The wait on a condition variable is two steps:
blocking, and waking up for whatever reason.

**Results that are not what one would expect.**
* Batch insert: after an error reply from another PM, or an empty reply, `sendNextBatch` still writes to a PM that
  owes an answer. `BatchInsert.SendNextKeeps` gives the exact condition, `BatchInsert.ErrorReplyDoublesBatch` a
  concrete input. Over whole statements, `BatchEnd.StatementEndsIff` and `BatchEnd.ErrorStatementEndsIff` say when an
  answer is then unread at the end message, which is exactly when the end phase may miss an end answer.
* Bulk rollback, one lock: an exception of one of its calls leaves `lockReleased` true with the lock still held. One
  such call is its own: the first failed clean-up reply removes the reply queue, and the read of the next reply
  throws. `BulkRollback.FlagTells` gives the exact condition, `BulkRollback.WriteThrowsFlagWrong` and
  `BulkRollback.CleanUpErrorFlagWrong` concrete inputs.
* Bulk rollback, the pass: all locks share one unique id. An answer that one lock did not wait for may be counted by a
  later one, which is then released although a PM has not answered for it (`RollbackPass.StaleAnswerReleases`); this is
  excluded if and only if no bulk answer is outstanding (`RollbackPass.PassAnsweredIff`). A transaction's rollback reads
  only return codes, so any outstanding answer can stand in for one of its own (`TxnAnswers.RolledBackIff`). A reply
  queue that one lock left registered makes the next transaction's rollback abort the pass
  (`RollbackPass.PassAbortsIff`, `RollbackPass.LeakAborts`).
* Table access: a forced release of the last transaction listed leaves an empty queue in the map
  (`TableQueue.ForceLaw`).
* PMS slots: the loop ends if and only if some NIC id lies in the range it walks (`PmsAssignment.EndsIffCycle`).
* Batch insert: a read or write that throws loses the package in hand, which is off the queue and not sent
  (`BatchInsert.RunConserves`).
* Forced release of a table gives up exclusion as soon as somebody else is queued
  (`TableProtocol.ForceBreaksExclusion`).
* Failover: the comment at procmgr/processmanager.cpp:8015 announces an automatic change-over after five
  disabled outages, but the code only sends a notice. The model follows the code
  (`Failover.DisabledNeverFailsOver`).

## Model

| member | source | states |
|---|---|---|
| `LzFormat.DecodeInvertsEncode` | decomsvr/quicklz.c:436-468 | each of the five match codes is decoded, from a four-byte fetch, to its own offset, length and size, whatever bytes follow it |
| `LzFormat.CopyUp` | decomsvr/quicklz.c:205-212 | the overlapping copy extends the output by exactly `len` bytes and keeps what was there |
| `LzFormat.Expand` | decomsvr/quicklz.c:568-727 | the text of a legal token list has exactly the announced size and extends what was already written |
| `LzFormat.WordFits` | decomsvr/quicklz.c:273-285 | 31 token bits under a sentinel always fit a 32-bit control word |
| `LzFormat.ShortestCode` | decomsvr/quicklz.c:436-468 | no bytes the decoder reads as a given match are fewer than those the compressor emits for it |
| `LzDecode.Run` | decomsvr/quicklz.c:568-727 | on arbitrary bytes the main loop ends, and ends in failure or in an output of exactly the announced size |
| `LzDecode.Tail` | decomsvr/quicklz.c:700-723 | the closing loop fails or fills the output exactly, keeping the part already written |
| `LzDecode.MatchTurn` | decomsvr/quicklz.c:667-682 | a match that leaves the output on either side is refused; an accepted one keeps room for the uncompressed end |
| `LzDecode.RunDecodes` | decomsvr/quicklz.c:568-727 | from any point of any control group, decoding the stream of a legal token list gives the text of that list |
| `LzDecode.TailDecodes` | decomsvr/quicklz.c:700-723 | the closing loop reads a run of literals correctly although it skips the control words among them unread |
| `LzDecode.EnoughBytes` | decomsvr/quicklz.c:549-587 | wherever the main loop can stand in a legal stream, the four-byte fetch stays within the stream or the text is nearly done |
| `LzDecode.LiteralRun` | decomsvr/quicklz.c:683-699 | taking n literals together leaves the same text to come as taking them one by one |
| `LzParse.ParseInvertsEmit` | decomsvr/quicklz.c:273-285 | reading the emitted bytes of a legal token list bit by bit gives back exactly that token list |
| `LzParse.BatchIsOneByOne` | decomsvr/quicklz.c:683-699 | the batch of up to four literals ends with the output, source position and control word of single steps |
| `LzTable.Slot` | decomsvr/quicklz.c:379-421 | a slot below the counter always holds an earlier position with that hash, of the right rank modulo 16 |
| `LzTable.SlotEnters` | decomsvr/quicklz.c:419-421 | entering a hash value moves one slot of that value to the new position and no other slot |
| `LzTable.Vouched` | decomsvr/quicklz.c:379-396 | an 8-bit counter, wrapped or not, never vouches for a slot that was not filled |
| `LzTable.CompressState.Reset` | decomsvr/quicklz.c:64-75 | clearing the counters alone makes the table that of an empty text, whatever the slots hold |
| `LzTable.CompressState.Enter` | decomsvr/quicklz.c:419-421 | the in-place update keeps the table equal to the function of the positions entered so far |
| `LzPlan.TokenizeLegal` | decomsvr/quicklz.c:371-476 | the tokens of any sound plan are true of the text, in range, and leave the last four bytes to literals |
| `LzPlan.CopyRebuilds` | decomsvr/quicklz.c:202-222 | an overlapping copy rebuilds a repeat however short its period |
| `LzPlan.SpellsExpand` | decomsvr/quicklz.c:568-727 | tokens true of a text expand to that text |
| `LzPlan.StreamFrugal` | decomsvr/quicklz.c:273-285 | without the ratio test the stream grows by at most 4 bytes in 31 plus a control word |
| `LzPlan.StreamSaves` | decomsvr/quicklz.c:275-277 | when the ratio test does not give up, the stream is less than 150 bytes longer than any text |
| `LzChoose.HashFunc` | decomsvr/quicklz.c:90-97 | the hash is below 4096 |
| `LzChoose.WideFetchSameHash` | decomsvr/quicklz.c:99-129 | the fourth byte that the x86 fetch reads does not change the hash |
| `LzChoose.MatchLen` | decomsvr/quicklz.c:382-412 | the match length found is the longest below the cap for which the bytes repeat |
| `LzChoose.BestIsBest` | decomsvr/quicklz.c:379-417 | no live slot offers a longer match than the one chosen, nor an equally long one nearer by |
| `LzChoose.ChoicesSound` | decomsvr/quicklz.c:371-434 | every match the search chooses is true of the text, of offset 3 to 131070 and length 3 to 255, and clear of the end |
| `LzMatches.HashFolds` | decomsvr/quicklz.c:90-97 | the hash folds the upper 12 bits of the three bytes onto the lower: with either half it gives back the other |
| `LzMatches.SlotsAreRecent` | decomsvr/quicklz.c:379-421 | the slots a search looks at hold exactly the latest earlier positions with the same hash: 16 of them, or as many as the wrapping 8-bit counter says when that is below 16 |
| `LzMatches.PlanMatches` | decomsvr/quicklz.c:362-476 | at every position of every text the token is a match if and only if the longest repeat among those positions, three or more back, nearest of equals, lies at most 131070 back, and then it is that one; otherwise the byte itself |
| `LzMatches.LitOnlyIf` | decomsvr/quicklz.c:424-476 | a byte is emitted where a match could begin only if nothing repeats there, or the best repeat lies too far back |
| `LzRatio.StoredIff` | decomsvr/quicklz.c:271-286 | a text is stored if and only if, at the end of some control word past its middle, the tokens so far take more than 31 parts in 32 of the text they stand for |
| `LzRuns.RunIsPacked` | decomsvr/quicklz.c:255-550 | a run of one byte, however long, is never stored |
| `LzRuns.RunShrinks` | decomsvr/quicklz.c:255-550 | and its stream is at most a fortieth of it and 30 bytes |
| `LzRuns.FiveCodes` | decomsvr/quicklz.c:436-468 | the bytes of one match for each of the five codes |
| `LzRuns.Packet300` | decomsvr/quicklz.c:729-806 | the packet for 300 equal bytes, byte for byte: header, control word, literals and two matches |
| `LzApi.HeaderReadsBack` | decomsvr/quicklz.c:177-199 | the three size readers recover what the header was written with, in both header forms |
| `LzApi.HeaderFlags` | decomsvr/quicklz.c:786-804 | the bits of the first byte: compressed, long header from 216 bytes on, level 3, no streaming buffer, version |
| `LzApi.PackFits` | decomsvr/quicklz.c:735-797 | every packet is at most 400 bytes longer than its text, and at most 255 bytes for texts below 216, so no header field truncates |
| `LzApi.PackedLength` | decomsvr/quicklz.c:548-549 | a compressed packet is exactly header and stream, nine bytes at least behind the header |
| `LzApi.CoreDecodes` | decomsvr/quicklz.c:255-727 | decoding the whole stream of a text, padded to nine bytes, gives the text |
| `LzApi.UnpackInvertsPack` | decomsvr/quicklz.c:729-847 | with any sound match finder, for every text of 1 to 0xffffffff-400 bytes, unpacking the packet gives the text, through the compressed and the stored path |
| `LzApi.RoundTrip` | decomsvr/quicklz.c:255-847 | the same with the level 3 match finder: compress, then decompress, is the identity |
| `LzApi.UnpackReadsNoFurther` | decomsvr/quicklz.c:553-727 | packets, damaged ones too, that agree as far as their header announces unpack alike, whatever follows |
| `LzCopy.MemcpyUp` | decomsvr/quicklz.c:205-212 | the byte loop performs the overlapping copy and touches nothing behind it |
| `LzCopy.MemcpyUpWords` | decomsvr/quicklz.c:213-221 | four-byte stores every three bytes copy the same bytes from three or more places back, and disturb at most three bytes behind the match |
| `LzDecompressor.BitlutCounts` | decomsvr/quicklz.c:561 | the table entry of the low four control bits is the number of literal bits before the next match or sentinel, four at most |
| `LzDecompressor.ReadWord` | decomsvr/quicklz.c:572-587 | a four-byte fetch, allowed only where all four bytes lie below the compressed size |
| `LzDecompressor.CopyMatch` | decomsvr/quicklz.c:667-676 | a match is taken exactly when its source and its end lie within the output; nothing at or above the decompressed size is written, nothing at all on refusal |
| `LzDecompressor.CopyLiterals` | decomsvr/quicklz.c:683-699 | the four-byte store puts the literals down and stays below the decompressed size |
| `LzDecompressor.CopyTail` | decomsvr/quicklz.c:702-717 | the in-place closing loop produces what the closing function says, below the decompressed size |
| `LzDecompressor.DecompressCore` | decomsvr/quicklz.c:552-727 | on arbitrary packet bytes: ends, writes below the decompressed size, returns 0 or that size, and the output is that of `LzDecode.Run` on the bytes below the compressed size; every read goes through `ReadWord`, `ReadByte` or `CopyLiterals`, which demand a place below the compressed size |
| `LzDecompressor.Decompress` | decomsvr/quicklz.c:809-847 | compressed and stored packets alike are unpacked as `LzApi.Unpack` says, and nothing behind the output is touched |
| `LzRegister.SentinelShows` | decomsvr/quicklz.c:273-285 | the sentinel reaches bit 0 of the shifting register exactly when 31 tokens were taken |
| `LzRegister.RegisterShifts` | decomsvr/quicklz.c:424-476 | one shift of the 32-bit register adds one token bit in its place |
| `LzRegister.FlushesWord` | decomsvr/quicklz.c:279-281 | the register, shifted once more under a fresh top bit, is the control word the format calls for |
| `LzCompressor.FindMatch` | decomsvr/quicklz.c:371-418 | the loop over the slots finds the match of `LzChoose.BestOf` |
| `LzCompressor.EnterRun` | decomsvr/quicklz.c:429-434 | after a match, all its positions are entered and the table is again that of the text so far |
| `LzCompressor.FastWrite` | decomsvr/quicklz.c:131-156 | n bytes are stored least significant first, and no others |
| `LzCompressor.WriteToken` | decomsvr/quicklz.c:436-476 | the bytes written for a token are its code, and nothing before them changes |
| `LzCompressor.EmitTail` | decomsvr/quicklz.c:508-541 | the closing loop emits the rest of the text as literals, keeping the layout of groups and control words |
| `LzCompressor.CloseStream` | decomsvr/quicklz.c:543-546 | shifting until the sentinel shows completes the last control word, and the bytes written are the whole stream |
| `LzCompressor.CompressCore` | decomsvr/quicklz.c:255-550 | returns 0 exactly when the ratio test gives up on the plan, and otherwise writes exactly the plan's stream and returns its padded length |
| `LzCompressor.WriteHeader` | decomsvr/quicklz.c:786-801 | puts the short or long header down and leaves the body as it is |
| `LzCompressor.Compress` | decomsvr/quicklz.c:729-807 | refuses exactly the sizes 0 and above 0xffffffff-400, and otherwise writes the packet of the text |
| `LzCompressor.RoundTripArrays` | decomsvr/quicklz.c:729-847 | compressing one array and decompressing the result gives an array equal to the first |
| `Words64.MulUndoes` | decomsvr/server.cpp:453-455 | multiplication modulo 2^64 by an odd constant is undone by its inverse |
| `Words64.RotlUndoes` | decomsvr/server.cpp:461-464 | a rotation is undone by rotating on to a full turn |
| `Words64.XorShiftUndoes` | decomsvr/server.cpp:452-456 | the xor-shift by 33 is its own inverse |
| `Hasher128.FmixInjective` | decomsvr/server.cpp:450-459 | the finaliser maps different words to different words |
| `Hasher128.RoundInjective` | decomsvr/server.cpp:483-504 | one turn of the body is injective in the state for a given block, and in the block for a given state |
| `Hasher128.TailInjective` | decomsvr/server.cpp:507-538 | the same of the tail of fewer than 16 bytes |
| `Hasher128.FinishInjective` | decomsvr/server.cpp:541-555 | the finalisation is injective in the state |
| `Hasher128.OneBlockShows` | decomsvr/server.cpp:466-557 | texts of equal length that agree outside one 16-byte block and end in the same 128-bit state are equal |
| `Hasher128.Gather` | decomsvr/server.cpp:514-538 | the fall-through exclusive ors assemble the little-endian number of the tail bytes |
| `Hasher128.Hash` | decomsvr/server.cpp:466-557 | the loop returns the first half of that state |
| `HashVectors.RoundOfOnes` | decomsvr/server.cpp:483-503 | the value of one turn from the start on the words 1 and 2 |
| `HashVectors.TailOfOnes` | decomsvr/server.cpp:505-538 | the value of the tail on nine bytes |
| `HashVectors.FmixOfInverse` | decomsvr/server.cpp:450-459 | the finaliser takes the inverse of its first factor, shifted, to its second, shifted |
| `HashVectors.BlockOfOnes` | decomsvr/server.cpp:480-485 | a block is two little-endian words, the earlier one first |
| `HashVectors.EmptyText` | decomsvr/server.cpp:466-556 | the empty text hashes to 0 |
| `TableQueue.IterableQueue.Find` | dmlproc/dmlprocessor.h:59-70 | finds the first occurrence, or the end |
| `TableQueue.IterableQueue.Erase` | dmlproc/dmlprocessor.h:71-80 | removes the first occurrence and keeps the order of the others |
| `TableQueue.EnterLaw` | dmlproc/dmlprocessor.cpp:363-404 | a transaction goes on exactly if it then heads its table; one that does not joins at the end, again if it is listed already; other tables and other entries stay |
| `TableQueue.LeaveLaw` | dmlproc/dmlprocessor.cpp:407-446 | a release takes its own place at the head and no other; a queue is erased exactly when it is empty; the waiters are notified exactly if there was a queue |
| `TableQueue.ForceLaw` | dmlproc/dmlprocessor.cpp:448-467 | a forced release takes the transaction out once, keeps the order of the others, and leaves an empty queue in the map when it was the last |
| `TableQueue.TableAccess.Synch` | dmlproc/dmlprocessor.cpp:339-408 | the critical section on entry is `TableQueue.Enter` |
| `TableQueue.TableAccess.Woken` | dmlproc/dmlprocessor.cpp:377-398 | after a wait a handler goes on exactly at the head or when no longer listed |
| `TableQueue.TableAccess.Release` | dmlproc/dmlprocessor.cpp:411-448 | the critical section of release is `TableQueue.Leave` |
| `TableQueue.TableAccess.ForceRelease` | dmlproc/dmlprocessor.cpp:450-466 | the critical section of forced release is `TableQueue.Force` |
| `TableProtocol.RunKeeps` | dmlproc/dmlprocessor.cpp:339-466 | every run keeps the invariant that ties queues, phases, notifications and order together |
| `TableProtocol.Exclusion` | dmlproc/dmlprocessor.cpp:364-406 | in every run at most one handler that was not forced out is past `synchTableAccess` on a table, and it is the head of its queue |
| `TableProtocol.NoLostWakeup` | dmlproc/dmlprocessor.cpp:377-446 | in every run no empty queue stays in the map, and each head is working or has been notified since it became head |
| `TableProtocol.HeadGoesOn` | dmlproc/dmlprocessor.cpp:377-398 | a waiting head can always be woken and then works |
| `TableProtocol.FirstComeFirstServed` | dmlproc/dmlprocessor.cpp:364-446 | without forced release, arrivals on a table are the admissions followed by those still waiting, in order |
| `TableProtocol.ReferencesStayAlive` | dmlproc/dmlprocessor.cpp:366-442 | without forced release, a waiter's queue is never erased under it |
| `TableProtocol.DanglesIff` | dmlproc/dmlprocessor.cpp:366-446 | a release leaves a waiter on an erased queue exactly when the waiter was forced out, has not looked yet, and the one who leaves is the last in the queue |
| `TableProtocol.DanglingRun` | dmlproc/dmlprocessor.cpp:366-466 | a run that ends so |
| `TableProtocol.ReleaseTakesOwnPlaceOnly` | dmlproc/dmlprocessor.cpp:416-447 | a release, by the head or by anybody else, takes nobody else's place |
| `TableProtocol.ForceBreaksExclusion` | dmlproc/dmlprocessor.cpp:450-466 | a forced release with others queued always leads, by wake-ups alone, to two handlers at work on the table |
| `StatementGate.RunKeeps` | exemgr/activestatementcounter.cpp:29-58 | in every interleaving the count is the number of holders, within a positive limit; the waiting count is the number of blocked threads; sleepers imply at least as many notified threads as free slots |
| `StatementGate.NoSlotForgotten` | exemgr/activestatementcounter.cpp:29-58 | a free slot with somebody blocked means somebody blocked has been notified |
| `StatementGate.ActiveStatementCounter.Incr` | exemgr/activestatementcounter.cpp:29-44 | the counters move as the step relation says, and a counted thread passes through |
| `StatementGate.ActiveStatementCounter.Woken` | exemgr/activestatementcounter.cpp:29-44 | the loop test after a wait moves the counters as the step relation says |
| `StatementGate.ActiveStatementCounter.Decr` | exemgr/activestatementcounter.cpp:46-58 | gives the slot back and notifies, exactly for a counted thread |
| `SessionLoop.RunKeeps` | exemgr/main.cpp:508-1109 | in every run of any number of sessions the gate's threads are exactly those whose flag is set |
| `SessionLoop.EveryMoveEnabled` | exemgr/main.cpp:508-1109 | the gate's bookkeeping never forbids a move of the control flow |
| `SessionLoop.NoSlotBetweenStatements` | exemgr/main.cpp:523-578 | at the loop top, at `new_plan` and after the end a session is not at the gate |
| `SessionLoop.NeverTwoSlots` | exemgr/main.cpp:656-690 | `incr` always meets a clear flag |
| `SessionLoop.AllSlotsReturned` | exemgr/main.cpp:1055-1101 | when all sessions have ended both shared counters are zero |
| `SessionLoop.AtGateIff` | exemgr/main.cpp:656-1055 | in every run a session is at the gate exactly from accepting a plan to the event that ends the statement: the last band of a table in table mode, the end, a new plan, an abort or the handler otherwise |
| `SessionLoop.NoSlotAfterLastBand` | exemgr/main.cpp:953-962 | a table-mode session has no slot from the last band of a table until its next plan, whatever tables it serves meanwhile |
| `SessionLoop.TuplesKeepSlot` | exemgr/main.cpp:656-1055 | a tuple session keeps its slot from its plan to the end of its statement |
| `SessionLoop.StandsThere` | exemgr/main.cpp:523-1105 | in every run where a session stands is told by what it saw last |
| `BatchInsert.SendNextKeeps` | dmlproc/batchinsertprocessor.cpp:251-312 | one unanswered batch exactly at the PMs whose flag is false survives a call if and only if the PM is free, or one of the messages is its own answer and all before are answers of 0 from others; otherwise it owes two |
| `BatchInsert.ErrorReplyDoublesBatch` | dmlproc/batchinsertprocessor.cpp:293-308 | a concrete run from the constructor in which an error reply of another PM leads to two batches at one PM |
| `BatchInsert.DrainEnds` | dmlproc/batchinsertprocessor.cpp:276-304 | the wait needs no more answers than there are busy PMs |
| `BatchInsert.DrainError` | dmlproc/batchinsertprocessor.cpp:276-304 | the error a wait leaves, and whether it throws, is decided by the first message that is not an answer of 0 from another PM |
| `BatchInsert.ReceiveError` | dmlproc/batchinsertprocessor.cpp:345-384 | no error is left exactly when there was none and each message read was an answer of 0 |
| `BatchInsert.RunConserves` | dmlproc/batchinsertprocessor.cpp:177-312 | whatever is read, batches sent followed by batches queued are the batches added, in order; when an exception leaves a call, exactly the package in hand is missing |
| `BatchInsert.RunKeeps` | dmlproc/dmlprocessor.cpp:784-830 | in every run up to the first error or empty reply the flags tell the truth, no package waits, nothing throws and no error is set |
| `BatchInsert.RunProceeds` | dmlproc/dmlprocessor.cpp:784-830 | such a run is never stuck while each wait gets as many answers as there are busy PMs |
| `BatchInsert.ReceiveEmpties` | dmlproc/batchinsertprocessor.cpp:332-387 | receiving what the flags say is outstanding leaves no batch unanswered |
| `BatchInsert.EndPhase` | dmlproc/batchinsertprocessor.cpp:389-485 | with no batch unanswered, exactly one end answer of every PM is read, and the high-water marks set are the lists in the order they came |
| `BatchInsert.CleanStatement` | dmlproc/dmlprocessor.cpp:685-691 | a whole statement of error-free replies, from the constructor to the end phase: every package was sent in order, no batch is unanswered at the end message, one end answer of each PM is read, and the high-water marks are their lists in order |
| `BatchInsert.SingleStatement` | dmlproc/dmlprocessor.cpp:599-607 | the same for a statement of one package, with the error paths of the choice of a PM and of the write |
| `BatchInsert.LateAnswerSpoils` | dmlproc/batchinsertprocessor.cpp:389-447 | while a batch is unanswered, some order of the replies, with each PM answering its batches first, ends the end phase with an end answer unread |
| `BatchEnd.RunExcess` | dmlproc/batchinsertprocessor.cpp:251-312 | in every run the answers owed beyond the flags are the batches written to a PM still at work, less the answers read from PMs whose flag was already true |
| `BatchEnd.AlwaysEndsIff` | dmlproc/batchinsertprocessor.cpp:389-447 | the end phase reads an end answer of every PM, in whatever order answers come, if and only if no batch is unanswered |
| `BatchEnd.StatementEndsIff` | dmlproc/dmlprocessor.cpp:676-830 | for every run, whatever errors, warnings and empty messages it meets: the answers unread at the end message are its surplus and those given up when a read throws, and the end phase is sure to end well if and only if there are none |
| `BatchEnd.ErrorStatementEndsIff` | dmlproc/dmlprocessor.cpp:745-806 | without range warnings, which alone let the caller go on, that is the case if and only if every wait of the run ended on the answer it waited for, and no read threw while the rest was received; an unserved wait leaves exactly one answer more |
| `BatchErrors.EndError` | dmlproc/batchinsertprocessor.cpp:389-485 | what the end phase reports is the result of the high-water-mark update when it is asked for and fails, otherwise the last error among the messages read; the update is asked for exactly when every PM answered and there are marks |
| `BatchErrors.EndErrorIff` | dmlproc/batchinsertprocessor.cpp:389-485 | no error is reported if and only if there was none, every message read was an answer of 0, and the update, if asked for, returned 0 |
| `BatchErrors.ReceiveReports` | dmlproc/batchinsertprocessor.cpp:345-384 | receiving reports the last error among the messages it read |
| `BatchErrors.SendNextReports` | dmlproc/batchinsertprocessor.cpp:251-312 | sending reports 1 without a PM, and after a wait the error of the message that ended it |
| `BatchErrors.RunTakes` | dmlproc/dmlprocessor.cpp:784-830 | a statement takes packages in order while there is no error but the range warning, and leaves some only for another error |
| `BatchInsertProc.Processor.constructor` | dmlproc/batchinsertprocessor.cpp:60-80 | all PMs start free |
| `BatchInsertProc.Processor.AddPackage` | dmlproc/batchinsertprocessor.cpp:177-182 | the package joins the end of the queue |
| `BatchInsertProc.Processor.GetPkg` | dmlproc/batchinsertprocessor.cpp:184-191 | the oldest package leaves the queue |
| `BatchInsertProc.Processor.SendFirstBatch` | dmlproc/batchinsertprocessor.cpp:221-249 | the new state is `BatchInsert.SendFirst`, with the error paths for a failed choice, for PM 0 and for a write that throws |
| `BatchInsertProc.Processor.SendNextBatch` | dmlproc/batchinsertprocessor.cpp:251-312 | the read loop and the write after it are `BatchInsert.SendNext`, also when a read or the write throws with the package already off the queue |
| `BatchInsertProc.Processor.ReceiveOutstandingMsg` | dmlproc/batchinsertprocessor.cpp:332-387 | counting and reading are `BatchInsert.ReceiveOutstanding` |
| `BatchInsertProc.Processor.SendLastBatch` | dmlproc/batchinsertprocessor.cpp:314-330 | every PM then owes an end answer, unless the write failed |
| `BatchInsertProc.Processor.ReceiveAllMsg` | dmlproc/batchinsertprocessor.cpp:389-447 | the read loop and the update after it are `BatchInsert.ReceiveAll` |
| `BatchInsertProc.Processor.SetHwms` | dmlproc/batchinsertprocessor.cpp:458-485 | the nested loops build the concatenation of the first lists, one per PM, and ask for an update unless it is empty |
| `BulkRollback.Insert` | dmlproc/dmlprocessor.cpp:1683-1690 | the ordered set stays strictly ascending and gains exactly the new element |
| `BulkRollback.Owners` | dmlproc/dmlprocessor.cpp:1683-1690 | the PMs told are exactly those that own one of the dbroots, each once, ascending |
| `BulkRollback.OwnersMeans` | dmlproc/dmlprocessor.cpp:1683-1690 | a dbroot the map does not know counts for PM 0 |
| `BulkRollback.HearCleanUpExit` | dmlproc/dmlprocessor.cpp:1756-1793 | the clean-up loop ends without error exactly when all replies are answers of 0, reads all replies exactly when at most the last is a failure, and otherwise leaves by an exception, because the first failure removed its own queue |
| `BulkRollback.ReleasedIff` | dmlproc/dmlprocessor.cpp:1652-1793 | a lock is released exactly when it could be taken over, the queue was free, the rollback went well everywhere or was done before, every clean-up message went out, and no clean-up reply but the last failed; release is then the last thing done |
| `BulkRollback.CleanReleases` | dmlproc/dmlprocessor.cpp:1743-1793 | the same for the clean-up alone |
| `BulkRollback.FlagTells` | dmlproc/dmlprocessor.cpp:1652-1793 | `lockReleased` tells whether release was called if and only if no reached registration, write, read, change of state or release throws, said of the inputs; when one does, the flag says released and is wrong |
| `BulkRollback.WriteThrowsFlagWrong` | dmlproc/dmlprocessor.cpp:1700-1705 | an input on which the flag is wrong: the first write throws |
| `BulkRollback.CleanUpErrorFlagWrong` | dmlproc/dmlprocessor.cpp:1761-1783 | an input on which nothing throws by itself and the flag is wrong: the first of two clean-up replies is an error |
| `BulkRollback.LeaksIff` | dmlproc/dmlprocessor.cpp:1682-1788 | the reply queue stays registered exactly when a call threw, or still waits, while it was |
| `BulkRollback.StateBeforeCleanUp` | dmlproc/dmlprocessor.cpp:1738-1754 | a lock in LOADING moves to CLEANUP before any PM is told to clean up |
| `BulkRollback.ToldOnce` | dmlproc/dmlprocessor.cpp:1692-1754 | no PM is told twice in a phase, and for a released lock every owner was told once in each phase it went through |
| `RollbackAnswers.ReleaseAnswered` | dmlproc/dmlprocessor.cpp:1692-1743 | while no answer to an earlier bulk rollback is outstanding, a lock in LOADING is released only after every PM owning one of its dbroots answered 0, although the code only counts replies |
| `RollbackAnswers.AnsweredIff` | dmlproc/dmlprocessor.cpp:1707-1736 | that holds however the others behave if and only if no such answer is outstanding |
| `RollbackAnswers.StaleReleases` | writeengine/client/we_clients.cpp:552-575 | for any outstanding bulk answer, a run with answers in order per PM in which the lock is released and one owner never answered |
| `RollbackAnswers.LeavesNothingIff` | dmlproc/dmlprocessor.cpp:1692-1786 | a bulk rollback leaves no answer outstanding if and only if, in each phase reached, nobody was told or all were told and all answers were read |
| `RollbackPass.TxnRollbackExit` | dbcon/dmlpackageproc/dmlpackageprocessor.cpp:258-383 | rollBackTransaction throws exactly when the DBRM accepts it and the queue is still registered, and returns 0 exactly when as many answers of 0 were read as PMs were asked, and the DBRM agrees |
| `RollbackPass.BatchExit` | dbcon/dmlpackageproc/dmlpackageprocessor.cpp:541-650 | when the batch rollback throws, waits, or leaves its queue registered, said of the inputs |
| `RollbackPass.AbortsIff` | dmlproc/dmlproc.cpp:197-260 | a lock aborts the pass exactly when it is a transaction's, the DBRM accepts the rollback, and the queue is registered from an earlier lock, or the rollback goes well and its batch part or the release throws |
| `RollbackPass.PassAbortsIff` | dmlproc/dmlproc.cpp:197-350 | the pass is aborted exactly when it reaches such a lock |
| `RollbackPass.QueueIff` | dmlproc/dmlproc.cpp:197-350 | the queue is registered after a lock exactly when it was before, or the lock left it so |
| `RollbackPass.LeakStopsReleases` | writeengine/client/we_clients.cpp:378-395 | once a lock left the queue registered, no later lock of a transaction or a bulk load is released |
| `RollbackPass.LeakAborts` | dbcon/dmlpackageproc/dmlpackageprocessor.cpp:277 | and the next transaction that the DBRM lets roll back aborts the pass |
| `RollbackPass.PassJustified` | dmlproc/dmlproc.cpp:197-350 | for every list of locks, a transaction's lock is released only after its rollback returned 0, and that of a bulk load only past LOADING or, when no earlier bulk answer is outstanding, after all its PMs answered 0 |
| `RollbackPass.PassAnsweredIff` | dmlproc/dmlproc.cpp:182-350 | after any beginning of a pass, the next bulk lock is safe from answers meant for earlier ones, however the others go on, if and only if none is outstanding |
| `RollbackPass.ClearIff` | dmlproc/dmlproc.cpp:197-350 | a lock that met no outstanding bulk answer leaves none exactly when it is settled |
| `RollbackPass.SettledStaysClear` | dmlproc/dmlproc.cpp:197-350 | while every bulk lock so far was settled, none is outstanding |
| `RollbackPass.StaleAnswerReleases` | dmlproc/dmlprocessor.cpp:1725-1731 | two locks on PMs 1 and 2: PM 1 refuses the first, PM 2's answer to it is counted for the second, which is released without PM 2 having answered for it |
| `RollbackPass.PassOutcome` | dmlproc/dmlproc.cpp:197-286 | the database goes read-only, with the last failing transaction remembered, exactly when a rollback failed |
| `RollbackReleases.LockReleasedIff` | dmlproc/dmlproc.cpp:197-350 | for each of the three kinds of lock, over the inputs: it is released if and only if its rollback returned 0, its batch part neither throws nor waits and it is no DDL lock; it is one of a redistribution; or its bulk rollback releases it. The session is cleared if and only if that release answered yes, the database set read-only if and only if the rollback failed |
| `RollbackReleases.PassReleasedIff` | dmlproc/dmlproc.cpp:197-350 | the same for every lock a pass gets to, given which locks before it left the queue registered |
| `RollbackReleases.PassOpenIff` | dmlproc/dmlproc.cpp:197-350 | the queue is registered when a lock is taken up if and only if an earlier lock left it so |
| `RollbackReleases.PassWaitsIff` | dmlproc/dmlproc.cpp:197-350 | the pass waits for a reply if and only if it reaches a lock whose rollback, batch part or bulk rollback does |
| `RollbackReleases.TxnReturns` | dbcon/dmlpackageproc/dmlpackageprocessor.cpp:258-383 | what rollBackTransaction returns for each cause: the DBRM, a failed write, the first reply that is not an answer of 0, or the DBRM again |
| `TxnAnswers.RolledBackIff` | dbcon/dmlpackageproc/dmlpackageprocessor.cpp:277-331 | a return of 0 means, however the others behave, that every PM answered this rollback with 0 if and only if no answer to any earlier request is outstanding |
| `TxnAnswers.TxnTellsIff` | dbcon/dmlpackageproc/dmlpackageprocessor.cpp:276-652 | exactly which PMs are told of the rollback, of the batch and of its meta files |
| `TxnAnswers.PassRolledBackIff` | dmlproc/dmlproc.cpp:182-260 | the same for the next transaction after any beginning of a pass |
| `TxnAnswers.TxnReleaseAnswered` | dmlproc/dmlproc.cpp:197-260 | with nothing outstanding, a transaction's lock is released only after every PM answered its rollback with 0 |
| `TxnAnswers.TxnLeavesNothingIff` | dbcon/dmlpackageproc/dmlpackageprocessor.cpp:258-652 | a transaction's lock that met nothing outstanding leaves nothing outstanding if and only if, in each exchange it reached, nobody was told or all were told and all answers were read |
| `TxnAnswers.EmptyIff` | dmlproc/dmlproc.cpp:197-350 | the same condition for a lock of any kind, as a step of the pass |
| `TxnAnswers.PassReleasesAnswered` | dmlproc/dmlproc.cpp:197-350 | for every list of locks, while each lock before left nothing outstanding, no lock is released before the PMs it concerns answered for it, transactions included |
| `RollbackProcessor.PmSet` | dmlproc/dmlprocessor.cpp:1683-1690 | the loop over the dbroots builds `BulkRollback.Owners` |
| `RollbackProcessor.Processor.AwaitAll` | dmlproc/dmlprocessor.cpp:1707-1736 | reads one reply per PM, stops at the first failure, removes the queue then, and returns its code |
| `RollbackProcessor.Processor.AwaitCleanUp` | dmlproc/dmlprocessor.cpp:1756-1786 | reads one reply per PM, removing the queue at the first failure, after which a read throws |
| `RollbackProcessor.Processor.ProcessBulkRollback` | dmlproc/dmlprocessor.cpp:1652-1793 | the events, the flag and the queue are those of `BulkRollback.Bulk` and `BulkRollback.LockReleased`, on every path |
| `RollbackProcessor.Processor.RollBackTransaction` | dbcon/dmlpackageproc/dmlpackageprocessor.cpp:258-383 | the events, the return code and the queue are those of `RollbackPass.TxnRollback` |
| `RollbackProcessor.Processor.RollBackBatch` | dbcon/dmlpackageproc/dmlpackageprocessor.cpp:541-650 | the events and the queue are those of `RollbackPass.BatchRollback` |
| `RollbackProcessor.Processor.RollbackAll` | dmlproc/dmlproc.cpp:197-350 | the pass does what `RollbackPass.Walk` says, ending early only where that does |
| `PmsAssignment.PmPorts` | procmgr/processmanager.cpp:6771-6773 | there are never fewer than 32 slots |
| `PmsAssignment.PortsSuffice` | procmgr/processmanager.cpp:6771-6773 | the number of slots is two for every PM and NIC, or 32 if that is more |
| `PmsAssignment.TwoSlotsEach` | procmgr/processmanager.cpp:6771-6798 | when there are no more addresses than PMs times NICs, each gets at least two slots |
| `PmsAssignment.CyclePlace` | procmgr/processmanager.cpp:6779-6797 | the cycle walked is the list sorted by NIC id, stable, without the ids that are not walked |
| `PmsAssignment.PlaceGroup` | procmgr/processmanager.cpp:6779-6789 | one pass places the addresses of one NIC id, in list order, as far as slots are left |
| `PmsAssignment.AssignSlots` | procmgr/processmanager.cpp:6771-6798 | the nested loops end with every slot filled, slot j holding entry (j-1) mod L of the NIC-ordered cycle |
| `PmsAssignment.EndsIffCycle` | procmgr/processmanager.cpp:6778-6798 | the outer loop ends if and only if some address has a NIC id in the range walked |
| `PmsAssignment.SharesEven` | procmgr/processmanager.cpp:6778-6798 | of the slots assigned, an address gets its number of entries in the cycle once per full round and at most once more; two addresses with one entry each differ by at most one slot |
| `Failover.FailoverIff` | procmgr/processmanager.cpp:7810-8095 | a round starts the change-over if and only if the parent was silent for the heartbeat count, the interface works, the others show an outage (a mixed one for the second time), and no setting forbids it |
| `Failover.InstanceDecides` | procmgr/processmanager.cpp:8030-8085 | with PM failover on, or outside the cloud, what is said of the instance decides nothing; otherwise a change-over means it is terminated, or stopped and every allowed start failed |
| `Failover.WatchRemembers` | procmgr/processmanager.cpp:7810-8085 | the five variables kept in the loop say of the history: rounds of silence, a mixed outage seen, interface tests failed since the last answer, outages met while disabled, an instance waited for |
| `Failover.FailoverAfterSilence` | procmgr/processmanager.cpp:7874-7995 | before a change-over the parent failed every one of the last heartbeat-count pings |
| `Failover.FailoverHasCause` | procmgr/processmanager.cpp:7817-8095 | every run that changed over has a round that meets all the conditions |
| `Failover.DisabledNeverFailsOver` | procmgr/processmanager.cpp:8000-8027 | while the setting reads disabled, no number of outages starts a change-over |
| `Failover.Probe` | procmgr/processmanager.cpp:7909-7949 | the nested ping loops end with an answer exactly if one of the (heartbeat+1)·n pings is answered, and with a failure noted exactly if the first was not |
| `Failover.Monitor.TestOthers` | procmgr/processmanager.cpp:7880-7995 | the branches after the pings set the flags as `Failover.Test` says |
| `Failover.Monitor.ObeySettings` | procmgr/processmanager.cpp:8000-8094 | the disable flag, the instance state and the storage type clear the verdict as `Failover.Decide` says |
| `Failover.Monitor.WatchParent` | procmgr/processmanager.cpp:7817-8095 | the loop over any sequence of rounds ends as `Failover.Watch` says |

## Left out

- QuickLZ levels 1 and 2 and the streaming buffers: not compiled with the repository's settings.
- The x86 forms of `fast_read` and `fast_write` in the compressor: the model stores and reads exactly the bytes asked for; only the wide hash fetch is treated (`LzChoose.WideFetchSameHash`).
- LzDecompressor.Decompress: asks for the whole packet in memory, as much as its header announces; the original has no source length and asks the same of its caller without checking it.
- LzCompressor.Compress: asks for a destination 400 bytes longer than the text, as the original's documentation does, and for arrays that do not overlap.
- The few bytes that the compressor counts in a very short stream but does not write are a parameter (`pad`) of the packet.
- The rest of decomsvr/server.cpp (sockets, pipes, threads): input and output around the codec.
- Hasher128.Hash: takes the text as a value and an unbounded number of blocks, where the original counts blocks in an `int`; the statement about states does not extend to the 64 bits returned, which cannot be injective.
- TableProtocol.RunKeeps: assumes different transaction ids among the handlers of a table at one time and table ids other than 0; a forced release that empties a queue, and the clearing of all queues on SIGHUP, are not steps.
- TableQueue.TableAccess.Woken: works on the value of the queue; the reference a waiter holds into the map is a phase of `TableProtocol`, not a pointer.
- SessionLoop.RunKeeps: the loop is a state machine over its labels and events, not a method with `goto`; message contents, row bands and failing assertions on malformed requests are not modelled.
- StatementGate.RunKeeps: the counters are unbounded; a limit of 0 means no limit, as in the code.
- BatchInsert.SendNextKeeps: assumes distinct PM ids and as many connections as PMs, and that a write that throws has not reached the PM.
- BatchEnd.StatementEndsIff: asks that the outstanding answers arrive and that the end message goes out.
- Taking the table lock for a batch insert, and the messages the driver sends back to the client.
- RollbackPass.PassJustified: each PM answers its requests in the order it was asked, as its single connection makes it; answers thrown away with a queue, or that come while none is registered, are a parameter of the next queue. Failing alarms and exceptions of the DBRM calls other than the change of state and the release are not modelled.
- RollbackPass.AbortsIff: the PMs asked by a transaction rollback are a fixed list, and as many answers are awaited; the search for the batch insert's own lock is a yes or no.
- The map of dbroots to PMs gains an entry with PM 0 for an unknown dbroot; the model reads it as PM 0 without storing it.
- PmsAssignment.AssignSlots: asks for a NIC id in the range walked, because the loop does not end otherwise (`PmsAssignment.EndsIffCycle`); writing the configuration file and its five retries are left out.
- Failover.Monitor.WatchParent: notifications, the cold-standby message, sleeping and restarting processes after a cloud restart are not modelled; the wait for the system to become active is assumed to end.
- The rest of the process manager, DDL and DML package processors, the catalog and the DBRM: wrappers over calls whose code is elsewhere.
- `DMLResultBuffer` and the wait for other transactions: only easy facts, or driven by timing.
